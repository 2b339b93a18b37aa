/** What every run of the folder operations keeps, and the histories of the two
    registers in it: a field of a folder, and the folder of a Work. */
module FolderRuns {
  import opened Common
  import opened Registers
  import opened FolderFields
  import opened FolderTree
  import opened FolderStore

  /** Operations whose envelopes were validated: texts are canonical. */
  datatype Op =
    | FieldOp(id: Id, field: Field, desired: string, base: int)
    | Patch(id: Id, field: Field, desired: string)
    | Create(id: Id, folder: Folder)
    | Delete(id: Id)
    | FileOp(work: WorkId, to: Id, base: int)
    | Move(work: WorkId, to: Id)
    | Attach(work: WorkId, to: Id)
    | NewWork(work: WorkId, to: Id)
    | DropWork(work: WorkId)
  {
    predicate Clean() {
      match this
      case FieldOp(_, field, desired, _) => CanonicalWire(field, desired) == desired
      case Patch(_, field, desired) => CanonicalWire(field, desired) == desired
      case Create(id, folder) => id != "" && CanonicalWire(Title, folder.title) == folder.title
      case _ => true
    }
  }

  ghost function Step(c: Catalogue, op: Op): (Catalogue, FolderStore.Reply) {
    match op
    case FieldOp(id, field, desired, base) => BasedField(c, id, field, desired, base)
    case Patch(id, field, desired) => PatchField(c, id, field, desired)
    case Create(id, folder) => CreateFolder(c, id, folder)
    case Delete(id) => ApplyDelete(c, id)
    case FileOp(w, to, base) => BasedFiling(c, w, to, base)
    case Move(w, to) => if w in c.works then Refile(c, w, to) else (c, Reply(EntityNotFound, false, 0))
    case Attach(w, to) => (AddToFolder(c, w, to), Reply(Acknowledged, true, 0))
    case NewWork(w, to) => (WorkCreated(c, w, to), Reply(Acknowledged, true, 0))
    case DropWork(w) => (WorkDeleted(c, w), Reply(Acknowledged, true, 0))
  }

  /** A write that passes validation is a clean step; one that does not changes nothing. */
  lemma FieldEnvelope(c: Catalogue, id: Id, field: Field, value: string, base: int)
    ensures var op := FieldOp(id, field, CanonicalWire(field, value), base);
      op.Clean() && (ApplyField(c, id, field, value, base) == Step(c, op) || ApplyField(c, id, field, value, base).0 == c)
    ensures var op := Patch(id, field, CanonicalWire(field, value));
      op.Clean() && (SetField(c, id, field, value) == Step(c, op) || SetField(c, id, field, value).0 == c)
  {
    CanonicalOnce(field, value);
  }

  lemma CreateEnvelope(c: Catalogue, id: Id, folder: Folder)
    ensures ApplyCreate(c, id, folder).0 == c
            || (Create(id, Canonical(folder)).Clean() && ApplyCreate(c, id, folder) == Step(c, Create(id, Canonical(folder))))
  {
    CanonicalOnce(Title, folder.title);
  }

  /** A run: the states `cs`, with the operations between them. A stretch of a run is
      a run. */
  ghost predicate Trace(cs: seq<Catalogue>, ops: seq<Op>) {
    && |cs| == |ops| + 1
    && (forall op :: op in ops ==> op.Clean())
    && (forall i {:trigger Step(cs[i], ops[i])} :: 0 <= i < |ops| ==> cs[i + 1] == Step(cs[i], ops[i]).0)
  }

  // ---- Invariants ----------------------------------------------------------

  lemma {:induction false} StepKeepsValid(c: Catalogue, op: Op)
    requires Valid(c) && op.Clean()
    ensures Valid(Step(c, op).0)
  {
    match op
    case FieldOp(id, field, desired, base) => if id in c.folders { WriteKeepsValid(c, id, field, desired); }
    case Patch(id, field, desired) => if id in c.folders { WriteKeepsValid(c, id, field, desired); }
    case Create(id, folder) => if id !in c.folders { InsertKeepsValid(c, id, folder); }
    case Delete(id) => DeleteKeepsValid(c, id);
    case FileOp(w, to, base) => if w in c.works { FilingKeepsValid(c, w, to); }
    case Move(w, to) => if w in c.works { FilingKeepsValid(c, w, to); }
    case Attach(w, to) => AttachKeepsValid(c, w, to);
    case NewWork(w, to) => NewWorkKeepsValid(c, w, to);
    case DropWork(w) => DropKeepsValid(c, w);
  }

  lemma {:induction false} AttachKeepsValid(c: Catalogue, w: WorkId, to: Id)
    requires Valid(c)
    ensures Valid(AddToFolder(c, w, to))
  {
  }

  lemma {:induction false} NewWorkKeepsValid(c: Catalogue, w: WorkId, to: Id)
    requires Valid(c)
    ensures Valid(WorkCreated(c, w, to))
  {
  }

  lemma {:induction false} DropKeepsValid(c: Catalogue, w: WorkId)
    requires Valid(c)
    ensures Valid(WorkDeleted(c, w))
  {
  }

  lemma {:induction false} RunKeepsValid(cs: seq<Catalogue>, ops: seq<Op>, n: nat)
    requires Trace(cs, ops) && Valid(cs[0]) && n < |cs|
    ensures Valid(cs[n])
  {
    if n > 0 {
      RunKeepsValid(cs, ops, n - 1);
      StepKeepsValid(cs[n - 1], ops[n - 1]);
    }
  }

  /** Over every run the hierarchy is an acyclic forest without dangling parents,
      sibling titles differ, and each Work is in at most one, existing, folder. */
  lemma {:induction false} RunKeepsHierarchy(cs: seq<Catalogue>, ops: seq<Op>, n: nat)
    requires Trace(cs, ops) && Valid(cs[0]) && n < |cs|
    ensures Forest(ParentsOf(cs[n].folders)) && UniqueTitles(cs[n].folders)
    ensures forall id :: id in cs[n].folders ==> !OwnAncestor(ParentsOf(cs[n].folders), id)
    ensures OneFolderEach(cs[n].filed) && FilingValid(cs[n].folders.Keys, cs[n].works, cs[n].filed)
  {
    RunKeepsValid(cs, ops, n);
    var p := ParentsOf(cs[n].folders);
    forall id | id in p ensures !OwnAncestor(p, id) { NoCycle(p, id); }
  }

  // ---- The register of a folder field --------------------------------------

  function FieldReg(c: Catalogue, id: Id, field: Field): Reg<string>
    requires id in c.folders
  {
    Reg(c.folders[id].Get(field), FieldRevision(c, id, field))
  }

  ghost function FieldEvent(c: Catalogue, op: Op, id: Id, field: Field): Event<string> {
    if op.FieldOp? && op.id == id && op.field == field
    then var reply := Step(c, op).1;
         Based(op.base, op.desired, reply.code == Acknowledged, reply.changed, reply.revision)
    else Elsewhere
  }

  lemma {:induction false} WriteFollows(c: Catalogue, id: Id, field: Field, desired: string, other: Id, f: Field)
    requires id in c.folders && other in c.folders
    ensures var (c', reply) := WriteField(c, id, field, desired);
      && other in c'.folders && Follows(FieldReg(c, other, f), FieldReg(c', other, f))
      && (other != id || f != field ==> FieldReg(c', other, f) == FieldReg(c, other, f))
      && reply.revision == FieldRevision(c', id, field)
      && (reply.changed <==> c' != c)
      && (reply.changed ==> reply.code == Acknowledged)
      && (reply.code == Acknowledged ==>
            c'.folders[id].Get(field) == desired && (reply.changed <==> c.folders[id].Get(field) != desired))
      && (reply.code != Acknowledged ==> c' == c)
  {
  }

  lemma {:induction false} FieldHonest(c: Catalogue, op: Op, id: Id, field: Field)
    requires op.FieldOp? && op.id == id && op.field == field && id in c.folders
    ensures var (c', reply) := Step(c, op);
      && id in c'.folders && Honest(FieldReg(c, id, field), FieldReg(c', id, field), FieldEvent(c, op, id, field))
  {
    WriteFollows(c, id, field, op.desired, id, field);
  }

  lemma {:induction false} FieldFollows(c: Catalogue, op: Op, id: Id, field: Field)
    requires id in c.folders && id in Step(c, op).0.folders
    ensures Follows(FieldReg(c, id, field), FieldReg(Step(c, op).0, id, field))
  {
    match op
    case FieldOp(other, f, desired, base) =>
      if other in c.folders { WriteFollows(c, other, f, desired, id, field); }
    case Patch(other, f, desired) =>
      if other in c.folders { WriteFollows(c, other, f, desired, id, field); }
    case _ =>
  }

  /** A run within one lifetime of a folder. */
  ghost predicate FolderTrace(cs: seq<Catalogue>, ops: seq<Op>, id: Id) {
    Trace(cs, ops) && forall c :: c in cs ==> id in c.folders
  }

  ghost function FieldStates(cs: seq<Catalogue>, id: Id, field: Field): seq<Reg<string>>
    requires forall c :: c in cs ==> id in c.folders
  {
    seq(|cs|, m requires 0 <= m < |cs| => FieldReg(cs[m], id, field))
  }

  ghost function FieldEvents(cs: seq<Catalogue>, ops: seq<Op>, id: Id, field: Field): seq<Event<string>>
    requires |cs| == |ops| + 1
  {
    seq(|ops|, m requires 0 <= m < |ops| => FieldEvent(cs[m], ops[m], id, field))
  }

  lemma {:induction false} FieldStep(c: Catalogue, op: Op, id: Id, field: Field)
    requires id in c.folders && id in Step(c, op).0.folders
    ensures var a, b, e := FieldReg(c, id, field), FieldReg(Step(c, op).0, id, field), FieldEvent(c, op, id, field);
            Follows(a, b) && (e.Based? ==> Honest(a, b, e))
  {
    FieldFollows(c, op, id, field);
    if op.FieldOp? && op.id == id && op.field == field { FieldHonest(c, op, id, field); }
  }

  /** Within one lifetime of a folder, each of its fields is a revisioned register. */
  lemma {:induction false} FieldHistory(cs: seq<Catalogue>, ops: seq<Op>, id: Id, field: Field)
    requires FolderTrace(cs, ops, id)
    ensures History(FieldStates(cs, id, field), FieldEvents(cs, ops, id, field))
  {
    var h, es := FieldStates(cs, id, field), FieldEvents(cs, ops, id, field);
    forall m | 0 <= m < |es| ensures Follows(h[m], h[m + 1]) && (es[m].Based? ==> Honest(h[m], h[m + 1], es[m])) {
      assert cs[m + 1] == Step(cs[m], ops[m]).0 && cs[m + 1] in cs && cs[m] in cs;
      FieldStep(cs[m], ops[m], id, field);
    }
  }

  /** An acknowledged field write that changed something replaced exactly what the
      device saw at its base revision. */
  lemma FieldNoLostUpdate(cs: seq<Catalogue>, ops: seq<Op>, i: nat, k: nat)
    requires i <= k < |ops| && ops[k].FieldOp? && FolderTrace(cs, ops, ops[k].id)
    requires Step(cs[k], ops[k]).1.code == Acknowledged && Step(cs[k], ops[k]).1.changed
    requires FieldRevision(cs[i], ops[k].id, ops[k].field) == ops[k].base
    ensures cs[k].folders[ops[k].id].Get(ops[k].field) == cs[i].folders[ops[k].id].Get(ops[k].field)
    ensures cs[k + 1].folders[ops[k].id].Get(ops[k].field) == ops[k].desired
    ensures FieldRevision(cs[k + 1], ops[k].id, ops[k].field) == ops[k].base + 1
  {
    var id, field := ops[k].id, ops[k].field;
    FieldHistory(cs, ops, id, field);
    NoLostUpdate(FieldStates(cs, id, field), FieldEvents(cs, ops, id, field), i, k);
  }

  /** Once acknowledged, a field write delivered again changes nothing. */
  lemma FieldAtMostOnce(cs: seq<Catalogue>, ops: seq<Op>, i: nat, j: nat)
    requires i < j < |ops| && ops[i].FieldOp? && ops[j] == ops[i] && FolderTrace(cs, ops, ops[i].id)
    requires Step(cs[i], ops[i]).1.code == Acknowledged
    ensures !Step(cs[j], ops[j]).1.changed && cs[j + 1] == cs[j]
  {
    var id, field := ops[i].id, ops[i].field;
    FieldHistory(cs, ops, id, field);
    AtMostOnce(FieldStates(cs, id, field), FieldEvents(cs, ops, id, field), i, j);
    UnchangedStays(cs[j], ops[j]);
  }

  lemma {:induction false} UnchangedStays(c: Catalogue, op: Op)
    requires op.FieldOp? && !Step(c, op).1.changed
    ensures Step(c, op).0 == c
  {
  }

  /** Revisions outlive the folder, so they never go back at all. */
  lemma {:induction false} FieldRevisionGrows(cs: seq<Catalogue>, ops: seq<Op>, i: nat, j: nat, id: Id, field: Field)
    requires Trace(cs, ops) && i <= j < |cs|
    ensures FieldRevision(cs[i], id, field) <= FieldRevision(cs[j], id, field)
  {
    if i < j {
      FieldRevisionGrows(cs, ops, i, j - 1, id, field);
      RevisionStep(cs[j - 1], ops[j - 1], id, field);
    }
  }

  lemma {:induction false} RevisionStep(c: Catalogue, op: Op, id: Id, field: Field)
    ensures FieldRevision(c, id, field) <= FieldRevision(Step(c, op).0, id, field)
  {
  }

  lemma {:induction false} ChangeMovesRevision(c: Catalogue, op: Op)
    requires op.FieldOp? && Step(c, op).1.changed
    ensures FieldRevision(c, op.id, op.field) == op.base
    ensures FieldRevision(Step(c, op).0, op.id, op.field) == op.base + 1
  {
  }

  /** A write that changed something never changes anything again, even after the
      folder was deleted and created anew. */
  lemma FieldChangesOnce(cs: seq<Catalogue>, ops: seq<Op>, i: nat, j: nat)
    requires Trace(cs, ops) && i < j < |ops| && ops[i].FieldOp? && ops[j] == ops[i]
    requires Step(cs[i], ops[i]).1.changed
    ensures !Step(cs[j], ops[j]).1.changed
  {
    ChangeMovesRevision(cs[i], ops[i]);
    FieldRevisionGrows(cs, ops, i + 1, j, ops[i].id, ops[i].field);
    if Step(cs[j], ops[j]).1.changed { ChangeMovesRevision(cs[j], ops[j]); }
  }

  // ---- The register of a Work's folder -------------------------------------

  ghost function WorkReg(c: Catalogue, w: WorkId): Reg<string> {
    Reg(FolderOf(c.filed, w), WorkRevision(c, w))
  }

  ghost function WorkEvent(c: Catalogue, op: Op, w: WorkId): Event<string> {
    if op.FileOp? && op.work == w
    then var reply := Step(c, op).1;
         Based(op.base, op.to, reply.code == Acknowledged, reply.changed, reply.revision)
    else Elsewhere
  }

  lemma {:induction false} OthersFiling(filed: set<(Id, WorkId)>, after: set<(Id, WorkId)>, w: WorkId)
    requires OneFolderEach(filed) && OneFolderEach(after)
    requires forall f: (Id, WorkId) :: f.1 == w ==> (f in filed <==> f in after)
    ensures FolderOf(after, w) == FolderOf(filed, w)
  {
    if f: (Id, WorkId) :| f in filed && f.1 == w {
      FolderOfIs(filed, f);
      FolderOfIs(after, f);
    }
  }

  lemma {:induction false} RefiledIs(filed: set<(Id, WorkId)>, w: WorkId, to: Id)
    requires OneFolderEach(filed)
    ensures OneFolderEach(Refiled(filed, w, to)) && FolderOf(Refiled(filed, w, to), w) == to
  {
    if to != "" {
      assert (to, w) in Refiled(filed, w, to);
      FolderOfIs(Refiled(filed, w, to), (to, w));
    }
  }

  lemma {:induction false} FilingFollows(c: Catalogue, w: WorkId, to: Id, other: WorkId)
    requires Valid(c)
    ensures var (c', reply) := Refile(c, w, to);
      && Follows(WorkReg(c, other), WorkReg(c', other)) && (other != w ==> WorkReg(c', other) == WorkReg(c, other))
      && reply.revision == WorkRevision(c', w) && (reply.changed <==> c' != c)
      && (reply.code == Acknowledged ==> FolderOf(c'.filed, w) == to && (reply.changed <==> FolderOf(c.filed, w) != to))
      && (reply.code != Acknowledged ==> c' == c)
  {
    RefiledIs(c.filed, w, to);
    if other != w { OthersFiling(c.filed, Refiled(c.filed, w, to), other); }
  }

  lemma {:induction false} WorkHonest(c: Catalogue, op: Op, w: WorkId)
    requires Valid(c) && op.FileOp? && op.work == w
    ensures Honest(WorkReg(c, w), WorkReg(Step(c, op).0, w), WorkEvent(c, op, w))
  {
    FilingFollows(c, w, op.to, w);
  }

  lemma {:induction false} WorkFollows(c: Catalogue, op: Op, w: WorkId)
    requires Valid(c) && op.Clean() && w in c.works && w in Step(c, op).0.works
    requires !Attaches(c, op, w)
    ensures Follows(WorkReg(c, w), WorkReg(Step(c, op).0, w))
  {
    StepKeepsValid(c, op);
    match op
    case FileOp(other, to, base) => FilingFollows(c, other, to, w);
    case Move(other, to) => FilingFollows(c, other, to, w);
    case _ =>
      FilingUntouched(c, op, w);
      OthersFiling(c.filed, Step(c, op).0.filed, w);
  }

  lemma {:induction false} FilingUntouched(c: Catalogue, op: Op, w: WorkId)
    requires !op.FileOp? && !op.Move? && !Attaches(c, op, w) && w in c.works && w in Step(c, op).0.works
    ensures forall f: (Id, WorkId) :: f.1 == w ==> (f in c.filed <==> f in Step(c, op).0.filed)
    ensures WorkRevision(Step(c, op).0, w) == WorkRevision(c, w)
  {
  }

  /** The operation attaches Work `w` to a folder, past its revision. */
  predicate Attaches(c: Catalogue, op: Op, w: WorkId) { op.Attach? && op.work == w && Attachable(c, w, op.to) }

  /** The ordinary attachment moves no revision: it keeps the register in order if and
      only if its own guard refuses it. */
  lemma {:induction false} AttachMovesNoRevision(c: Catalogue, w: WorkId, to: Id)
    requires Valid(c)
    ensures Follows(WorkReg(c, w), WorkReg(AddToFolder(c, w, to), w)) <==> !Attachable(c, w, to)
  {
    AttachKeepsValid(c, w, to);
    var c' := AddToFolder(c, w, to);
    if Attachable(c, w, to) {
      assert (to, w) in c'.filed;
      FolderOfIs(c'.filed, (to, w));
      assert "" !in ParentsOf(c.folders);
      assert FolderOf(c.filed, w) == "" && FolderOf(c'.filed, w) == to;
    }
  }

  /** Two folders at the top, and a Work in neither. */
  function Unfiled(): Catalogue {
    Catalogue(map["A" := Folder("A", "", "", ""), "B" := Folder("B", "", "", "")], {}, {"w"}, map[], map[])
  }

  lemma UnfiledIsForest()
    ensures Forest(ParentsOf(Unfiled().folders))
  {
    var p := ParentsOf(Unfiled().folders);
    assert Up(p, "A", 1) == "" && Up(p, "B", 1) == "";
  }

  lemma UnfiledTitles()
    ensures UniqueTitles(Unfiled().folders) && CanonicalTitles(Unfiled().folders)
  {
    BareStays("A");
    BareStays("B");
    assert TitleKey("A")[0] == 'a' && TitleKey("B")[0] == 'b';
    assert forall id :: id in Unfiled().folders ==> id == "A" || id == "B";
  }

  /** The lost update: a device that saw the Work in no folder at revision 0 files it in
      "B"; that is acknowledged as a change based on revision 0, though what it replaces
      is the folder "A" the Work was attached to meanwhile. */
  lemma AttachLosesUpdate()
    ensures var c0 := Unfiled();
      var c1 := AddToFolder(c0, "w", "A");
      var (c2, reply) := BasedFiling(c1, "w", "B", 0);
      && Valid(c0)
      && WorkReg(c0, "w") == Reg("", 0) && WorkReg(c1, "w") == Reg("A", 0) && WorkReg(c2, "w") == Reg("B", 1)
      && reply == FolderStore.Reply(Acknowledged, true, 1)
  {
    UnfiledIsForest();
    UnfiledTitles();
    AttachKeepsValid(Unfiled(), "w", "A");
    assert AddToFolder(Unfiled(), "w", "A") == Unfiled().(filed := {("A", "w")});
    FiledOver(Unfiled().(filed := {("A", "w")}));
  }

  lemma {:induction false} FiledOver(c: Catalogue)
    requires c == Unfiled().(filed := {("A", "w")}) && Valid(c)
    ensures WorkReg(c, "w") == Reg("A", 0)
    ensures var (c2, reply) := BasedFiling(c, "w", "B", 0);
      WorkReg(c2, "w") == Reg("B", 1) && reply == FolderStore.Reply(Acknowledged, true, 1)
  {
    FolderOfIs(c.filed, ("A", "w"));
    RefiledIs(c.filed, "w", "B");
  }

  /** A run within one lifetime of a Work. */
  ghost predicate WorkLives(cs: seq<Catalogue>, ops: seq<Op>, w: WorkId) {
    && Trace(cs, ops) && Valid(cs[0])
    && (forall c :: c in cs ==> w in c.works)
  }

  /** Nowhere in the run does the guard of the unrevised path let it attach the Work. */
  ghost predicate NeverAttaches(cs: seq<Catalogue>, ops: seq<Op>, w: WorkId)
    requires |cs| == |ops| + 1
  {
    forall m :: 0 <= m < |ops| ==> !Attaches(cs[m], ops[m], w)
  }

  ghost predicate WorkTrace(cs: seq<Catalogue>, ops: seq<Op>, w: WorkId) {
    WorkLives(cs, ops, w) && NeverAttaches(cs, ops, w)
  }

  ghost function WorkStates(cs: seq<Catalogue>, w: WorkId): seq<Reg<string>> {
    seq(|cs|, m requires 0 <= m < |cs| => WorkReg(cs[m], w))
  }

  ghost function WorkEvents(cs: seq<Catalogue>, ops: seq<Op>, w: WorkId): seq<Event<string>>
    requires |cs| == |ops| + 1
  {
    seq(|ops|, m requires 0 <= m < |ops| => WorkEvent(cs[m], ops[m], w))
  }

  lemma {:induction false} WorkStep(c: Catalogue, op: Op, w: WorkId)
    requires Valid(c) && op.Clean() && w in c.works && w in Step(c, op).0.works && !Attaches(c, op, w)
    ensures var a, b, e := WorkReg(c, w), WorkReg(Step(c, op).0, w), WorkEvent(c, op, w);
            Follows(a, b) && (e.Based? ==> Honest(a, b, e))
  {
    WorkFollows(c, op, w);
    if op.FileOp? && op.work == w { WorkHonest(c, op, w); }
  }

  /** Within one lifetime of a Work, the folder it is in is a revisioned register if and
      only if the unrevised path never attaches it. */
  lemma {:induction false} WorkHistory(cs: seq<Catalogue>, ops: seq<Op>, w: WorkId)
    requires WorkLives(cs, ops, w)
    ensures History(WorkStates(cs, w), WorkEvents(cs, ops, w)) <==> NeverAttaches(cs, ops, w)
  {
    if NeverAttaches(cs, ops, w) {
      OrderlyHistory(cs, ops, w);
    } else {
      var m :| 0 <= m < |ops| && Attaches(cs[m], ops[m], w);
      AttachedOutOfOrder(cs, ops, w, m);
    }
  }

  lemma {:induction false} AttachedOutOfOrder(cs: seq<Catalogue>, ops: seq<Op>, w: WorkId, m: nat)
    requires WorkLives(cs, ops, w) && m < |ops| && Attaches(cs[m], ops[m], w)
    ensures !Follows(WorkStates(cs, w)[m], WorkStates(cs, w)[m + 1])
  {
    RunKeepsValid(cs, ops, m);
    assert cs[m + 1] == Step(cs[m], ops[m]).0;
    AttachMovesNoRevision(cs[m], w, ops[m].to);
  }

  lemma {:induction false} OrderlyHistory(cs: seq<Catalogue>, ops: seq<Op>, w: WorkId)
    requires WorkTrace(cs, ops, w)
    ensures History(WorkStates(cs, w), WorkEvents(cs, ops, w))
  {
    var h, es := WorkStates(cs, w), WorkEvents(cs, ops, w);
    forall m | 0 <= m < |es| ensures Follows(h[m], h[m + 1]) && (es[m].Based? ==> Honest(h[m], h[m + 1], es[m])) {
      WorkStepAt(cs, ops, w, m);
    }
  }

  lemma {:induction false} WorkStepAt(cs: seq<Catalogue>, ops: seq<Op>, w: WorkId, m: nat)
    requires WorkTrace(cs, ops, w) && m < |ops|
    ensures var a, b, e := WorkReg(cs[m], w), WorkReg(cs[m + 1], w), WorkEvent(cs[m], ops[m], w);
            Follows(a, b) && (e.Based? ==> Honest(a, b, e))
  {
    RunKeepsValid(cs, ops, m);
    assert cs[m + 1] == Step(cs[m], ops[m]).0 && cs[m + 1] in cs && cs[m] in cs && ops[m] in ops;
    WorkStep(cs[m], ops[m], w);
  }

  lemma FilingNoLostUpdate(cs: seq<Catalogue>, ops: seq<Op>, i: nat, k: nat)
    requires i <= k < |ops| && ops[k].FileOp? && WorkTrace(cs, ops, ops[k].work)
    requires Step(cs[k], ops[k]).1.code == Acknowledged && Step(cs[k], ops[k]).1.changed
    requires WorkRevision(cs[i], ops[k].work) == ops[k].base
    ensures FolderOf(cs[k].filed, ops[k].work) == FolderOf(cs[i].filed, ops[k].work)
    ensures FolderOf(cs[k + 1].filed, ops[k].work) == ops[k].to
    ensures WorkRevision(cs[k + 1], ops[k].work) == ops[k].base + 1
  {
    var w := ops[k].work;
    WorkHistory(cs, ops, w);
    NoLostUpdate(WorkStates(cs, w), WorkEvents(cs, ops, w), i, k);
  }

  lemma FilingAtMostOnce(cs: seq<Catalogue>, ops: seq<Op>, i: nat, j: nat)
    requires i < j < |ops| && ops[i].FileOp? && ops[j] == ops[i] && WorkTrace(cs, ops, ops[i].work)
    requires Step(cs[i], ops[i]).1.code == Acknowledged
    ensures !Step(cs[j], ops[j]).1.changed
    ensures FolderOf(cs[j + 1].filed, ops[j].work) == FolderOf(cs[j].filed, ops[j].work)
  {
    var w := ops[i].work;
    WorkHistory(cs, ops, w);
    AtMostOnce(WorkStates(cs, w), WorkEvents(cs, ops, w), i, j);
  }

  lemma {:induction false} WorkRevisionGrows(cs: seq<Catalogue>, ops: seq<Op>, i: nat, j: nat, w: WorkId)
    requires Trace(cs, ops) && i <= j < |cs|
    ensures WorkRevision(cs[i], w) <= WorkRevision(cs[j], w)
  {
    if i < j {
      WorkRevisionGrows(cs, ops, i, j - 1, w);
      WorkRevisionStep(cs[j - 1], ops[j - 1], w);
    }
  }

  lemma {:induction false} WorkRevisionStep(c: Catalogue, op: Op, w: WorkId)
    ensures WorkRevision(c, w) <= WorkRevision(Step(c, op).0, w)
  {
  }

  lemma {:induction false} FilingMovesRevision(c: Catalogue, op: Op)
    requires op.FileOp? && Step(c, op).1.changed
    ensures WorkRevision(c, op.work) == op.base && WorkRevision(Step(c, op).0, op.work) == op.base + 1
  {
  }

  /** A filing that changed something never does again, over every run: attachments,
      and deletion and re-creation of the Work, included. */
  lemma FilingChangesOnce(cs: seq<Catalogue>, ops: seq<Op>, i: nat, j: nat)
    requires Trace(cs, ops) && i < j < |ops| && ops[i].FileOp? && ops[j] == ops[i]
    requires Step(cs[i], ops[i]).1.changed
    ensures !Step(cs[j], ops[j]).1.changed
  {
    FilingMovesRevision(cs[i], ops[i]);
    WorkRevisionGrows(cs, ops, i + 1, j, ops[i].work);
    if Step(cs[j], ops[j]).1.changed { FilingMovesRevision(cs[j], ops[j]); }
  }
}
