/** Runs of tag creations, merges and edits: merging is a flattened union-find, and
    each relation of an owner to a tag is a revisioned register. */
module TagRuns {
  import opened Common
  import opened Registers
  import opened TagStore

  datatype Op =
    | CreateOp(id: TagId, taken: bool)
    | MergeOp(source: TagId, target: TagId)
    | EditOp(kind: Kind, known: bool, pair: (OwnerId, TagId), present: bool, base: int)

  function Step(t: Tags, op: Op): Tags {
    match op
    case CreateOp(id, taken) => Create(t, id, taken).0
    case MergeOp(source, target) => if MergeRefusal(t, source, target).None? then MergedTags(t, source, target) else t
    case EditOp(kind, known, pair, present, base) => Edit(t, kind, known, pair, present, base).0
  }

  /** Where each merged tag was merged, never rewritten. */
  type Pointers = map<TagId, TagId>

  function Pointed(t: Tags, into: Pointers, op: Op): Pointers {
    if op.MergeOp? && MergeRefusal(t, op.source, op.target).None? then into[op.source := op.target] else into
  }

  /** Where `n` pointers lead, stopping at the end of the chain. */
  function Chase(into: Pointers, id: TagId, n: nat): TagId
    decreases n
  {
    if n == 0 || id !in into then id else Chase(into, into[id], n - 1)
  }

  ghost predicate Leads(into: Pointers, id: TagId, to: TagId) { exists n: nat :: Chase(into, id, n) == to }

  /** The chain of merges from `id` ends at `end`. */
  ghost predicate EndsAt(into: Pointers, id: TagId, end: TagId) { end !in into && Leads(into, id, end) }

  /** A run, with the merge pointers it leaves. */
  ghost predicate Trace(ts: seq<Tags>, intos: seq<Pointers>, ops: seq<Op>) {
    && |ts| == |ops| + 1 && |intos| == |ts|
    && (forall i {:trigger Step(ts[i], ops[i])} :: 0 <= i < |ops| ==> ts[i + 1] == Step(ts[i], ops[i]))
    && (forall i {:trigger Pointed(ts[i], intos[i], ops[i])} :: 0 <= i < |ops| ==> intos[i + 1] == Pointed(ts[i], intos[i], ops[i]))
  }

  // ---- The invariant -------------------------------------------------------

  /** The lifecycle table is the pointers, flattened: merged tags name the end of their
      chain, which is live. */
  ghost predicate Flat(t: Tags, into: Pointers) { Valid(t) && FlatTable(t.lifecycle, into) }

  ghost predicate FlatTable(lifecycle: map<TagId, State>, into: Pointers) {
    && (forall id :: id in into <==> id in lifecycle && lifecycle[id].Merged?)
    && (forall id :: id in into ==> EndsAt(into, id, lifecycle[id].target))
  }

  lemma {:induction false} ChaseAfterMerge(into: Pointers, source: TagId, target: TagId, id: TagId, n: nat)
    requires source !in into && target !in into && source != target
    ensures Chase(into, id, n) != source ==> Chase(into[source := target], id, n) == Chase(into, id, n)
    ensures Chase(into, id, n) == source ==> Leads(into[source := target], id, target)
    decreases n
  {
    var after := into[source := target];
    if n == 0 || id !in into {
      assert Chase(after, source, 1) == target;
    } else {
      ChaseAfterMerge(into, source, target, into[id], n - 1);
      if Chase(into, id, n) == source {
        var m: nat :| Chase(after, into[id], m) == target;
        assert Chase(after, id, m + 1) == target;
      }
    }
  }

  lemma EndAfterMerge(into: Pointers, source: TagId, target: TagId, id: TagId, end: TagId)
    requires source !in into && target !in into && source != target && EndsAt(into, id, end)
    ensures EndsAt(into[source := target], id, Renamed(end, source, target))
  {
    var n: nat :| Chase(into, id, n) == end;
    ChaseAfterMerge(into, source, target, id, n);
  }

  lemma {:induction false} MergeKeepsFlat(lifecycle: map<TagId, State>, into: Pointers, source: TagId, target: TagId)
    requires FlatTable(lifecycle, into) && source != target
    requires source in lifecycle && lifecycle[source] == Active && target in lifecycle && lifecycle[target] == Active
    ensures FlatTable(Redirected(lifecycle, source, target), into[source := target])
  {
    var flat, after := Redirected(lifecycle, source, target), into[source := target];
    forall id | id in after ensures EndsAt(after, id, flat[id].target) {
      if id == source {
        assert Chase(after, source, 1) == target;
      } else {
        EndAfterMerge(into, source, target, id, lifecycle[id].target);
      }
    }
  }

  lemma {:induction false} MergeKeepsValid(t: Tags, source: TagId, target: TagId)
    requires Valid(t) && MergeRefusal(t, source, target).None?
    ensures Valid(MergedTags(t, source, target))
  {
    ImageOfMoved(t.works, source, target);
    ImageOfMoved(t.folders, source, target);
  }

  lemma {:induction false} StepKeepsFlat(t: Tags, into: Pointers, op: Op)
    requires Flat(t, into)
    ensures Flat(Step(t, op), Pointed(t, into, op))
  {
    match op
    case MergeOp(source, target) =>
      if MergeRefusal(t, source, target).None? {
        MergeKeepsValid(t, source, target);
        MergeKeepsFlat(t.lifecycle, into, source, target);
      }
    case _ =>
  }

  lemma {:induction false} RunKeepsFlat(ts: seq<Tags>, intos: seq<Pointers>, ops: seq<Op>, n: nat)
    requires Trace(ts, intos, ops) && Flat(ts[0], intos[0]) && n < |ts|
    ensures Flat(ts[n], intos[n])
  {
    if n > 0 {
      RunKeepsFlat(ts, intos, ops, n - 1);
      StepKeepsFlat(ts[n - 1], intos[n - 1], ops[n - 1]);
      assert intos[n] == Pointed(ts[n - 1], intos[n - 1], ops[n - 1]);
      assert ts[n] == Step(ts[n - 1], ops[n - 1]);
    }
  }

  /** Over every run, a merged tag's one recorded target is the end of the whole chain
      of merges it went through, and is a live tag; every other known tag was merged
      nowhere. */
  lemma OneHopIsTheEnd(ts: seq<Tags>, intos: seq<Pointers>, ops: seq<Op>, n: nat, id: TagId)
    requires Trace(ts, intos, ops) && Flat(ts[0], intos[0]) && n < |ts| && id in ts[n].lifecycle
    ensures StandingOf(ts[n].lifecycle, id).Elsewhere? <==> id in intos[n]
    ensures StandingOf(ts[n].lifecycle, id).Elsewhere? ==>
              EndsAt(intos[n], id, StandingOf(ts[n].lifecycle, id).target) && StandingOf(ts[n].lifecycle, id).target in ts[n].live
  {
    RunKeepsFlat(ts, intos, ops, n);
  }

  /** The end of a chain is one tag. */
  lemma EndIsOne(into: Pointers, id: TagId, a: TagId, b: TagId)
    requires EndsAt(into, id, a) && EndsAt(into, id, b)
    ensures a == b
  {
    var m: nat :| Chase(into, id, m) == a;
    var n: nat :| Chase(into, id, n) == b;
    if m <= n { ChaseOn(into, id, m, n); } else { ChaseOn(into, id, n, m); }
  }

  lemma {:induction false} ChaseOn(into: Pointers, id: TagId, m: nat, n: nat)
    requires m <= n && Chase(into, id, m) !in into
    ensures Chase(into, id, n) == Chase(into, id, m)
    decreases n
  {
    if m > 0 && id in into { ChaseOn(into, into[id], m - 1, n - 1); }
  }

  // ---- Relations -----------------------------------------------------------

  /** The tag that stands for `id`. */
  function Resolved(lifecycle: map<TagId, State>, id: TagId): TagId {
    match StandingOf(lifecycle, id)
    case Elsewhere(target) => target
    case _ => id
  }

  function Through(rows: set<(OwnerId, TagId)>, lifecycle: map<TagId, State>): set<(OwnerId, TagId)> {
    set p | p in rows :: (p.0, Resolved(lifecycle, p.1))
  }

  lemma {:induction false} ThroughMerge(rows: set<(OwnerId, TagId)>, lifecycle: map<TagId, State>, source: TagId, target: TagId)
    requires source in lifecycle && lifecycle[source] == Active && source != target
    requires forall p: (OwnerId, TagId) :: p in rows ==> p.1 in lifecycle
    ensures Through(rows, Redirected(lifecycle, source, target)) == Image(Through(rows, lifecycle), source, target)
  {
    var after := Redirected(lifecycle, source, target);
    forall p: (OwnerId, TagId) | p in rows
      ensures Resolved(after, p.1) == Renamed(Resolved(lifecycle, p.1), source, target)
    {}
    ImageOfThrough(rows, lifecycle, after, source, target);
  }

  lemma {:induction false} ImageOfThrough(rows: set<(OwnerId, TagId)>, l: map<TagId, State>, l': map<TagId, State>, source: TagId, target: TagId)
    requires forall p: (OwnerId, TagId) :: p in rows ==> Resolved(l', p.1) == Renamed(Resolved(l, p.1), source, target)
    ensures Through(rows, l') == Image(Through(rows, l), source, target)
  {
    var a, b := Through(rows, l'), Image(Through(rows, l), source, target);
    forall q | q in a ensures q in b {
      var p :| p in rows && q == (p.0, Resolved(l', p.1));
      assert (p.0, Resolved(l, p.1)) in Through(rows, l);
    }
    forall q | q in b ensures q in a {
      var x :| x in Through(rows, l) && q == (x.0, Renamed(x.1, source, target));
      var p :| p in rows && x == (p.0, Resolved(l, p.1));
      assert q == (p.0, Resolved(l', p.1));
    }
  }

  /** What the relations should be, given what they were when `t0` was. */
  ghost predicate Carried(t0: Tags, t: Tags) {
    && (forall id :: id in t0.lifecycle ==> id in t.lifecycle)
    && t.works.rows == Through(t0.works.rows, t.lifecycle)
    && t.folders.rows == Through(t0.folders.rows, t.lifecycle)
    && t.staged == Through(t0.staged, t.lifecycle)
  }

  lemma {:induction false} CarriedOn(t0: Tags, t: Tags, op: Op)
    requires Valid(t0) && Valid(t) && Carried(t0, t) && !op.EditOp?
    ensures Carried(t0, Step(t, op))
  {
    match op
    case CreateOp(id, taken) =>
      SameThrough(t0, t, Step(t, op), t0.works.rows);
      SameThrough(t0, t, Step(t, op), t0.folders.rows);
      SameThrough(t0, t, Step(t, op), t0.staged);
    case MergeOp(source, target) =>
      if MergeRefusal(t, source, target).None? { CarriedThroughMerge(t0, t, source, target); }
  }

  lemma {:induction false} CarriedThroughMerge(t0: Tags, t: Tags, source: TagId, target: TagId)
    requires Valid(t0) && Valid(t) && Carried(t0, t) && MergeRefusal(t, source, target).None?
    ensures Carried(t0, MergedTags(t, source, target))
  {
    ThroughMerge(t0.works.rows, t.lifecycle, source, target);
    ThroughMerge(t0.folders.rows, t.lifecycle, source, target);
    ThroughMerge(t0.staged, t.lifecycle, source, target);
    ImageOfMoved(t.works, source, target);
    ImageOfMoved(t.folders, source, target);
  }

  lemma {:induction false} SameThrough(t0: Tags, t: Tags, t': Tags, rows: set<(OwnerId, TagId)>)
    requires forall p: (OwnerId, TagId) :: p in rows ==> p.1 in t0.lifecycle
    requires forall id :: id in t0.lifecycle ==> Resolved(t'.lifecycle, id) == Resolved(t.lifecycle, id)
    ensures Through(rows, t'.lifecycle) == Through(rows, t.lifecycle)
  {
    forall p: (OwnerId, TagId) | p in rows ensures (p.0, Resolved(t'.lifecycle, p.1)) == (p.0, Resolved(t.lifecycle, p.1)) {}
  }

  lemma ThroughItself(t: Tags, rows: set<(OwnerId, TagId)>)
    requires Valid(t) && forall p: (OwnerId, TagId) :: p in rows ==> p.1 in t.live
    ensures Through(rows, t.lifecycle) == rows
  {
    forall p: (OwnerId, TagId) | p in rows ensures (p.0, Resolved(t.lifecycle, p.1)) == p {}
  }

  /** Between two moments with no edits, the Work, Folder and staged-file relations
      become exactly their image under the lifecycle table: no link is lost, none is
      made up, and no source is left behind. */
  lemma {:induction false} RelationsAreTheImage(ts: seq<Tags>, intos: seq<Pointers>, ops: seq<Op>, i: nat, j: nat)
    requires Trace(ts, intos, ops) && Flat(ts[0], intos[0]) && i <= j < |ts|
    requires forall m :: i <= m < j ==> !ops[m].EditOp?
    ensures Carried(ts[i], ts[j])
  {
    RunKeepsFlat(ts, intos, ops, i);
    if i == j {
      ThroughItself(ts[i], ts[i].works.rows);
      ThroughItself(ts[i], ts[i].folders.rows);
      ThroughItself(ts[i], ts[i].staged);
    } else {
      RelationsAreTheImage(ts, intos, ops, i, j - 1);
      RunKeepsFlat(ts, intos, ops, j - 1);
      CarriedOn(ts[i], ts[j - 1], ops[j - 1]);
      assert ts[j] == Step(ts[j - 1], ops[j - 1]);
    }
  }

  // ---- Relations as registers ----------------------------------------------

  function PairReg(t: Tags, kind: Kind, pair: (OwnerId, TagId)): Reg<bool> {
    Reg(pair in t.Of(kind).rows, Revision(t.Of(kind), pair))
  }

  function PairEvent(t: Tags, op: Op, kind: Kind, pair: (OwnerId, TagId)): Event<bool> {
    if op.EditOp? && op.kind == kind && op.pair == pair
    then var reply := Edit(t, kind, op.known, pair, op.present, op.base).1;
         Based(op.base, op.present, reply.code == Acknowledged, reply.changed, reply.revision)
    else Event.Elsewhere
  }

  lemma {:induction false} MergePairFollows(r: Relation, source: TagId, target: TagId, pair: (OwnerId, TagId))
    requires source != target
    ensures var r' := MovedFor(r, source, target, Owners(r.rows, source));
            Follows(Reg(pair in r.rows, Revision(r, pair)), Reg(pair in r'.rows, Revision(r', pair)))
  {
    assert pair == (pair.0, pair.1);
    assert pair.1 == source ==> (pair in r.rows <==> pair.0 in Owners(r.rows, source));
  }

  lemma {:induction false} PairStep(t: Tags, op: Op, kind: Kind, pair: (OwnerId, TagId))
    ensures var a, b, e := PairReg(t, kind, pair), PairReg(Step(t, op), kind, pair), PairEvent(t, op, kind, pair);
            Follows(a, b) && (e.Based? ==> Honest(a, b, e))
  {
    if op.MergeOp? && op.source != op.target {
      MergePairFollows(t.Of(kind), op.source, op.target, pair);
    }
  }

  function PairStates(ts: seq<Tags>, kind: Kind, pair: (OwnerId, TagId)): seq<Reg<bool>> {
    seq(|ts|, m requires 0 <= m < |ts| => PairReg(ts[m], kind, pair))
  }

  function PairEvents(ts: seq<Tags>, ops: seq<Op>, kind: Kind, pair: (OwnerId, TagId)): seq<Event<bool>>
    requires |ts| == |ops| + 1
  {
    seq(|ops|, m requires 0 <= m < |ops| => PairEvent(ts[m], ops[m], kind, pair))
  }

  /** The relation of an owner to a tag is a revisioned register, merges included. */
  lemma {:induction false} PairHistory(ts: seq<Tags>, intos: seq<Pointers>, ops: seq<Op>, kind: Kind, pair: (OwnerId, TagId))
    requires Trace(ts, intos, ops)
    ensures History(PairStates(ts, kind, pair), PairEvents(ts, ops, kind, pair))
  {
    var h, es := PairStates(ts, kind, pair), PairEvents(ts, ops, kind, pair);
    forall m | 0 <= m < |es| ensures Follows(h[m], h[m + 1]) && (es[m].Based? ==> Honest(h[m], h[m + 1], es[m])) {
      assert ts[m + 1] == Step(ts[m], ops[m]);
      PairStep(ts[m], ops[m], kind, pair);
    }
  }

  /** An acknowledged edit delivered again changes nothing, whatever merges and edits
      came in between. */
  lemma PairAtMostOnce(ts: seq<Tags>, intos: seq<Pointers>, ops: seq<Op>, i: nat, j: nat)
    requires Trace(ts, intos, ops) && i < j < |ops| && ops[i].EditOp? && ops[j] == ops[i]
    requires PairEvent(ts[i], ops[i], ops[i].kind, ops[i].pair).acknowledged
    ensures PairReg(ts[j + 1], ops[j].kind, ops[j].pair) == PairReg(ts[j], ops[j].kind, ops[j].pair)
    ensures !PairEvent(ts[j], ops[j], ops[j].kind, ops[j].pair).changed
  {
    var kind, pair := ops[i].kind, ops[i].pair;
    PairHistory(ts, intos, ops, kind, pair);
    AtMostOnce(PairStates(ts, kind, pair), PairEvents(ts, ops, kind, pair), i, j);
  }

  /** An acknowledged edit that changed something replaced what the device saw. */
  lemma PairNoLostUpdate(ts: seq<Tags>, intos: seq<Pointers>, ops: seq<Op>, i: nat, k: nat)
    requires Trace(ts, intos, ops) && i <= k < |ops| && ops[k].EditOp?
    requires var e := PairEvent(ts[k], ops[k], ops[k].kind, ops[k].pair); e.acknowledged && e.changed
    requires Revision(ts[i].Of(ops[k].kind), ops[k].pair) == ops[k].base
    ensures PairReg(ts[k], ops[k].kind, ops[k].pair) == PairReg(ts[i], ops[k].kind, ops[k].pair)
    ensures PairReg(ts[k + 1], ops[k].kind, ops[k].pair) == Reg(ops[k].present, ops[k].base + 1)
  {
    var kind, pair := ops[k].kind, ops[k].pair;
    PairHistory(ts, intos, ops, kind, pair);
    NoLostUpdate(PairStates(ts, kind, pair), PairEvents(ts, ops, kind, pair), i, k);
  }
}
