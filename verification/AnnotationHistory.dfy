/** Each annotation of a Work is a revisioned register under all four write paths. */
module AnnotationHistory {
  import opened Common
  import opened Registers
  import opened AnnotationStore
  import opened AnnotationReplace
  import opened AnnotationRuns

  /** What semantic equality compares. */
  type Value = (AnnId, string)

  function ValueOf(item: Item): Value { (item.id, item.meaning) }

  function RowReg(b: Body, w: WorkId, id: AnnId): Reg<Value>
    requires id in b.rows
  {
    Reg(ValueOf(b.rows[id].item), Revision(b, w, id))
  }

  /** A body that follows another in what it says of one annotation that stays. */
  ghost predicate RowFollows(b: Body, b': Body, w: WorkId, id: AnnId) {
    Present(b, w, id) && Present(b', w, id) ==> Follows(RowReg(b, w, id), RowReg(b', w, id))
  }

  // ---- One operation -------------------------------------------------------

  lemma {:induction false} OneFollows(b: Body, w: WorkId, item: Item, v: WorkId, id: AnnId)
    requires item.id in b.rows ==> b.rows[item.id].work == w
    ensures var r := ReplaceOne(b, w, item);
      r.Some? && Present(b, v, id) ==> Present(r.value, v, id) && RowFollows(b, r.value, v, id)
  {
  }

  /** A full-list replace touches an annotation once, if its list names it once. */
  lemma {:induction false} ReplaceFollows(b: Body, w: WorkId, items: seq<Item>, id: AnnId)
    requires AllMine(b, w, items) && Distinct(items)
    ensures var r := ReplaceAll(b, w, items);
      r.Some? && Present(b, w, id) ==> Present(r.value, w, id) && RowFollows(b, r.value, w, id)
  {
    if items != [] && ReplaceAll(b, w, items).Some? {
      var n := |items| - 1;
      ReplaceAllFrame(b, w, items[..n]);
      NotAmongEarlier(items);
      ReplaceFollows(b, w, items[..n], id);
      OneFollows(ReplaceAll(b, w, items[..n]).value, w, items[n], w, id);
    }
  }

  lemma {:induction false} AdoptFollows(b: Body, w: WorkId, vs: seq<ViewerItem>, id: AnnId)
    ensures var r := AdoptAll(b, w, vs);
      r.Success? && Present(b, w, id) ==> Present(r.value, w, id) && RowReg(r.value, w, id) == RowReg(b, w, id)
  {
    if vs != [] && AdoptAll(b, w, vs).Success? {
      var n := |vs| - 1;
      AdoptFollows(b, w, vs[..n], id);
      IdsAgree(vs[n].idFields);
    }
  }

  lemma {:induction false} SingleFollows(s: Store, w: WorkId, single: Single, id: AnnId)
    ensures RowFollows(s.body, single.On(s, w).0.body, w, id)
  {
  }

  lemma {:induction false} FullListFollows(s: Store, w: WorkId, raw: seq<Raw>, base: Option<int>, id: AnnId)
    ensures RowFollows(s.body, ApplyReplace(s, w, raw, base).0.body, w, id)
  {
    if w in s.works && ListValid(raw) && AllMine(s.body, w, Items(raw)) {
      DistinctItems(raw);
      ReplacedFollows(s, w, Items(raw), id);
    }
  }

  lemma {:induction false} ReplacedFollows(s: Store, w: WorkId, items: seq<Item>, id: AnnId)
    requires w in s.works && AllMine(s.body, w, items) && Distinct(items)
    ensures RowFollows(s.body, Replaced(s, w, Ids(items), ReplaceAll(s.body, w, items)).0.body, w, id)
  {
    ReplaceFollows(s.body, w, items, id);
  }

  /** An annotation that stays changes its meaning exactly when its revision moves,
      and then by one, whichever path writes it. */
  lemma {:induction false} StepFollows(s: Store, op: Op, w: WorkId, id: AnnId)
    ensures RowFollows(s.body, op.Step(s).0.body, w, id)
  {
    if op.work != w {
      StepMoves(s, op);
    } else {
      match op
      case One(_, single) => SingleFollows(s, w, single, id);
      case FullList(_, raw, baseSet) => FullListFollows(s, w, raw, baseSet, id);
      case Adopt(_, viewer) => AdoptFollows(s.body, w, viewer, id);
      case Claim(_, _) =>
      case Mark(_, _) =>
    }
  }

  // ---- Runs ----------------------------------------------------------------

  /** A run within the lifetime of one annotation. */
  ghost predicate LiveTrace(ss: seq<Store>, ops: seq<Op>, w: WorkId, id: AnnId) {
    && |ss| == |ops| + 1
    && (forall i {:trigger ops[i].Step(ss[i])} :: 0 <= i < |ops| ==> ss[i + 1] == ops[i].Step(ss[i]).0)
    && AlwaysPresent(ss, w, id)
  }

  ghost predicate AlwaysPresent(ss: seq<Store>, w: WorkId, id: AnnId) {
    forall m {:trigger ss[m]} :: 0 <= m < |ss| ==> Present(ss[m].body, w, id)
  }

  predicate Sets(op: Op, w: WorkId, id: AnnId) { op.One? && op.work == w && op.single.Set? && op.single.item.id == id }

  function RowEvent(s: Store, op: Op, w: WorkId, id: AnnId): Event<Value> {
    if Sets(op, w, id)
    then var reply := op.single.On(s, w).1;
         Based(op.single.base, ValueOf(op.single.item), reply.code == Acknowledged, reply.changed, reply.revision)
    else Elsewhere
  }

  lemma {:induction false} SetHonest(s: Store, op: Op, w: WorkId, id: AnnId)
    requires Sets(op, w, id) && Present(s.body, w, id)
    ensures var s' := op.Step(s).0;
      Present(s'.body, w, id) && Honest(RowReg(s.body, w, id), RowReg(s'.body, w, id), RowEvent(s, op, w, id))
  {
  }

  ghost function RowStates(ss: seq<Store>, w: WorkId, id: AnnId): seq<Reg<Value>>
    requires AlwaysPresent(ss, w, id)
  {
    seq(|ss|, m requires 0 <= m < |ss| => RowReg(ss[m].body, w, id))
  }

  ghost function RowEvents(ss: seq<Store>, ops: seq<Op>, w: WorkId, id: AnnId): seq<Event<Value>>
    requires |ss| == |ops| + 1
  {
    seq(|ops|, m requires 0 <= m < |ops| => RowEvent(ss[m], ops[m], w, id))
  }

  lemma {:induction false} RowStep(ss: seq<Store>, ops: seq<Op>, w: WorkId, id: AnnId, m: nat)
    requires LiveTrace(ss, ops, w, id) && m < |ops|
    ensures Present(ss[m].body, w, id) && Present(ss[m + 1].body, w, id)
    ensures var a, b, e := RowReg(ss[m].body, w, id), RowReg(ss[m + 1].body, w, id), RowEvent(ss[m], ops[m], w, id);
            Follows(a, b) && (e.Based? ==> Honest(a, b, e))
  {
    assert ss[m + 1] == ops[m].Step(ss[m]).0;
    StepFollows(ss[m], ops[m], w, id);
    if Sets(ops[m], w, id) { SetHonest(ss[m], ops[m], w, id); }
  }

  /** Within its lifetime an annotation is a revisioned register. */
  lemma {:induction false} RowHistory(ss: seq<Store>, ops: seq<Op>, w: WorkId, id: AnnId)
    requires LiveTrace(ss, ops, w, id)
    ensures History(RowStates(ss, w, id), RowEvents(ss, ops, w, id))
  {
    var h, es := RowStates(ss, w, id), RowEvents(ss, ops, w, id);
    forall m | 0 <= m < |es| ensures Follows(h[m], h[m + 1]) && (es[m].Based? ==> Honest(h[m], h[m + 1], es[m])) {
      RowStep(ss, ops, w, id, m);
    }
  }

  /** An acknowledged SET that changed something replaced what its device saw. */
  lemma SetNoLostUpdate(ss: seq<Store>, ops: seq<Op>, w: WorkId, id: AnnId, i: nat, k: nat)
    requires LiveTrace(ss, ops, w, id) && i <= k < |ops| && Sets(ops[k], w, id)
    requires RowEvent(ss[k], ops[k], w, id).acknowledged && RowEvent(ss[k], ops[k], w, id).changed
    requires Revision(ss[i].body, w, id) == ops[k].single.base
    ensures RowReg(ss[k].body, w, id) == RowReg(ss[i].body, w, id)
    ensures RowReg(ss[k + 1].body, w, id) == Reg(ValueOf(ops[k].single.item), ops[k].single.base + 1)
  {
    RowHistory(ss, ops, w, id);
    NoLostUpdate(RowStates(ss, w, id), RowEvents(ss, ops, w, id), i, k);
  }

  /** An acknowledged SET delivered again changes nothing, whatever the other paths
      wrote in between. */
  lemma SetAtMostOnce(ss: seq<Store>, ops: seq<Op>, w: WorkId, id: AnnId, i: nat, j: nat)
    requires LiveTrace(ss, ops, w, id) && i < j < |ops| && Sets(ops[i], w, id) && ops[j] == ops[i]
    requires RowEvent(ss[i], ops[i], w, id).acknowledged
    ensures !RowEvent(ss[j], ops[j], w, id).changed
  {
    RowHistory(ss, ops, w, id);
    AtMostOnce(RowStates(ss, w, id), RowEvents(ss, ops, w, id), i, j);
  }
}
