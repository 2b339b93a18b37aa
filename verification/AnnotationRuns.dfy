/** What every run of the annotation operations keeps. */
module AnnotationRuns {
  import opened Common
  import opened AnnotationStore
  import opened AnnotationReplace

  datatype Op =
    | One(work: WorkId, single: Single)
    | FullList(work: WorkId, raw: seq<Raw>, baseSet: Option<int>)
    | Adopt(work: WorkId, viewer: seq<ViewerItem>)
    | Claim(work: WorkId, claimed: Option<int>)
    | Mark(work: WorkId, at: Option<int>)
  {
    function Step(s: Store): (Store, Code) {
      match this
      case One(w, single) => var (s', reply) := single.On(s, w); (s', reply.code)
      case FullList(w, raw, baseSet) => ApplyReplace(s, w, raw, baseSet)
      case Adopt(w, viewer) => ApplyAdopt(s, w, viewer)
      case Claim(w, claimed) => ApplyClaim(s, w, claimed)
      case Mark(w, at) => ApplyMark(s, w, at)
    }

    /** Moves the materialized generation of `w`, if accepted. */
    predicate Materializes(w: WorkId) { (Claim? || Mark?) && work == w }
  }

  /** The store after the first `n` operations. */
  function After(s: Store, ops: seq<Op>, n: nat): Store
    requires n <= |ops|
  {
    if n == 0 then s else ops[n - 1].Step(After(s, ops, n - 1)).0
  }

  /** The annotations of one Work. */
  function OwnRows(b: Body, w: WorkId): map<AnnId, Row> {
    map id | id in b.rows && b.rows[id].work == w :: b.rows[id]
  }

  /** Used before and gone. */
  predicate Dead(b: Body, w: WorkId, id: AnnId) { !Present(b, w, id) && Revision(b, w, id) > 0 }

  // ---- One operation -------------------------------------------------------

  /** What every write to Work `w` keeps: other Works are not touched, revisions of
      `w` never go back, the dead stay dead, and what disappears is dead. */
  ghost predicate Evolves(b: Body, b': Body, w: WorkId) {
    && (forall v, id :: v != w ==> (Present(b', v, id) <==> Present(b, v, id)) && Revision(b', v, id) == Revision(b, v, id))
    && (forall id :: id in b.rows && b.rows[id].work != w ==> id in b'.rows && b'.rows[id] == b.rows[id])
    && (forall id :: Revision(b', w, id) >= Revision(b, w, id))
    && (forall id :: Dead(b, w, id) ==> Dead(b', w, id))
    && (forall id :: Present(b, w, id) && !Present(b', w, id) ==> Dead(b', w, id))
  }

  lemma EvolvesOn(a: Body, b: Body, c: Body, w: WorkId)
    requires Evolves(a, b, w) && Evolves(b, c, w)
    ensures Evolves(a, c, w)
  {
    forall id | Present(a, w, id) && !Present(c, w, id) ensures Dead(c, w, id) {
      if !Present(b, w, id) { assert Dead(b, w, id); }
    }
  }

  lemma InsertEvolves(b: Body, w: WorkId, item: Item)
    requires !Dead(b, w, item.id) && (item.id in b.rows ==> b.rows[item.id].work == w)
    ensures Evolves(b, Inserted(b, w, item), w)
  {
  }

  lemma UpdateEvolves(b: Body, w: WorkId, item: Item)
    requires Present(b, w, item.id)
    ensures Evolves(b, Updated(b, w, item), w)
  {
  }

  lemma DeleteEvolves(b: Body, w: WorkId, gone: set<AnnId>)
    requires gone <= Owned(b, w)
    ensures Evolves(b, DeletedAll(b, w, gone), w)
  {
  }

  lemma OneEvolves(b: Body, w: WorkId, id: AnnId)
    requires Present(b, w, id)
    ensures Evolves(b, Deleted(b, w, id), w)
  {
  }

  lemma {:induction false} ReplaceEvolves(b: Body, w: WorkId, items: seq<Item>)
    requires AllMine(b, w, items)
    ensures var r := ReplaceAll(b, w, items);
      r.Some? ==> Evolves(b, r.value, w) && (forall id :: id in Owned(b, w) ==> id in Owned(r.value, w))
    ensures var r := ReplaceAll(b, w, items);
      r.Some? ==> forall id :: id in r.value.rows && r.value.rows[id].work != w ==> id in b.rows && b.rows[id] == r.value.rows[id]
  {
    if items != [] {
      var n := |items| - 1;
      ReplaceEvolves(b, w, items[..n]);
      var before := ReplaceAll(b, w, items[..n]);
      if before.Some? {
        OneReplacementEvolves(before.value, w, items[n]);
        var r := ReplaceOne(before.value, w, items[n]);
        if r.Some? { EvolvesOn(b, before.value, r.value, w); }
      }
    }
  }

  lemma OneReplacementEvolves(b: Body, w: WorkId, item: Item)
    requires item.id in b.rows ==> b.rows[item.id].work == w
    ensures var r := ReplaceOne(b, w, item); r.Some? ==> Evolves(b, r.value, w)
  {
    if Present(b, w, item.id) {
      UpdateEvolves(b, w, item);
    } else if Revision(b, w, item.id) == 0 {
      InsertEvolves(b, w, item);
    }
  }

  lemma {:induction false} AdoptEvolves(b: Body, w: WorkId, vs: seq<ViewerItem>)
    ensures var r := AdoptAll(b, w, vs); r.Success? ==> Evolves(b, r.value, w)
  {
    if vs != [] {
      var n := |vs| - 1;
      AdoptEvolves(b, w, vs[..n]);
      var before := AdoptAll(b, w, vs[..n]);
      if before.Success? {
        OneAdoptionEvolves(before.value, w, vs[n]);
        var r := AdoptOne(before.value, w, vs[n]);
        if r.Success? { EvolvesOn(b, before.value, r.value, w); }
      }
    }
  }

  lemma OneAdoptionEvolves(b: Body, w: WorkId, v: ViewerItem)
    ensures var r := AdoptOne(b, w, v); r.Success? ==> Evolves(b, r.value, w)
  {
    IdsAgree(v.idFields);
    var r := AdoptOne(b, w, v);
    if r.Success? && r.value != b {
      InsertEvolves(b, w, Normalized(v).value);
    }
  }

  /** How one operation moves the generations of Work `w`, and the annotations with them. */
  ghost predicate Moves(s: Store, s': Store, w: WorkId) {
    && s'.works.Keys == s.works.Keys
    && Evolves(s.body, s'.body, w)
    && (forall v :: v in s.works && v != w ==> s'.works[v] == s.works[v])
    && (s'.body != s.body ==>
          w in s.works && s'.works[w] == s.works[w].(canonical := s.works[w].canonical + 1))
    && (s'.body == s.body && w in s.works ==>
          s'.works[w].canonical == s.works[w].canonical
          && (s'.works[w].materialized == s.works[w].materialized || s'.works[w].materialized <= s.works[w].canonical))
  }

  lemma EvolvesSelf(b: Body, w: WorkId)
    ensures Evolves(b, b, w)
  {
  }

  lemma SingleMoves(s: Store, w: WorkId, single: Single)
    ensures Moves(s, single.On(s, w).0, w)
  {
    EvolvesSelf(s.body, w);
    match single
    case Create(item) =>
      if !Dead(s.body, w, item.id) && (item.id in s.body.rows ==> s.body.rows[item.id].work == w) {
        InsertEvolves(s.body, w, item);
      }
    case Set(item, base) =>
      if Present(s.body, w, item.id) { UpdateEvolves(s.body, w, item); }
    case Delete(id, base) =>
      if Present(s.body, w, id) { OneEvolves(s.body, w, id); }
  }

  lemma FullListMoves(s: Store, w: WorkId, raw: seq<Raw>, baseSet: Option<int>)
    ensures Moves(s, ApplyReplace(s, w, raw, baseSet).0, w)
  {
    EvolvesSelf(s.body, w);
    if w in s.works && ListValid(raw) && AllMine(s.body, w, Items(raw)) {
      ReplacedMoves(s, w, Items(raw));
    }
  }

  lemma ReplacedMoves(s: Store, w: WorkId, items: seq<Item>)
    requires w in s.works && AllMine(s.body, w, items)
    ensures Moves(s, Replaced(s, w, Ids(items), ReplaceAll(s.body, w, items)).0, w)
  {
    EvolvesSelf(s.body, w);
    ReplaceEvolves(s.body, w, items);
    var r := ReplaceAll(s.body, w, items);
    if r.Some? {
      DeleteEvolves(r.value, w, Owned(s.body, w) - Ids(items));
      EvolvesOn(s.body, r.value, DeletedAll(r.value, w, Owned(s.body, w) - Ids(items)), w);
    }
  }

  lemma StepMoves(s: Store, op: Op)
    ensures Moves(s, op.Step(s).0, op.work)
  {
    EvolvesSelf(s.body, op.work);
    match op
    case One(w, single) => SingleMoves(s, w, single);
    case FullList(w, raw, baseSet) => FullListMoves(s, w, raw, baseSet);
    case Adopt(w, viewer) => AdoptEvolves(s.body, w, viewer);
    case Claim(w, claimed) =>
    case Mark(w, at) =>
  }

  // ---- Runs ----------------------------------------------------------------

  lemma {:induction false} WorksStay(s: Store, ops: seq<Op>, n: nat)
    requires n <= |ops|
    ensures After(s, ops, n).works.Keys == s.works.Keys
  {
    if n > 0 {
      WorksStay(s, ops, n - 1);
      StepMoves(After(s, ops, n - 1), ops[n - 1]);
    }
  }

  function Canonical(s: Store, w: WorkId): nat { if w in s.works then s.works[w].canonical else 0 }

  lemma StepDetermines(s: Store, op: Op, w: WorkId)
    requires w in s.works
    ensures var s' := op.Step(s).0;
      && Canonical(s', w) >= Canonical(s, w)
      && (Canonical(s', w) == Canonical(s, w) ==> OwnRows(s'.body, w) == OwnRows(s.body, w))
  {
    StepMoves(s, op);
    var s' := op.Step(s).0;
    if op.work != w {
      OthersRows(s.body, s'.body, op.work, w);
    }
  }

  lemma OthersRows(b: Body, b': Body, w: WorkId, v: WorkId)
    requires Evolves(b, b', w) && v != w
    ensures OwnRows(b', v) == OwnRows(b, v)
  {
    forall id ensures id in OwnRows(b', v) <==> id in OwnRows(b, v) {
      assert Present(b', v, id) <==> Present(b, v, id);
    }
  }

  /** The generation never goes back, and determines the annotations: two moments of
      a run with the same generation have the same annotations. */
  lemma {:induction false} GenerationDeterminesSet(s: Store, ops: seq<Op>, i: nat, j: nat, w: WorkId)
    requires i <= j <= |ops| && w in s.works
    ensures Canonical(After(s, ops, i), w) <= Canonical(After(s, ops, j), w)
    ensures Canonical(After(s, ops, i), w) == Canonical(After(s, ops, j), w) ==>
              OwnRows(After(s, ops, i).body, w) == OwnRows(After(s, ops, j).body, w)
  {
    if i < j {
      GenerationDeterminesSet(s, ops, i, j - 1, w);
      WorksStay(s, ops, j - 1);
      StepDetermines(After(s, ops, j - 1), ops[j - 1], w);
    }
  }

  ghost predicate WithinCanonical(s: Store) {
    forall w :: w in s.works ==> s.works[w].materialized <= s.works[w].canonical
  }

  /** The materialized generation never passes the canonical one. */
  lemma {:induction false} MaterializedWithinCanonical(s: Store, ops: seq<Op>, n: nat)
    requires n <= |ops| && WithinCanonical(s)
    ensures WithinCanonical(After(s, ops, n))
  {
    if n > 0 {
      MaterializedWithinCanonical(s, ops, n - 1);
      StepMoves(After(s, ops, n - 1), ops[n - 1]);
    }
  }

  lemma MaterializedKept(s: Store, op: Op, w: WorkId)
    requires w in s.works && !op.Materializes(w)
    ensures w in op.Step(s).0.works && op.Step(s).0.works[w].materialized == s.works[w].materialized
  {
    StepMoves(s, op);
  }

  lemma {:induction false} MaterializedSince(s: Store, ops: seq<Op>, k: nat, j: nat, w: WorkId)
    requires k <= j <= |ops| && w in s.works
    requires forall m :: k <= m < j ==> !ops[m].Materializes(w)
    ensures w in After(s, ops, k).works && w in After(s, ops, j).works
    ensures After(s, ops, j).works[w].materialized == After(s, ops, k).works[w].materialized
  {
    WorksStay(s, ops, k);
    WorksStay(s, ops, j);
    if k < j {
      MaterializedSince(s, ops, k, j - 1, w);
      WorksStay(s, ops, j - 1);
      MaterializedKept(After(s, ops, j - 1), ops[j - 1], w);
    }
  }

  lemma ClaimEffect(s: Store, op: Op)
    requires op.Claim? && op.work in s.works && op.Step(s).1 == Acknowledged
    ensures op.work in op.Step(s).0.works && op.claimed == Some(s.works[op.work].canonical as int)
    ensures op.Step(s).0.works[op.work].materialized == s.works[op.work].canonical
  {
  }

  /** The PDF is current exactly while the generation is the one it was marked with. */
  lemma NotStaleSince(s: Store, ops: seq<Op>, k: nat, j: nat, w: WorkId)
    requires k < j <= |ops| && w in s.works && WithinCanonical(s)
    requires ops[k].Claim? && ops[k].work == w && ops[k].Step(After(s, ops, k)).1 == Acknowledged
    requires forall m :: k < m < j ==> !ops[m].Materializes(w)
    ensures w in After(s, ops, j).works
    ensures !After(s, ops, j).works[w].Stale() <==> Canonical(After(s, ops, j), w) == Canonical(After(s, ops, k), w)
  {
    WorksStay(s, ops, k);
    ClaimEffect(After(s, ops, k), ops[k]);
    MaterializedSince(s, ops, k + 1, j, w);
    MaterializedWithinCanonical(s, ops, j);
  }

  /** After an accepted claim, "not stale" is exact: the PDF counts as current as long
      as the generation is the claimed one, and then the annotations are those of every
      earlier moment `h` with that generation, such as the one the client embedded. */
  lemma NotStaleMeansClaimed(s: Store, ops: seq<Op>, h: nat, k: nat, j: nat, w: WorkId)
    requires h <= k < j <= |ops| && w in s.works && WithinCanonical(s)
    requires ops[k].Claim? && ops[k].work == w && ops[k].Step(After(s, ops, k)).1 == Acknowledged
    requires forall m :: k < m < j ==> !ops[m].Materializes(w)
    requires Some(Canonical(After(s, ops, h), w) as int) == ops[k].claimed
    ensures w in After(s, ops, j).works
    ensures !After(s, ops, j).works[w].Stale() <==> Canonical(After(s, ops, j), w) == Canonical(After(s, ops, h), w)
    ensures !After(s, ops, j).works[w].Stale() ==> OwnRows(After(s, ops, j).body, w) == OwnRows(After(s, ops, h).body, w)
  {
    WorksStay(s, ops, k);
    ClaimEffect(After(s, ops, k), ops[k]);
    NotStaleSince(s, ops, k, j, w);
    GenerationDeterminesSet(s, ops, h, j, w);
  }

  lemma StepKeepsDead(s: Store, op: Op, w: WorkId, id: AnnId)
    requires Dead(s.body, w, id)
    ensures Dead(op.Step(s).0.body, w, id)
  {
    StepMoves(s, op);
  }

  /** What was used before and is gone never comes back. */
  lemma {:induction false} DeadStaysDead(s: Store, ops: seq<Op>, i: nat, j: nat, w: WorkId, id: AnnId)
    requires i <= j <= |ops| && Dead(After(s, ops, i).body, w, id)
    ensures Dead(After(s, ops, j).body, w, id)
  {
    if i < j {
      DeadStaysDead(s, ops, i, j - 1, w, id);
      StepKeepsDead(After(s, ops, j - 1), ops[j - 1], w, id);
    }
  }

  /** No resurrection: an annotation that a Work once had and has no longer, whatever
      took it away, is never in that Work again. */
  lemma {:induction false} NoResurrection(s: Store, ops: seq<Op>, i: nat, j: nat, k: nat, w: WorkId, id: AnnId)
    requires i <= j <= k <= |ops|
    requires Present(After(s, ops, i).body, w, id) && !Present(After(s, ops, j).body, w, id)
    ensures !Present(After(s, ops, k).body, w, id)
  {
    if Present(After(s, ops, j - 1).body, w, id) {
      StepMoves(After(s, ops, j - 1), ops[j - 1]);
      DeadStaysDead(s, ops, j, k, w, id);
    } else {
      NoResurrection(s, ops, i, j - 1, k, w, id);
    }
  }
}
