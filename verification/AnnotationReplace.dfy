/** The legacy full-list replace against the single operations. */
module AnnotationReplace {
  import opened Common
  import opened AnnotationStore

  /** A single operation of the sync protocol on one Work. */
  datatype Single = Create(item: Item) | Set(item: Item, base: int) | Delete(id: AnnId, base: int) {
    function On(s: Store, w: WorkId): (Store, Reply) {
      match this
      case Create(item) => ApplyCreate(s, w, item)
      case Set(item, base) => ApplySet(s, w, item, base)
      case Delete(id, base) => ApplyDelete(s, w, id, base)
    }
  }

  /** The end of a run of single operations, whether all were acknowledged, and
      how many changed something. */
  datatype Ran = Ran(store: Store, acknowledged: bool, changes: nat)

  function RunSingles(s: Store, w: WorkId, ops: seq<Single>): Ran {
    if ops == [] then Ran(s, true, 0)
    else
      var before := RunSingles(s, w, ops[..|ops| - 1]);
      var (s', reply) := ops[|ops| - 1].On(before.store, w);
      Ran(s', before.acknowledged && reply.code == Acknowledged, before.changes + if reply.changed then 1 else 0)
  }

  /** The operation that gives one incoming annotation its place, with the revision
      a current device would hold. */
  function SingleFor(b: Body, w: WorkId, item: Item): Single {
    if Present(b, w, item.id) then Set(item, Revision(b, w, item.id)) else Create(item)
  }

  function SinglesFor(b: Body, w: WorkId, items: seq<Item>): seq<Single> {
    seq(|items|, i requires 0 <= i < |items| => SingleFor(b, w, items[i]))
  }

  function DeletesFor(b: Body, w: WorkId, gone: seq<AnnId>): seq<Single> {
    seq(|gone|, i requires 0 <= i < |gone| => Delete(gone[i], Revision(b, w, gone[i])))
  }

  predicate Distinct(items: seq<Item>) {
    forall i, j :: 0 <= i < j < |items| ==> items[i].id != items[j].id
  }

  /** Replacing does not touch the ids it was not given. */
  lemma {:induction false} ReplaceAllFrame(b: Body, w: WorkId, items: seq<Item>)
    ensures var r := ReplaceAll(b, w, items);
      r.Some? ==>
        && (forall id :: id !in Ids(items) ==>
              (id in r.value.rows <==> id in b.rows) && (id in b.rows ==> r.value.rows[id] == b.rows[id]))
        && (forall v, id :: id !in Ids(items) || v != w ==> Revision(r.value, v, id) == Revision(b, v, id))
        && (forall id :: id in Ids(items) ==> Present(r.value, w, id))
  {
    if items != [] {
      var n := |items| - 1;
      ReplaceAllFrame(b, w, items[..n]);
      AmongThese(items);
    }
  }

  /** Id `id` got a row or a newer revision. */
  predicate Changed(b: Body, b': Body, w: WorkId, id: AnnId) {
    Revision(b', w, id) > Revision(b, w, id) || (!Present(b, w, id) && Present(b', w, id))
  }

  function Counted(works: map<WorkId, Generations>, w: WorkId, n: nat): map<WorkId, Generations>
    requires w in works
  {
    works[w := works[w].(canonical := works[w].canonical + n)]
  }

  /** One incoming annotation and its single operation do the same. */
  lemma OneEqualsSingle(s: Store, w: WorkId, item: Item, op: Single)
    requires w in s.works && (item.id in s.body.rows ==> s.body.rows[item.id].work == w)
    requires op == SingleFor(s.body, w, item)
    ensures var (s', reply), r := op.On(s, w), ReplaceOne(s.body, w, item);
      && (reply.code == Acknowledged <==> r.Some?)
      && (r.Some? ==>
            && s' == Store(Counted(s.works, w, if reply.changed then 1 else 0), r.value)
            && (if reply.changed then Changed(s.body, r.value, w, item.id) else r.value == s.body))
  {
    assert Counted(s.works, w, 0) == s.works;
  }

  /** A run of single operations and the replace of the items with ids `ids` agree. */
  ghost predicate Match(s: Store, w: WorkId, ran: Ran, r: Option<Body>, ids: set<AnnId>)
    requires w in s.works
  {
    && (ran.acknowledged <==> r.Some?)
    && (r.Some? ==>
          && ran.store == Store(Counted(s.works, w, ran.changes), r.value)
          && (ran.changes > 0 ==> exists id :: id in ids && Changed(s.body, r.value, w, id))
          && (ran.changes == 0 ==> r.value == s.body))
  }

  lemma MatchOneMore(s: Store, w: WorkId, ran: Ran, before: Body, ids: set<AnnId>, item: Item)
    requires w in s.works && Match(s, w, ran, Some(before), ids)
    requires item.id !in ids && (item.id in before.rows ==> before.rows[item.id].work == w)
    requires Present(before, w, item.id) <==> Present(s.body, w, item.id)
    requires Revision(before, w, item.id) == Revision(s.body, w, item.id)
    ensures var (s', reply) := SingleFor(s.body, w, item).On(ran.store, w);
            Match(s, w, Ran(s', reply.code == Acknowledged, ran.changes + if reply.changed then 1 else 0),
                  ReplaceOne(before, w, item), ids + {item.id})
  {
    OneEqualsSingle(ran.store, w, item, SingleFor(s.body, w, item));
    var r := ReplaceOne(before, w, item);
    var (s', reply) := SingleFor(s.body, w, item).On(ran.store, w);
    if r.Some? {
      if reply.changed {
        assert item.id in ids + {item.id} && Changed(s.body, r.value, w, item.id);
      } else if ran.changes > 0 {
        var id :| id in ids && Changed(s.body, before, w, id);
        assert id in ids + {item.id} && Changed(s.body, r.value, w, id);
      }
    }
  }

  /** Item by item, replace and the single operations reach the same rows and
      revisions, or both meet an id that was used before. */
  lemma {:induction false} ItemsEqualSingles(s: Store, w: WorkId, items: seq<Item>)
    requires w in s.works && Distinct(items)
    requires AllMine(s.body, w, items)
    ensures Match(s, w, RunSingles(s, w, SinglesFor(s.body, w, items)), ReplaceAll(s.body, w, items), Ids(items))
  {
    if items == [] {
      assert SinglesFor(s.body, w, items) == [];
      assert Counted(s.works, w, 0) == s.works;
    } else {
      var n := |items| - 1;
      SinglesPrefix(s.body, w, items);
      ItemsEqualSingles(s, w, items[..n]);
      MatchLast(s, w, items);
    }
  }

  lemma {:induction false} SinglesPrefix(b: Body, w: WorkId, items: seq<Item>)
    requires items != []
    ensures SinglesFor(b, w, items) == SinglesFor(b, w, items[..|items| - 1]) + [SingleFor(b, w, items[|items| - 1])]
  {
  }

  lemma {:induction false} RunLast(s: Store, w: WorkId, ops: seq<Single>, last: Single)
    ensures var before := RunSingles(s, w, ops);
            var (s', reply) := last.On(before.store, w);
            RunSingles(s, w, ops + [last]) ==
              Ran(s', before.acknowledged && reply.code == Acknowledged, before.changes + if reply.changed then 1 else 0)
  {
    assert (ops + [last])[..|ops|] == ops;
  }

  lemma {:induction false} MatchLast(s: Store, w: WorkId, items: seq<Item>)
    requires w in s.works && Distinct(items) && items != []
    requires AllMine(s.body, w, items)
    requires Match(s, w, RunSingles(s, w, SinglesFor(s.body, w, items[..|items| - 1])),
                   ReplaceAll(s.body, w, items[..|items| - 1]), Ids(items[..|items| - 1]))
    ensures Match(s, w, RunSingles(s, w, SinglesFor(s.body, w, items)), ReplaceAll(s.body, w, items), Ids(items))
  {
    var n := |items| - 1;
    var item := items[n];
    SinglesPrefix(s.body, w, items);
    var ran := RunSingles(s, w, SinglesFor(s.body, w, items[..n]));
    RunLast(s, w, SinglesFor(s.body, w, items[..n]), SingleFor(s.body, w, item));
    NotAmongEarlier(items);
    AmongThese(items);
    var before := ReplaceAll(s.body, w, items[..n]);
    if before.Some? {
      ReplaceAllFrame(s.body, w, items[..n]);
      MatchOneMore(s, w, ran, before.value, Ids(items[..n]), item);
    }
  }

  lemma AmongThese(items: seq<Item>)
    requires items != []
    ensures Ids(items) == Ids(items[..|items| - 1]) + {items[|items| - 1].id}
  {
    var n := |items| - 1;
    IdsGrow(items);
    forall id | id in Ids(items) ensures id in Ids(items[..n]) + {items[n].id} {
      var i :| 0 <= i < |items| && items[i].id == id;
      if i < n { assert items[..n][i] == items[i]; }
    }
  }

  lemma NotAmongEarlier(items: seq<Item>)
    requires items != [] && Distinct(items)
    ensures items[|items| - 1].id !in Ids(items[..|items| - 1])
  {
  }

  lemma IdsGrow(items: seq<Item>)
    requires items != []
    ensures Ids(items[..|items| - 1]) <= Ids(items) && items[|items| - 1].id in Ids(items)
  {
    var n := |items| - 1;
    forall id | id in Ids(items[..n]) ensures id in Ids(items) {
      var i :| 0 <= i < n && items[..n][i].id == id;
      assert items[i].id == id;
    }
  }

  // ---- The deletions -------------------------------------------------------

  function SetOf(gone: seq<AnnId>): set<AnnId> { set i | 0 <= i < |gone| :: gone[i] }

  /** Deleting the missing annotations one by one deletes them all. */
  lemma {:induction false} DeletesEqualSingles(s: Store, w: WorkId, gone: seq<AnnId>)
    requires w in s.works
    requires forall i :: 0 <= i < |gone| ==> Present(s.body, w, gone[i])
    requires forall i, j :: 0 <= i < j < |gone| ==> gone[i] != gone[j]
    ensures var ran := RunSingles(s, w, DeletesFor(s.body, w, gone));
      && ran.acknowledged && ran.changes == |gone|
      && ran.store == Store(Counted(s.works, w, |gone|), DeletedAll(s.body, w, SetOf(gone)))
  {
    if gone == [] {
      assert DeletesFor(s.body, w, gone) == [];
      assert Counted(s.works, w, 0) == s.works;
      assert DeletedAll(s.body, w, SetOf(gone)).revisions == s.body.revisions;
    } else {
      var n := |gone| - 1;
      var ops := DeletesFor(s.body, w, gone);
      DeletesEqualSingles(s, w, gone[..n]);
      assert ops[..n] == DeletesFor(s.body, w, gone[..n]);
      SetOfGrows(gone);
      DeletedOneMore(s.body, w, SetOf(gone[..n]), gone[n]);
      DeleteCurrent(RunSingles(s, w, ops[..n]).store, w, gone[n], s.works, n);
    }
  }

  lemma DeleteCurrent(s: Store, w: WorkId, id: AnnId, works: map<WorkId, Generations>, n: nat)
    requires w in works && s.works == Counted(works, w, n) && Present(s.body, w, id)
    ensures ApplyDelete(s, w, id, Revision(s.body, w, id)) ==
              (Store(Counted(works, w, n + 1), Deleted(s.body, w, id)),
               Reply(Acknowledged, true, Revision(s.body, w, id) + 1))
  {
    assert Bumped(s, w).works == Counted(works, w, n + 1);
  }

  lemma SetOfGrows(gone: seq<AnnId>)
    requires gone != [] && forall i, j :: 0 <= i < j < |gone| ==> gone[i] != gone[j]
    ensures SetOf(gone) == SetOf(gone[..|gone| - 1]) + {gone[|gone| - 1]}
    ensures gone[|gone| - 1] !in SetOf(gone[..|gone| - 1])
  {
    var n := |gone| - 1;
    forall id | id in SetOf(gone) ensures id in SetOf(gone[..n]) + {gone[n]} {
      var i :| 0 <= i < |gone| && gone[i] == id;
      if i < n { assert gone[..n][i] == id; }
    }
    forall id | id in SetOf(gone[..n]) ensures id in SetOf(gone) {
      var i :| 0 <= i < n && gone[..n][i] == id;
      assert gone[i] == id;
    }
    assert gone[n] in SetOf(gone);
  }

  lemma DeletedOneMore(b: Body, w: WorkId, gone: set<AnnId>, id: AnnId)
    requires id !in gone && Present(b, w, id)
    ensures var b' := DeletedAll(b, w, gone);
      && Present(b', w, id) && Revision(b', w, id) == Revision(b, w, id)
      && Deleted(b', w, id) == DeletedAll(b, w, gone + {id})
  {
    var b' := DeletedAll(b, w, gone);
    var d, e := Deleted(b', w, id), DeletedAll(b, w, gone + {id});
    assert d.rows == e.rows;
    assert d.revisions == e.revisions by {
      forall key ensures key in d.revisions <==> key in e.revisions {
        if key in e.revisions && key !in b.revisions {
          var x :| x in gone + {id} && key == (w, x);
        }
      }
    }
  }

  // ---- The theorem ---------------------------------------------------------

  lemma {:induction false} RunAppend(s: Store, w: WorkId, first: seq<Single>, then_: seq<Single>)
    ensures var a, b := RunSingles(s, w, first), RunSingles(RunSingles(s, w, first).store, w, then_);
            RunSingles(s, w, first + then_) == Ran(b.store, a.acknowledged && b.acknowledged, a.changes + b.changes)
  {
    if then_ == [] {
      assert first + then_ == first;
    } else {
      var n := |then_| - 1;
      RunAppend(s, w, first, then_[..n]);
      RunLast(s, w, first + then_[..n], then_[n]);
      assert first + then_ == (first + then_[..n]) + [then_[n]];
    }
  }

  lemma DeletedNone(b: Body, w: WorkId)
    ensures DeletedAll(b, w, {}) == b
  {
    assert DeletedAll(b, w, {}).revisions == b.revisions;
  }

  /** The single operations a full-list replace stands for. */
  function Equivalent(b: Body, w: WorkId, items: seq<Item>, gone: seq<AnnId>): seq<Single> {
    SinglesFor(b, w, items) + DeletesFor(b, w, gone)
  }

  /** The annotations to delete are as they were before the list was replaced. */
  ghost predicate Untouched(old_: Body, b: Body, w: WorkId, gone: seq<AnnId>) {
    forall i :: 0 <= i < |gone| ==> Present(b, w, gone[i]) && Revision(b, w, gone[i]) == Revision(old_, w, gone[i])
  }

  lemma {:induction false} GoneUntouched(old_: Body, w: WorkId, items: seq<Item>, gone: seq<AnnId>, b: Body)
    requires ReplaceAll(old_, w, items) == Some(b)
    requires SetOf(gone) == Owned(old_, w) - Ids(items)
    ensures Untouched(old_, b, w, gone)
  {
    ReplaceAllFrame(old_, w, items);
    forall i | 0 <= i < |gone|
      ensures Present(b, w, gone[i]) && Revision(b, w, gone[i]) == Revision(old_, w, gone[i])
    {
      assert gone[i] in SetOf(gone);
    }
  }

  lemma {:induction false} DeletesAfterItems(s: Store, w: WorkId, gone: seq<AnnId>, b: Body, n: nat)
    requires w in s.works && Untouched(s.body, b, w, gone)
    requires forall i, j :: 0 <= i < j < |gone| ==> gone[i] != gone[j]
    ensures var ran := RunSingles(Store(Counted(s.works, w, n), b), w, DeletesFor(s.body, w, gone));
      && ran.acknowledged && ran.changes == |gone|
      && ran.store == Store(Counted(s.works, w, n + |gone|), DeletedAll(b, w, SetOf(gone)))
  {
    var s1 := Store(Counted(s.works, w, n), b);
    assert DeletesFor(b, w, gone) == DeletesFor(s.body, w, gone);
    DeletesEqualSingles(s1, w, gone);
    assert Counted(s1.works, w, |gone|) == Counted(s.works, w, n + |gone|);
  }

  /** Something changed if and only if the rows or revisions differ. */
  lemma ChangeShows(s: Store, w: WorkId, items: seq<Item>, gone: set<AnnId>, b: Body, changes: nat)
    requires gone == Owned(s.body, w) - Ids(items)
    requires if changes > 0 then exists id :: id in Ids(items) && Changed(s.body, b, w, id) else b == s.body
    ensures DeletedAll(b, w, gone) == s.body <==> changes == 0 && gone == {}
  {
    var b' := DeletedAll(b, w, gone);
    if gone != {} {
      var id :| id in gone;
      assert id in s.body.rows && id !in b'.rows;
    } else {
      DeletedNone(b, w);
    }
    if changes > 0 {
      var id :| id in Ids(items) && Changed(s.body, b, w, id);
      assert Revision(b', w, id) == Revision(b, w, id) && (Present(b', w, id) <==> Present(b, w, id));
      assert Changed(s.body, b', w, id);
    }
  }

  /** The whole run of single operations and the whole replace agree. */
  ghost predicate Agrees(s: Store, w: WorkId, ran: Ran, r: Option<Body>, gone: set<AnnId>)
    requires w in s.works
  {
    && (ran.acknowledged <==> r.Some?)
    && (r.Some? ==>
          && ran.store == Store(Counted(s.works, w, ran.changes), DeletedAll(r.value, w, gone))
          && (ran.changes == 0 <==> DeletedAll(r.value, w, gone) == s.body))
  }

  lemma {:induction false} RunAgrees(s: Store, w: WorkId, items: seq<Item>, gone: seq<AnnId>)
    requires w in s.works && Distinct(items) && AllMine(s.body, w, items)
    requires SetOf(gone) == Owned(s.body, w) - Ids(items)
    requires forall i, j :: 0 <= i < j < |gone| ==> gone[i] != gone[j]
    ensures Agrees(s, w, RunSingles(s, w, Equivalent(s.body, w, items, gone)), ReplaceAll(s.body, w, items), SetOf(gone))
  {
    ItemsEqualSingles(s, w, items);
    var r := ReplaceAll(s.body, w, items);
    if r.Some? { GoneUntouched(s.body, w, items, gone, r.value); }
    RunThenDeletes(s, w, items, gone, SinglesFor(s.body, w, items), r);
  }

  lemma {:induction false} RunThenDeletes(s: Store, w: WorkId, items: seq<Item>, gone: seq<AnnId>, singles: seq<Single>, r: Option<Body>)
    requires w in s.works && Match(s, w, RunSingles(s, w, singles), r, Ids(items))
    requires r.Some? ==> Untouched(s.body, r.value, w, gone)
    requires SetOf(gone) == Owned(s.body, w) - Ids(items)
    requires forall i, j :: 0 <= i < j < |gone| ==> gone[i] != gone[j]
    ensures Agrees(s, w, RunSingles(s, w, singles + DeletesFor(s.body, w, gone)), r, SetOf(gone))
  {
    RunAppend(s, w, singles, DeletesFor(s.body, w, gone));
    DeletesAgree(s, w, items, gone, RunSingles(s, w, singles), r, RunSingles(s, w, singles + DeletesFor(s.body, w, gone)));
  }

  lemma {:induction false} DeletesAgree(s: Store, w: WorkId, items: seq<Item>, gone: seq<AnnId>, first: Ran, r: Option<Body>, whole: Ran)
    requires w in s.works && Match(s, w, first, r, Ids(items))
    requires r.Some? ==> Untouched(s.body, r.value, w, gone)
    requires SetOf(gone) == Owned(s.body, w) - Ids(items)
    requires forall i, j :: 0 <= i < j < |gone| ==> gone[i] != gone[j]
    requires var last := RunSingles(first.store, w, DeletesFor(s.body, w, gone));
             whole == Ran(last.store, first.acknowledged && last.acknowledged, first.changes + last.changes)
    ensures Agrees(s, w, whole, r, SetOf(gone))
  {
    if r.Some? {
      DeletesAfterItems(s, w, gone, r.value, first.changes);
      SomethingGone(gone);
      AgreesTogether(s, w, items, gone, r.value, first, RunSingles(first.store, w, DeletesFor(s.body, w, gone)), whole);
    }
  }

  lemma SomethingGone(gone: seq<AnnId>)
    ensures SetOf(gone) == {} <==> |gone| == 0
  {
    if gone != [] { assert gone[0] in SetOf(gone); }
  }

  lemma {:induction false} AgreesTogether(s: Store, w: WorkId, items: seq<Item>, gone: seq<AnnId>, b: Body, first: Ran, last: Ran, whole: Ran)
    requires w in s.works && SetOf(gone) == Owned(s.body, w) - Ids(items) && (SetOf(gone) == {} <==> |gone| == 0)
    requires Match(s, w, first, Some(b), Ids(items))
    requires last.acknowledged && last.changes == |gone|
    requires last.store == Store(Counted(s.works, w, first.changes + |gone|), DeletedAll(b, w, SetOf(gone)))
    requires whole == Ran(last.store, first.acknowledged && last.acknowledged, first.changes + last.changes)
    ensures Agrees(s, w, whole, Some(b), SetOf(gone))
  {
    ChangeShows(s, w, items, SetOf(gone), b, first.changes);
  }

  /** Same outcome, same rows, same revisions; the replace moves the generation once
      where the run moves it once for each change. A failed replace changes nothing. */
  ghost predicate Alike(s: Store, w: WorkId, replaced: (Store, Code), ran: Ran)
    requires w in s.works
  {
    && (replaced.1 == Acknowledged <==> ran.acknowledged)
    && (replaced.1 == Acknowledged ==>
          && replaced.0.body == ran.store.body
          && replaced.0.works == Counted(s.works, w, if ran.changes > 0 then 1 else 0)
          && ran.store.works == Counted(s.works, w, ran.changes))
    && (replaced.1 != Acknowledged ==> replaced.0 == s)
  }

  lemma {:induction false} AllAcknowledged(s: Store, w: WorkId, ops: seq<Single>, n: nat)
    requires n <= |ops|
    ensures RunSingles(s, w, ops).acknowledged ==> RunSingles(s, w, ops[..n]).acknowledged
    decreases |ops|
  {
    if n == |ops| {
      assert ops[..n] == ops;
    } else {
      var m := |ops| - 1;
      AllAcknowledged(s, w, ops[..m], n);
      assert ops[..m][..n] == ops[..n];
    }
  }

  /** The first incoming annotation whose id belongs to another Work. */
  lemma FirstForeign(b: Body, w: WorkId, items: seq<Item>) returns (i: nat)
    requires !AllMine(b, w, items)
    ensures i < |items| && items[i].id in b.rows && b.rows[items[i].id].work != w && AllMine(b, w, items[..i])
  {
    i := 0;
    while items[i].id !in b.rows || b.rows[items[i].id].work == w
      invariant i < |items| && AllMine(b, w, items[..i]) && !AllMine(b, w, items)
      decreases |items| - i
    {
      i := i + 1;
    }
  }

  /** A run that reaches an id of another Work is refused there. */
  lemma {:induction false} ForeignRefused(s: Store, w: WorkId, items: seq<Item>)
    requires w in s.works && Distinct(items) && !AllMine(s.body, w, items)
    ensures !RunSingles(s, w, SinglesFor(s.body, w, items)).acknowledged
  {
    var i := FirstForeign(s.body, w, items);
    var ops := SinglesFor(s.body, w, items);
    assert ops[..i + 1] == SinglesFor(s.body, w, items[..i + 1]);
    AllAcknowledged(s, w, ops, i + 1);
    ForeignHere(s, w, items, i);
  }

  lemma {:induction false} ForeignHere(s: Store, w: WorkId, items: seq<Item>, i: nat)
    requires w in s.works && Distinct(items) && i < |items| && AllMine(s.body, w, items[..i])
    requires items[i].id in s.body.rows && s.body.rows[items[i].id].work != w
    ensures !RunSingles(s, w, SinglesFor(s.body, w, items[..i + 1])).acknowledged
  {
    var done := items[..i];
    assert items[..i + 1][..i] == done;
    SinglesPrefix(s.body, w, items[..i + 1]);
    RunLast(s, w, SinglesFor(s.body, w, done), SingleFor(s.body, w, items[i]));
    ItemsEqualSingles(s, w, done);
    if ReplaceAll(s.body, w, done).Some? {
      ReplaceAllFrame(s.body, w, done);
      NotAmongEarlier(items[..i + 1]);
    }
  }

  /** A full-list replace is a run of CREATE, SET and DELETE with current bases: it
      succeeds if and only if all of them would. */
  lemma {:induction false} ReplaceEqualsSingles(s: Store, w: WorkId, raw: seq<Raw>, base: Option<int>, gone: seq<AnnId>)
    requires w in s.works && (base.Some? ==> base.value == s.works[w].canonical)
    requires ListValid(raw)
    requires SetOf(gone) == Owned(s.body, w) - Ids(Items(raw))
    requires forall i, j :: 0 <= i < j < |gone| ==> gone[i] != gone[j]
    ensures Alike(s, w, ApplyReplace(s, w, raw, base), RunSingles(s, w, Equivalent(s.body, w, Items(raw), gone)))
  {
    var items := Items(raw);
    DistinctItems(raw);
    if AllMine(s.body, w, items) {
      RunAgrees(s, w, items, gone);
      ReplaceAgrees(s, w, raw, base, RunSingles(s, w, Equivalent(s.body, w, items, gone)), SetOf(gone));
    } else {
      ForeignRefused(s, w, items);
      RunAppend(s, w, SinglesFor(s.body, w, items), DeletesFor(s.body, w, gone));
    }
  }

  lemma DistinctItems(raw: seq<Raw>)
    requires ListValid(raw)
    ensures Distinct(Items(raw))
  {
    forall i, j | 0 <= i < j < |raw| ensures Items(raw)[i].id != Items(raw)[j].id {
      assert raw[i] in raw && raw[j] in raw;
    }
  }

  lemma {:induction false} ReplaceAgrees(s: Store, w: WorkId, raw: seq<Raw>, base: Option<int>, ran: Ran, gone: set<AnnId>)
    requires w in s.works && (base.Some? ==> base.value == s.works[w].canonical)
    requires ListValid(raw) && AllMine(s.body, w, Items(raw))
    requires gone == Owned(s.body, w) - Ids(Items(raw))
    requires Agrees(s, w, ran, ReplaceAll(s.body, w, Items(raw)), gone)
    ensures Alike(s, w, ApplyReplace(s, w, raw, base), ran)
  {
    ReplacedAgrees(s, w, Ids(Items(raw)), ReplaceAll(s.body, w, Items(raw)), ran);
  }

  lemma {:induction false} ReplacedAgrees(s: Store, w: WorkId, listed: set<AnnId>, r: Option<Body>, ran: Ran)
    requires w in s.works && Agrees(s, w, ran, r, Owned(s.body, w) - listed)
    ensures Alike(s, w, Replaced(s, w, listed, r), ran)
  {
    if r.Some? { ReplacedIs(s, w, listed, r.value); }
  }

  lemma ReplacedIs(s: Store, w: WorkId, listed: set<AnnId>, b: Body)
    requires w in s.works
    ensures var b' := DeletedAll(b, w, Owned(s.body, w) - listed);
      Replaced(s, w, listed, Some(b)) == (Store(Counted(s.works, w, if b' == s.body then 0 else 1), b'), Acknowledged)
  {
    assert Counted(s.works, w, 0) == s.works;
  }

  // ---- The loops of the replace -------------------------------------------

  /** The replace is through with `items`, and its flag says whether it changed anything. */
  ghost predicate Progress(was: Body, b: Body, w: WorkId, items: seq<Item>, changed: bool) {
    && ReplaceAll(was, w, items) == Some(b)
    && (if changed then exists id :: id in Ids(items) && Changed(was, b, w, id) else b == was)
  }

  lemma {:induction false} ProgressOne(was: Body, b: Body, w: WorkId, items: seq<Item>, i: nat, changed: bool)
    requires i < |items| && Distinct(items) && AllMine(was, w, items) && Progress(was, b, w, items[..i], changed)
    ensures items[i].id in b.rows ==> b.rows[items[i].id].work == w
    ensures Present(b, w, items[i].id) <==> Present(was, w, items[i].id)
    ensures Present(was, w, items[i].id) ==> b.rows[items[i].id] == was.rows[items[i].id]
    ensures ReplaceAll(was, w, items[..i + 1]) == ReplaceOne(b, w, items[i])
    ensures var r := ReplaceOne(b, w, items[i]);
      r.Some? && r.value != b ==> Changed(b, r.value, w, items[i].id) && Progress(was, r.value, w, items[..i + 1], true)
    ensures ReplaceOne(b, w, items[i]) == Some(b) ==> Progress(was, b, w, items[..i + 1], changed)
  {
    var done, item := items[..i], items[i];
    assert items[..i + 1][..i] == done;
    NotAmongEarlier(items[..i + 1]);
    AmongThese(items[..i + 1]);
    ReplaceAllFrame(was, w, done);
    var r := ReplaceOne(b, w, item);
    if r.Some? && r.value != b {
      OneChanges(b, w, item);
      assert item.id in Ids(items[..i + 1]) && Changed(was, r.value, w, item.id);
    } else if r == Some(b) && changed {
      var id :| id in Ids(done) && Changed(was, b, w, id);
      assert id in Ids(items[..i + 1]);
    }
  }

  lemma OneChanges(b: Body, w: WorkId, item: Item)
    requires item.id in b.rows ==> b.rows[item.id].work == w
    ensures var r := ReplaceOne(b, w, item); r.Some? && r.value != b ==> Changed(b, r.value, w, item.id)
  {
  }

  lemma {:induction false} RefusalStays(was: Body, w: WorkId, items: seq<Item>, i: nat)
    requires i <= |items| && ReplaceAll(was, w, items[..i]) == None
    ensures ReplaceAll(was, w, items) == None
    decreases |items| - i
  {
    if i == |items| {
      assert items[..i] == items;
    } else {
      assert items[..i + 1][..i] == items[..i];
      RefusalStays(was, w, items, i + 1);
    }
  }
}
