/** The answers to the annotation writes, row by row: which are refused, and what the
    Work's annotations, revisions and generation are afterwards. */
module AnnotationAnswers {
  import opened Common
  import opened AnnotationStore
  import opened AnnotationReplace

  function Moved(b: Body, w: WorkId, id: AnnId): nat { if (w, id) in b.revisions then b.revisions[(w, id)] else 0 }

  predicate Listed(items: seq<Item>, id: AnnId) { exists item :: item in items && item.id == id }

  /** The stored annotation of that id says the same, viewer bookkeeping aside. */
  predicate SaysAlready(b: Body, item: Item) {
    item.id in b.rows && b.rows[item.id].item.id == item.id && b.rows[item.id].item.meaning == item.meaning
  }

  /** The items are in, each as it was if it says the same; nothing else is touched. */
  ghost predicate ItemsIn(b: Body, w: WorkId, items: seq<Item>, b': Body) {
    && (forall id :: id in b'.rows <==> id in b.rows || Listed(items, id))
    && (forall id :: id in b.rows && !Listed(items, id) ==> b'.rows[id] == b.rows[id])
    && (forall item :: item in items ==>
          && item.id in b'.rows
          && b'.rows[item.id] == (if SaysAlready(b, item) then b.rows[item.id] else Row(w, item))
          && Moved(b', w, item.id) == Moved(b, w, item.id) + if item.id in b.rows && !SaysAlready(b, item) then 1 else 0)
    && (forall v, id :: v != w || !Listed(items, id) ==> Moved(b', v, id) == Moved(b, v, id))
  }

  /** The id was used before and is gone. */
  predicate Retired(b: Body, w: WorkId, item: Item) { item.id !in b.rows && Moved(b, w, item.id) > 0 }

  lemma {:induction false} ItemsDecided(b: Body, w: WorkId, items: seq<Item>)
    requires Distinct(items) && forall item :: item in items && item.id in b.rows ==> b.rows[item.id].work == w
    ensures var r := ReplaceAll(b, w, items);
      && (r.Some? <==> forall item :: item in items ==> !Retired(b, w, item))
      && (r.Some? ==> ItemsIn(b, w, items, r.value))
  {
    if items != [] {
      var n := |items| - 1;
      assert items == items[..n] + [items[n]];
      ItemsDecided(b, w, items[..n]);
      if ReplaceAll(b, w, items[..n]).Some? {
        assert !Listed(items[..n], items[n].id);
        OneMoreItem(b, w, items, n, ReplaceAll(b, w, items[..n]).value);
      }
    }
  }

  lemma {:induction false} ListedMore(items: seq<Item>, n: nat, id: AnnId)
    requires n + 1 == |items|
    ensures Listed(items, id) <==> Listed(items[..n], id) || items[n].id == id
  {
    assert items == items[..n] + [items[n]];
    if items[n].id == id { assert items[n] in items; }
  }

  lemma {:induction false} OneMoreItem(b: Body, w: WorkId, items: seq<Item>, n: nat, before: Body)
    requires n + 1 == |items| && ItemsIn(b, w, items[..n], before) && !Listed(items[..n], items[n].id)
    requires items[n].id in b.rows ==> b.rows[items[n].id].work == w
    ensures ReplaceOne(before, w, items[n]).None? <==> Retired(b, w, items[n])
    ensures ReplaceOne(before, w, items[n]).Some? ==> ItemsIn(b, w, items, ReplaceOne(before, w, items[n]).value)
  {
    var item := items[n];
    assert items == items[..n] + [item];
    assert item.id in before.rows <==> item.id in b.rows;
    assert item.id in b.rows ==> before.rows[item.id] == b.rows[item.id];
    assert Moved(before, w, item.id) == Moved(b, w, item.id);
    if !Retired(b, w, item) {
      var after := ReplaceOne(before, w, item).value;
      OneIn(before, w, item, after);
      NotListed(items[..n], item.id);
      JoinedIn(b, w, items, n, before, after);
    }
  }

  lemma {:induction false} NotListed(items: seq<Item>, id: AnnId)
    requires !Listed(items, id)
    ensures forall item :: item in items ==> item.id != id
  {
  }

  lemma {:induction false} JoinedIn(b: Body, w: WorkId, items: seq<Item>, n: nat, before: Body, after: Body)
    requires n + 1 == |items| && ItemsIn(b, w, items[..n], before)
    requires var item := items[n];
      && (forall x :: x in items[..n] ==> x.id != item.id)
      && after.rows.Keys == before.rows.Keys + {item.id}
      && after.rows[item.id] == (if SaysAlready(b, item) then b.rows[item.id] else Row(w, item))
      && (forall id :: id in before.rows && id != item.id ==> after.rows[id] == before.rows[id])
      && Moved(after, w, item.id) == Moved(b, w, item.id) + (if item.id in b.rows && !SaysAlready(b, item) then 1 else 0)
      && (forall v, id :: v != w || id != item.id ==> Moved(after, v, id) == Moved(before, v, id))
    ensures ItemsIn(b, w, items, after)
  {
    assert items == items[..n] + [items[n]];
    forall id ensures Listed(items, id) <==> Listed(items[..n], id) || id == items[n].id { ListedMore(items, n, id); }
    forall id ensures id in after.rows <==> id in b.rows || Listed(items, id) {
      assert id in after.rows <==> id in before.rows || id == items[n].id;
    }
  }

  lemma {:induction false} OneIn(before: Body, w: WorkId, item: Item, after: Body)
    requires item.id in before.rows ==> before.rows[item.id].work == w
    requires ReplaceOne(before, w, item) == Some(after)
    ensures after.rows.Keys == before.rows.Keys + {item.id}
    ensures after.rows[item.id] == if SaysAlready(before, item) then before.rows[item.id] else Row(w, item)
    ensures forall id :: id in before.rows && id != item.id ==> after.rows[id] == before.rows[id]
    ensures Moved(after, w, item.id) == Moved(before, w, item.id) + if item.id in before.rows && !SaysAlready(before, item) then 1 else 0
    ensures forall v, id :: v != w || id != item.id ==> Moved(after, v, id) == Moved(before, v, id)
  {
    assert after.rows.Keys == before.rows.Keys + {item.id};
  }

  // ---- Full-list replace ---------------------------------------------------

  /** Every entry can be read, and no id comes twice. */
  predicate Readable(raw: seq<Raw>) {
    && (forall r :: r in raw ==> r.Usable?)
    && (forall i, j :: 0 <= i < j < |raw| && raw[i].Usable? && raw[j].Usable? ==> raw[i].item.id != raw[j].item.id)
  }

  predicate Wants(raw: seq<Raw>, id: AnnId) { exists r :: r in raw && r.Usable? && r.item.id == id }

  /** The annotations of the Work are the listed ones, those that say the same kept as
      they were; revisions move by one where a meaning changed or an annotation went. */
  ghost predicate ReplacedBy(b: Body, w: WorkId, raw: seq<Raw>, b': Body) {
    && (forall id :: id in b'.rows <==> Wants(raw, id) || (id in b.rows && b.rows[id].work != w))
    && (forall id :: id in b.rows && b.rows[id].work != w ==> b'.rows[id] == b.rows[id])
    && (forall r :: r in raw && r.Usable? ==>
          r.item.id in b'.rows && b'.rows[r.item.id] == if SaysAlready(b, r.item) then b.rows[r.item.id] else Row(w, r.item))
    && (forall r :: r in raw && r.Usable? ==>
          Moved(b', w, r.item.id) == Moved(b, w, r.item.id) + if r.item.id in b.rows && !SaysAlready(b, r.item) then 1 else 0)
    && (forall v, id :: v != w || !Wants(raw, id) ==>
          Moved(b', v, id) == Moved(b, v, id) + if v == w && id in b.rows && b.rows[id].work == w then 1 else 0)
  }

  ghost predicate ReplaceAnswer(s: Store, w: WorkId, raw: seq<Raw>, baseSet: Option<int>, s': Store, code: Code) {
    if w !in s.works then code == EntityNotFound && s' == s
    else if baseSet.Some? && baseSet.value != s.works[w].canonical then code == AnnotationSetStale && s' == s
    else if !Readable(raw) then code == Malformed && s' == s
    else if exists r :: r in raw && r.Usable? && r.item.id in s.body.rows && s.body.rows[r.item.id].work != w then
      code == AnnotationIdConflict && s' == s
    else if exists r :: r in raw && r.Usable? && Retired(s.body, w, r.item) then code == AnnotationIdReused && s' == s
    else
      && code == Acknowledged && ReplacedBy(s.body, w, raw, s'.body)
      && s'.works == if s'.body.rows == s.body.rows then s.works
                     else s.works[w := Generations(s.works[w].canonical + 1, s.works[w].materialized)]
  }

  /** A replace is refused by those rules in that order and by no other; an accepted one
      leaves exactly the listed annotations, and moves the generation by one if and only
      if a row changed. */
  lemma {:induction false} ReplaceExactly(s: Store, w: WorkId, raw: seq<Raw>, baseSet: Option<int>)
    ensures ReplaceAnswer(s, w, raw, baseSet, ApplyReplace(s, w, raw, baseSet).0, ApplyReplace(s, w, raw, baseSet).1)
  {
    if w in s.works && Readable(raw) {
      var items := Items(raw);
      ItemsAre(raw);
      MineIs(s.body, w, raw);
      if AllMine(s.body, w, items) {
        ItemsDecided(s.body, w, items);
        RetiredIs(s.body, w, raw);
        if ReplaceAll(s.body, w, items).Some? { RestGone(s, w, raw, ReplaceAll(s.body, w, items).value); }
      }
    }
  }

  lemma {:induction false} ItemsAre(raw: seq<Raw>)
    requires Readable(raw)
    ensures Distinct(Items(raw)) && forall item :: item in Items(raw) <==> Usable(item) in raw
    ensures forall id :: Listed(Items(raw), id) <==> Wants(raw, id)
    ensures forall id :: id in Ids(Items(raw)) <==> Wants(raw, id)
  {
    DistinctItems(raw);
    var items := Items(raw);
    forall item ensures item in items <==> Usable(item) in raw {
      if item in items {
        var i :| 0 <= i < |items| && items[i] == item;
        assert raw[i] in raw && raw[i] == Usable(item);
      }
      if Usable(item) in raw {
        var i :| 0 <= i < |raw| && raw[i] == Usable(item);
        assert items[i] == item;
      }
    }
    forall id ensures Listed(items, id) <==> Wants(raw, id) { ListedIs(raw, items, id); }
    forall id ensures id in Ids(items) <==> Listed(items, id) { IdsAre(items, id); }
  }

  lemma {:induction false} ListedIs(raw: seq<Raw>, items: seq<Item>, id: AnnId)
    requires forall item :: item in items <==> Usable(item) in raw
    ensures Listed(items, id) <==> Wants(raw, id)
  {
    if Listed(items, id) {
      var item :| item in items && item.id == id;
      assert Usable(item) in raw && Usable(item).item.id == id;
    }
    if Wants(raw, id) {
      var r :| r in raw && r.Usable? && r.item.id == id;
      assert Usable(r.item) == r;
      assert r.item in items;
    }
  }

  lemma {:induction false} IdsAre(items: seq<Item>, id: AnnId)
    ensures id in Ids(items) <==> Listed(items, id)
  {
    if item :| item in items && item.id == id {
      var i :| 0 <= i < |items| && items[i] == item;
      assert items[i].id in Ids(items);
    }
  }

  lemma {:induction false} MineIs(b: Body, w: WorkId, raw: seq<Raw>)
    requires Readable(raw)
    ensures AllMine(b, w, Items(raw)) <==> !exists r :: r in raw && r.Usable? && r.item.id in b.rows && b.rows[r.item.id].work != w
    ensures AllMine(b, w, Items(raw)) ==> forall item :: item in Items(raw) && item.id in b.rows ==> b.rows[item.id].work == w
  {
    var items := Items(raw);
    ItemsAre(raw);
    if r :| r in raw && r.Usable? && r.item.id in b.rows && b.rows[r.item.id].work != w {
      assert Usable(r.item) == r && r.item in items;
    } else {
      forall i | 0 <= i < |items| && items[i].id in b.rows ensures b.rows[items[i].id].work == w {
        assert items[i] in items && Usable(items[i]) in raw;
      }
    }
  }

  lemma {:induction false} RetiredIs(b: Body, w: WorkId, raw: seq<Raw>)
    requires Readable(raw)
    ensures (exists item :: item in Items(raw) && Retired(b, w, item)) <==> exists r :: r in raw && r.Usable? && Retired(b, w, r.item)
  {
    ItemsAre(raw);
    if item :| item in Items(raw) && Retired(b, w, item) { assert Usable(item) in raw; }
    if r :| r in raw && r.Usable? && Retired(b, w, r.item) { assert Usable(r.item) == r; }
  }

  /** Then the annotations that were not listed go. */
  lemma {:induction false} RestGone(s: Store, w: WorkId, raw: seq<Raw>, b: Body)
    requires w in s.works && Readable(raw) && AllMine(s.body, w, Items(raw))
    requires ReplaceAll(s.body, w, Items(raw)) == Some(b)
    ensures var (s', code) := Replaced(s, w, Ids(Items(raw)), Some(b));
      && code == Acknowledged && ReplacedBy(s.body, w, raw, s'.body)
      && s'.works == if s'.body.rows == s.body.rows then s.works
                     else s.works[w := Generations(s.works[w].canonical + 1, s.works[w].materialized)]
  {
    var items := Items(raw);
    var gone := Owned(s.body, w) - Ids(items);
    ItemsAre(raw);
    MineIs(s.body, w, raw);
    ItemsDecided(s.body, w, items);
    ReplacedNow(s.body, w, raw, b, gone);
    RowsTell(s.body, w, items, b, gone);
    Concluded(s, w, Ids(items), b, DeletedAll(b, w, gone));
  }

  lemma {:induction false} Concluded(s: Store, w: WorkId, listed: set<AnnId>, b: Body, b': Body)
    requires w in s.works && b' == DeletedAll(b, w, Owned(s.body, w) - listed)
    requires b' == s.body <==> b'.rows == s.body.rows
    ensures Replaced(s, w, listed, Some(b)) ==
              (Store(if b'.rows == s.body.rows then s.works
                     else s.works[w := Generations(s.works[w].canonical + 1, s.works[w].materialized)], b'), Acknowledged)
  {
  }

  lemma {:induction false} GoneIs(b: Body, w: WorkId, gone: set<AnnId>)
    ensures var b' := DeletedAll(b, w, gone);
      && b'.rows == b.rows - gone
      && forall v, id :: Moved(b', v, id) == Moved(b, v, id) + if v == w && id in gone then 1 else 0
  {
    forall v, id ensures Moved(DeletedAll(b, w, gone), v, id) == Moved(b, v, id) + if v == w && id in gone then 1 else 0 {
      if v == w && id in gone { assert (w, id) in set x | x in gone :: (w, x); }
    }
  }

  lemma {:induction false} ReplacedNow(b: Body, w: WorkId, raw: seq<Raw>, b1: Body, gone: set<AnnId>)
    requires Readable(raw) && ItemsIn(b, w, Items(raw), b1) && gone == Owned(b, w) - Ids(Items(raw))
    requires AllMine(b, w, Items(raw))
    ensures ReplacedBy(b, w, raw, DeletedAll(b1, w, gone))
  {
    ItemsAre(raw);
    MineIs(b, w, raw);
    GoneIs(b1, w, gone);
    assert forall id :: id in gone <==> id in b.rows && b.rows[id].work == w && !Wants(raw, id);
    forall r | r in raw && r.Usable? ensures r.item in Items(raw) && r.item.id !in gone { assert Usable(r.item) == r; }
  }

  /** Nothing but the rows needs to be compared. */
  lemma {:induction false} ItemsTell(b: Body, w: WorkId, items: seq<Item>)
    requires Distinct(items) && forall item :: item in items && item.id in b.rows ==> b.rows[item.id].work == w
    requires ReplaceAll(b, w, items).Some? && ReplaceAll(b, w, items).value.rows == b.rows
    ensures ReplaceAll(b, w, items).value == b
  {
    if items != [] {
      var n := |items| - 1;
      assert items == items[..n] + [items[n]];
      ItemsDecided(b, w, items[..n]);
      var before := ReplaceAll(b, w, items[..n]).value;
      assert !Listed(items[..n], items[n].id);
      LastTells(b, w, before, items[n]);
      ItemsTell(b, w, items[..n]);
    }
  }

  lemma {:induction false} LastTells(b: Body, w: WorkId, before: Body, item: Item)
    requires item.id in before.rows <==> item.id in b.rows
    requires item.id in b.rows ==> before.rows[item.id] == b.rows[item.id] && b.rows[item.id].work == w
    requires ReplaceOne(before, w, item).Some? && ReplaceOne(before, w, item).value.rows == b.rows
    ensures ReplaceOne(before, w, item).value == before
  {
    assert item.id in ReplaceOne(before, w, item).value.rows;
  }

  lemma {:induction false} RowsTell(b: Body, w: WorkId, items: seq<Item>, b1: Body, gone: set<AnnId>)
    requires Distinct(items) && forall item :: item in items && item.id in b.rows ==> b.rows[item.id].work == w
    requires ReplaceAll(b, w, items) == Some(b1) && gone == Owned(b, w) - Ids(items)
    ensures DeletedAll(b1, w, gone) == b <==> DeletedAll(b1, w, gone).rows == b.rows
  {
    GoneShows(b, b1, w, gone);
    if DeletedAll(b1, w, gone).rows == b.rows {
      DeletedNone(b1, w);
      ItemsTell(b, w, items);
    }
  }

  lemma {:induction false} GoneShows(b: Body, b1: Body, w: WorkId, gone: set<AnnId>)
    requires gone <= Owned(b, w)
    ensures DeletedAll(b1, w, gone).rows == b.rows ==> gone == {}
  {
    forall id | id in gone ensures DeletedAll(b1, w, gone).rows != b.rows {
      assert id in b.rows && id !in DeletedAll(b1, w, gone).rows;
    }
  }

  // ---- CREATE, SET, DELETE -------------------------------------------------

  /** Only the annotation `id` changed, its revision moved by `steps`, and the generation by one. */
  ghost predicate OneChange(s: Store, w: WorkId, id: AnnId, steps: nat, s': Store) {
    && w in s.works
    && s'.works == s.works[w := Generations(s.works[w].canonical + 1, s.works[w].materialized)]
    && (forall x :: x != id ==> (x in s'.body.rows <==> x in s.body.rows) && (x in s.body.rows ==> s'.body.rows[x] == s.body.rows[x]))
    && (forall v, x :: Moved(s'.body, v, x) == Moved(s.body, v, x) + if v == w && x == id then steps else 0)
  }

  predicate Holds(b: Body, w: WorkId, item: Item) { item.id in b.rows && b.rows[item.id] == Row(w, item) }

  /** A new id is taken; a repeated creation of what is there is acknowledged. */
  lemma {:induction false} CreateExactly(s: Store, w: WorkId, item: Item)
    ensures var (s', reply) := ApplyCreate(s, w, item);
      if w in s.works && item.id !in s.body.rows && Moved(s.body, w, item.id) == 0 then
        reply == Reply(Acknowledged, true, 0) && OneChange(s, w, item.id, 0, s') && Holds(s'.body, w, item)
      else
        && s' == s && !reply.changed
        && reply.code == (
             if w !in s.works then EntityNotFound
             else if item.id !in s.body.rows then AnnotationIdReused
             else if s.body.rows[item.id].work != w then AnnotationIdConflict
             else if SaysAlready(s.body, item) then Acknowledged else AnnotationExists)
  {
  }

  /** From the current revision a change of meaning is always stored; what is there
      already is acknowledged from any revision the server has seen. */
  lemma {:induction false} SetExactly(s: Store, w: WorkId, item: Item, base: int)
    ensures var (s', reply) := ApplySet(s, w, item, base);
      var here := w in s.works && item.id in s.body.rows && s.body.rows[item.id].work == w;
      var revision := Moved(s.body, w, item.id);
      if here && base == revision && !SaysAlready(s.body, item) then
        reply == Reply(Acknowledged, true, revision + 1) && OneChange(s, w, item.id, 1, s') && Holds(s'.body, w, item)
      else
        && s' == s && !reply.changed
        && reply.code == (
             if !here then EntityNotFound else if base > revision then FutureRevision
             else if SaysAlready(s.body, item) then Acknowledged else RevisionConflict)
  {
  }

  /** From the current revision an annotation always goes; one that is not there is
      acknowledged. */
  lemma {:induction false} DeleteExactly(s: Store, w: WorkId, id: AnnId, base: int)
    ensures var (s', reply) := ApplyDelete(s, w, id, base);
      var here := id in s.body.rows && s.body.rows[id].work == w;
      var revision := Moved(s.body, w, id);
      if w in s.works && here && base == revision then
        reply == Reply(Acknowledged, true, revision + 1) && OneChange(s, w, id, 1, s') && id !in s'.body.rows
      else
        && s' == s && !reply.changed
        && reply.code == (
             if w !in s.works then EntityNotFound else if base > revision then FutureRevision
             else if !here then Acknowledged else RevisionConflict)
  {
  }

  // ---- Materialization -----------------------------------------------------

  /** A claim is accepted exactly at the current generation, and marks it. */
  lemma {:induction false} ClaimExactly(s: Store, w: WorkId, claimed: Option<int>)
    ensures var (s', code) := ApplyClaim(s, w, claimed);
      if w !in s.works then code == EntityNotFound && s' == s
      else if claimed != Some(s.works[w].canonical) then code == MaterializationStale && s' == s
      else
        var now := s.works[w].canonical;
        code == Acknowledged && s' == s.(works := s.works[w := Generations(now, now)])
  {
  }

  /** A mark is refused outside zero to the current generation; a Work that is gone needs none. */
  lemma {:induction false} MarkExactly(s: Store, w: WorkId, at: Option<int>)
    ensures var (s', code) := ApplyMark(s, w, at);
      if w !in s.works then code == Acknowledged && s' == s
      else
        var now := s.works[w].canonical;
        var mark := if at.Some? then at.value else now;
        if 0 <= mark <= now then code == Acknowledged && s' == s.(works := s.works[w := Generations(now, mark)])
        else code == MaterializationStale && s' == s
  {
  }
}
