/** The annotation tables, updated in place by the four write paths. */
module AnnotationTables {
  import opened Common
  import opened AnnotationStore
  import opened AnnotationReplace
  import opened AnnotationAdoption

  class Tables {
    var works: map<WorkId, Generations>
    var rows: map<AnnId, Row>
    var revisions: map<(WorkId, AnnId), nat>

    constructor (s: Store)
      ensures Contents() == s
    {
      works, rows, revisions := s.works, s.body.rows, s.body.revisions;
    }

    function Here(): Body reads this { Body(rows, revisions) }
    function Contents(): Store reads this { Store(works, Here()) }

    method Rollback(s: Store)
      modifies this
      ensures Contents() == s
    {
      works, rows, revisions := s.works, s.body.rows, s.body.revisions;
    }

    // ---- Statements --------------------------------------------------------

    method Advance(w: WorkId, id: AnnId) returns (after: nat)
      modifies this`revisions
      ensures Here() == Advanced(old(Here()), w, id) && after == Revision(Here(), w, id)
    {
      if (w, id) in revisions {
        revisions := revisions[(w, id) := revisions[(w, id)] + 1];
      } else {
        revisions := revisions[(w, id) := 1];
      }
      after := revisions[(w, id)];
    }

    /** A write of an unchanged meaning keeps the row and the revision. */
    method UpdateAnnotation(w: WorkId, item: Item) returns (changed: bool, after: nat)
      requires Present(Here(), w, item.id)
      modifies this`rows, this`revisions
      ensures changed <==> !SameMeaning(old(rows)[item.id].item, item)
      ensures Here() == if changed then Updated(old(Here()), w, item) else old(Here())
      ensures after == Revision(Here(), w, item.id)
    {
      if SameMeaning(rows[item.id].item, item) {
        return false, Revision(Here(), w, item.id);
      }
      rows := rows[item.id := Row(w, item)];
      after := Advance(w, item.id);
      changed := true;
    }

    method DeleteAnnotation(w: WorkId, id: AnnId) returns (changed: bool, after: nat)
      modifies this`rows, this`revisions
      ensures changed <==> Present(old(Here()), w, id)
      ensures Here() == if changed then Deleted(old(Here()), w, id) else old(Here())
      ensures after == Revision(Here(), w, id)
    {
      if !Present(Here(), w, id) {
        return false, Revision(Here(), w, id);
      }
      rows := rows - {id};
      after := Advance(w, id);
      changed := true;
    }

    method Bump(w: WorkId)
      requires w in works
      modifies this`works
      ensures Contents() == Bumped(old(Contents()), w)
    {
      works := works[w := works[w].(canonical := works[w].canonical + 1)];
    }

    // ---- Handlers ----------------------------------------------------------

    method Create(w: WorkId, item: Item) returns (reply: Reply)
      modifies this
      ensures (Contents(), reply) == ApplyCreate(old(Contents()), w, item)
    {
      var revision := Revision(Here(), w, item.id);
      if w !in works { return Reply(EntityNotFound, false, revision); }
      if item.id in rows && rows[item.id].work != w { return Reply(AnnotationIdConflict, false, revision); }
      if item.id in rows {
        if SameMeaning(rows[item.id].item, item) { return Reply(Acknowledged, false, revision); }
        return Reply(AnnotationExists, false, revision);
      }
      if revision > 0 { return Reply(AnnotationIdReused, false, revision); }
      rows := rows[item.id := Row(w, item)];
      Bump(w);
      reply := Reply(Acknowledged, true, 0);
    }

    method SetAnnotation(w: WorkId, item: Item, base: int) returns (reply: Reply)
      modifies this
      ensures (Contents(), reply) == ApplySet(old(Contents()), w, item, base)
    {
      var revision := Revision(Here(), w, item.id);
      if w !in works || !Present(Here(), w, item.id) { return Reply(EntityNotFound, false, revision); }
      if base > revision { return Reply(FutureRevision, false, revision); }
      if base < revision && !SameMeaning(rows[item.id].item, item) { return Reply(RevisionConflict, false, revision); }
      var changed, after := UpdateAnnotation(w, item);
      if changed { Bump(w); }
      reply := Reply(Acknowledged, changed, after);
    }

    method Delete(w: WorkId, id: AnnId, base: int) returns (reply: Reply)
      modifies this
      ensures (Contents(), reply) == ApplyDelete(old(Contents()), w, id, base)
    {
      var revision := Revision(Here(), w, id);
      if w !in works { return Reply(EntityNotFound, false, revision); }
      if base > revision { return Reply(FutureRevision, false, revision); }
      if !Present(Here(), w, id) { return Reply(Acknowledged, false, revision); }
      if base < revision { return Reply(RevisionConflict, false, revision); }
      var changed, after := DeleteAnnotation(w, id);
      if changed { Bump(w); }
      reply := Reply(Acknowledged, changed, after);
    }

    // ---- Full-list replace -------------------------------------------------

    /** The incoming list, entry by entry; false when an id was used before. */
    method ReplaceItems(w: WorkId, items: seq<Item>) returns (ok: bool, changed: bool)
      requires Distinct(items) && AllMine(Here(), w, items)
      modifies this`rows, this`revisions
      ensures ok <==> ReplaceAll(old(Here()), w, items).Some?
      ensures ok ==> Progress(old(Here()), Here(), w, items, changed)
    {
      var current := Owned(Here(), w);
      var before := rows;
      ghost var was := Here();
      changed := false;
      var i := 0;
      while i < |items|
        invariant 0 <= i <= |items| && current == Owned(was, w) && before == was.rows
        invariant Progress(was, Here(), w, items[..i], changed)
      {
        ProgressOne(was, Here(), w, items, i, changed);
        ghost var b := Here();
        if items[i].id in current {
          if !SameMeaning(before[items[i].id].item, items[i]) {
            changed := true;
            rows := rows[items[i].id := Row(w, items[i])];
            var _ := Advance(w, items[i].id);
          }
        } else {
          if Revision(Here(), w, items[i].id) > 0 {
            RefusalStays(was, w, items, i + 1);
            return false, changed;
          }
          changed := true;
          rows := rows[items[i].id := Row(w, items[i])];
        }
        assert ReplaceOne(b, w, items[i]) == Some(Here());
        i := i + 1;
      }
      assert items[..i] == items;
      ok := true;
    }

    method DeleteMissing(w: WorkId, gone: set<AnnId>) returns (changed: bool)
      requires gone <= Owned(Here(), w)
      modifies this`rows, this`revisions
      ensures Here() == DeletedAll(old(Here()), w, gone)
      ensures changed <==> gone != {}
    {
      var left := gone;
      ghost var was := Here();
      DeletedNone(was, w);
      changed := false;
      while left != {}
        invariant left <= gone && Here() == DeletedAll(was, w, gone - left)
        invariant changed <==> left != gone
      {
        var id :| id in left;
        DeletedOneMore(was, w, gone - left, id);
        assert gone - (left - {id}) == gone - left + {id};
        changed := true;
        rows := rows - {id};
        var _ := Advance(w, id);
        left := left - {id};
      }
      assert gone - left == gone;
    }

    /** The whole replacement in one transaction. */
    method Replace(w: WorkId, raw: seq<Raw>, base: Option<int>) returns (code: Code)
      modifies this
      ensures (Contents(), code) == ApplyReplace(old(Contents()), w, raw, base)
    {
      if w !in works { return EntityNotFound; }
      if base.Some? && base.value != works[w].canonical { return AnnotationSetStale; }
      if !ListValid(raw) { return Malformed; }
      var items := Items(raw);
      if !AllMine(Here(), w, items) { return AnnotationIdConflict; }
      DistinctItems(raw);
      var was := Contents();
      var gone := Owned(Here(), w) - Ids(items);
      var ok, changed := ReplaceItems(w, items);
      if !ok {
        Rollback(was);
        return AnnotationIdReused;
      }
      ghost var between := Here();
      StillOwned(was.body, w, items, between);
      var deleted := DeleteMissing(w, gone);
      ChangeShows(was, w, items, gone, between, if changed then 1 else 0);
      if changed || deleted { Bump(w); }
      code := Acknowledged;
    }

    // ---- Adoption of viewer markup -----------------------------------------

    method Adopt(w: WorkId, vs: seq<ViewerItem>) returns (code: Code, adopted: seq<AnnId>)
      modifies this
      ensures (Contents(), code) == ApplyAdopt(old(Contents()), w, vs)
      ensures Adoption(old(Contents()), w, vs, Contents(), code)
      ensures forall id :: id in adopted <==> code == Acknowledged && Wanted(old(Here()), w, vs, id)
      ensures Once(adopted)
    {
      ApplyAdoptIs(Contents(), w, vs);
      if w !in works { return EntityNotFound, []; }
      if works[w].Stale() { return MaterializationStale, []; }
      ghost var was := Here();
      code, adopted := AdoptItems(w, vs);
      if code != Acknowledged { return; }
      OwnedAreWanted(was, w, vs, Here());
      if adopted != [] {
        assert adopted[0] in adopted;
        Bump(w);
      }
    }

    method AdoptItems(w: WorkId, vs: seq<ViewerItem>) returns (code: Code, adopted: seq<AnnId>)
      modifies this`rows
      ensures match AdoptAll(old(Here()), w, vs)
              case Success(b) => code == Acknowledged && Here() == b
              case Failure(error) => code == error != Acknowledged && Here() == old(Here()) && adopted == []
      ensures code == Acknowledged ==> forall id :: id in adopted <==> id in Owned(Here(), w) - Owned(old(Here()), w)
      ensures adopted == [] ==> rows == old(rows)
      ensures Once(adopted)
    {
      adopted := [];
      var was := rows;
      var present, seen: set<AnnId> := Owned(Here(), w), {};
      var i := 0;
      while i < |vs|
        invariant 0 <= i <= |vs|
        invariant AdoptAll(old(Here()), w, vs[..i]) == Success(Here())
        invariant present == Owned(Here(), w) && Owned(old(Here()), w) <= present
        invariant forall id :: id in seen ==> id in present || Revision(Here(), w, id) > 0
        invariant forall id :: id in adopted <==> id in present - Owned(old(Here()), w)
        invariant Once(adopted)
        invariant adopted == [] ==> rows == was
      {
        var id := AnnotationId(vs[i].idFields);
        assert vs[..i + 1][..i] == vs[..i];
        IdsAgree(vs[i].idFields);
        if vs[i].userMarkup && id != "" && id !in seen {
          seen := seen + {id};
          if id !in present && Revision(Here(), w, id) == 0 {
            var normalized := Normalized(vs[i]);
            if id in rows || normalized.None? {
              code := if id in rows then AnnotationIdConflict else Malformed;
              AdoptRefusalStays(old(Here()), w, vs, i + 1);
              rows := was;
              return code, [];
            }
            OnceMore(adopted, id);
            rows := rows[normalized.value.id := Row(w, normalized.value)];
            adopted := adopted + [normalized.value.id];
            present := present + {normalized.value.id};
          }
        }
        i := i + 1;
      }
      assert vs[..i] == vs;
      code := Acknowledged;
    }

    // ---- Materialization ---------------------------------------------------

    /** Validates a claim and marks it in one transaction. */
    method ClaimAndMark(w: WorkId, claimed: Option<int>) returns (code: Code)
      modifies this`works
      ensures (Contents(), code) == ApplyClaim(old(Contents()), w, claimed)
    {
      if w !in works { return EntityNotFound; }
      if claimed.None? || claimed.value != works[w].canonical { return MaterializationStale; }
      code := Mark(w, claimed);
    }

    method Mark(w: WorkId, at: Option<int>) returns (code: Code)
      modifies this`works
      ensures (Contents(), code) == ApplyMark(old(Contents()), w, at)
    {
      if w !in works { return Acknowledged; }
      var revision := at.GetOr(works[w].canonical);
      if revision < 0 || revision > works[w].canonical { return MaterializationStale; }
      works := works[w := works[w].(materialized := revision)];
      code := Acknowledged;
    }
  }

  lemma StillOwned(was: Body, w: WorkId, items: seq<Item>, b: Body)
    requires ReplaceAll(was, w, items) == Some(b)
    ensures Owned(was, w) - Ids(items) <= Owned(b, w)
  {
    ReplaceAllFrame(was, w, items);
  }

  lemma {:induction false} AdoptRefusalStays(was: Body, w: WorkId, vs: seq<ViewerItem>, i: nat)
    requires i <= |vs| && AdoptAll(was, w, vs[..i]).Failure?
    ensures AdoptAll(was, w, vs) == AdoptAll(was, w, vs[..i])
    decreases |vs| - i
  {
    if i == |vs| {
      assert vs[..i] == vs;
    } else {
      assert vs[..i + 1][..i] == vs[..i];
      AdoptRefusalStays(was, w, vs, i + 1);
    }
  }
}
