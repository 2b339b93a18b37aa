/** What an adoption of viewer markup does, said over the whole viewer list and the rows
    it started from. */
module AnnotationAdoption {
  import opened Common
  import opened AnnotationStore

  /** The first usable id field of the item says `id`. */
  predicate ReadsAt(fields: seq<IdField>, k: nat, id: AnnId) {
    && k < |fields| && fields[k] == TextId(id) && id != ""
    && forall j :: 0 <= j < k ==> !fields[j].TextId? || fields[j].text == ""
  }

  predicate Reads(fields: seq<IdField>, id: AnnId) { exists k: nat :: k < |fields| && ReadsAt(fields, k, id) }

  /** Normalization reads it too: no field before it is of a type no id has. */
  predicate ReadsCleanly(fields: seq<IdField>, id: AnnId) {
    exists k: nat :: k < |fields| && ReadsAt(fields, k, id) && forall j :: 0 <= j < k ==> !fields[j].BadId?
  }

  /** User markup with an id the Work does not have and never had. */
  predicate Candidate(b: Body, w: WorkId, v: ViewerItem, id: AnnId) {
    && v.userMarkup && Reads(v.idFields, id)
    && !(id in b.rows && b.rows[id].work == w)
    && ((w, id) in b.revisions ==> b.revisions[(w, id)] == 0)
  }

  predicate Wanted(b: Body, w: WorkId, vs: seq<ViewerItem>, id: AnnId) { exists v :: v in vs && Candidate(b, w, v, id) }

  /** The first item that asks for `id`. */
  predicate First(b: Body, w: WorkId, vs: seq<ViewerItem>, k: nat, id: AnnId) {
    k < |vs| && Candidate(b, w, vs[k], id) && forall j :: 0 <= j < k ==> !Candidate(b, w, vs[j], id)
  }

  predicate Normal(v: ViewerItem, id: AnnId) { v.content.Some? && ReadsCleanly(v.idFields, id) }

  /** The item that first asks for some id cannot have it, or cannot be normalized. */
  ghost predicate RefusedAt(b: Body, w: WorkId, vs: seq<ViewerItem>, k: nat, code: Code) {
    exists id :: First(b, w, vs, k, id) &&
                 if id in b.rows then code == AnnotationIdConflict else code == Malformed && !Normal(vs[k], id)
  }

  ghost predicate NoneRefused(b: Body, w: WorkId, vs: seq<ViewerItem>, n: nat) {
    forall k: nat, code :: k < n ==> !RefusedAt(b, w, vs, k, code)
  }

  /** The rows that were there, and one new row for each id asked for: the content of
      the first item that asked. */
  ghost predicate AdoptsExactly(b: Body, w: WorkId, vs: seq<ViewerItem>, b': Body) {
    && b'.revisions == b.revisions
    && (forall id :: id in b'.rows <==> id in b.rows || Wanted(b, w, vs, id))
    && (forall id :: id in b.rows ==> b'.rows[id] == b.rows[id])
    && (forall k: nat, id :: First(b, w, vs, k, id) ==>
          && id !in b.rows && id in b'.rows && vs[k].content.Some?
          && b'.rows[id] == Row(w, Item(id, vs[k].content.value.0, vs[k].content.value.1)))
  }

  // ---- Ids -----------------------------------------------------------------

  lemma {:induction false} AnnotationIdReads(fields: seq<IdField>, id: AnnId)
    ensures Reads(fields, id) <==> id != "" && AnnotationId(fields) == id
  {
    if fields != [] {
      AnnotationIdReads(fields[1..], id);
      if k: nat :| k < |fields| && ReadsAt(fields, k, id) {
        if k > 0 { assert !fields[0].TextId? || fields[0].text == ""; assert ReadsAt(fields[1..], k - 1, id); }
      }
      if fields[0] == TextId(id) && id != "" { assert ReadsAt(fields, 0, id); }
      if k: nat :| k < |fields[1..]| && ReadsAt(fields[1..], k, id) && !(fields[0].TextId? && fields[0].text != "") {
        assert ReadsAt(fields, k + 1, id);
      }
    }
  }

  lemma {:induction false} CanonicalIdReads(fields: seq<IdField>, id: AnnId)
    requires id != ""
    ensures ReadsCleanly(fields, id) <==> CanonicalId(fields) == Some(id)
  {
    if fields != [] {
      var rest := fields[1..];
      CanonicalIdReads(rest, id);
      if k: nat :| k < |fields| && ReadsAt(fields, k, id) && forall j :: 0 <= j < k ==> !fields[j].BadId? {
        if k > 0 {
          assert !fields[0].BadId? && (!fields[0].TextId? || fields[0].text == "");
          assert ReadsAt(rest, k - 1, id) && forall j :: 0 <= j < k - 1 ==> !rest[j].BadId?;
        }
      }
      if fields[0] == TextId(id) { assert ReadsAt(fields, 0, id); }
      if k: nat :| k < |rest| && ReadsAt(rest, k, id) && (forall j :: 0 <= j < k ==> !rest[j].BadId?) && (fields[0] == NoId || fields[0] == TextId("")) {
        assert ReadsAt(fields, k + 1, id) && forall j :: 0 <= j < k + 1 ==> !fields[j].BadId?;
      }
    }
  }

  // ---- The whole list ------------------------------------------------------

  lemma {:induction false} FirstExists(b: Body, w: WorkId, vs: seq<ViewerItem>, id: AnnId) returns (k: nat)
    requires Wanted(b, w, vs, id)
    ensures First(b, w, vs, k, id)
  {
    k := 0;
    while !Candidate(b, w, vs[k], id)
      invariant k < |vs| && forall j :: 0 <= j < k ==> !Candidate(b, w, vs[j], id)
      decreases |vs| - k
    {
      var v :| v in vs && Candidate(b, w, v, id);
      var j :| 0 <= j < |vs| && vs[j] == v;
      assert k != j;
      assert j > k;
      k := k + 1;
    }
  }

  lemma {:induction false} FirstInPrefix(b: Body, w: WorkId, vs: seq<ViewerItem>, n: nat, k: nat, id: AnnId)
    requires k < n <= |vs|
    ensures First(b, w, vs[..n], k, id) <==> First(b, w, vs, k, id)
  {
    assert forall j :: 0 <= j <= k ==> vs[..n][j] == vs[j];
  }

  lemma {:induction false} RefusedInPrefix(b: Body, w: WorkId, vs: seq<ViewerItem>, n: nat, k: nat, code: Code)
    requires k < n <= |vs|
    ensures RefusedAt(b, w, vs[..n], k, code) <==> RefusedAt(b, w, vs, k, code)
  {
    forall id ensures First(b, w, vs[..n], k, id) <==> First(b, w, vs, k, id) { FirstInPrefix(b, w, vs, n, k, id); }
  }

  /** The last item, after the others were adopted. */
  lemma {:induction false} LastItem(b: Body, w: WorkId, vs: seq<ViewerItem>, b': Body)
    requires vs != [] && AdoptsExactly(b, w, vs[..|vs| - 1], b')
    ensures var n := |vs| - 1; var id := AnnotationId(vs[n].idFields);
      var isNew := vs[n].userMarkup && id != "" && !Present(b', w, id) && Revision(b', w, id) == 0;
      && (isNew <==> First(b, w, vs, n, id))
      && (forall x :: First(b, w, vs, n, x) ==> x == id)
      && (isNew ==> (id in b'.rows <==> id in b.rows))
  {
    var n := |vs| - 1;
    var id := AnnotationId(vs[n].idFields);
    forall x ensures Reads(vs[n].idFields, x) <==> x != "" && x == id { AnnotationIdReads(vs[n].idFields, x); }
    forall x ensures Wanted(b, w, vs[..n], x) <==> exists j :: 0 <= j < n && Candidate(b, w, vs[j], x) {
      if j :| 0 <= j < n && Candidate(b, w, vs[j], x) { assert vs[..n][j] in vs[..n]; }
    }
    if Wanted(b, w, vs[..n], id) {
      var k := FirstExists(b, w, vs[..n], id);
      assert b'.rows[id].work == w;
    }
  }

  lemma {:induction false} WantedMore(b: Body, w: WorkId, vs: seq<ViewerItem>, id: AnnId)
    requires vs != []
    ensures Wanted(b, w, vs, id) <==> Wanted(b, w, vs[..|vs| - 1], id) || First(b, w, vs, |vs| - 1, id)
  {
    var n := |vs| - 1;
    assert vs == vs[..n] + [vs[n]];
    if Wanted(b, w, vs, id) && !Wanted(b, w, vs[..n], id) {
      forall j | 0 <= j < n ensures !Candidate(b, w, vs[j], id) { assert vs[..n][j] in vs[..n]; }
    }
  }

  /** An adoption is refused if and only if some item asks first for an id it cannot
      have, at the first such item and with its code; otherwise it adopts exactly what
      was asked for. */
  lemma {:induction false} AdoptionIs(b: Body, w: WorkId, vs: seq<ViewerItem>)
    ensures AdoptAll(b, w, vs).Success? <==> NoneRefused(b, w, vs, |vs|)
    ensures AdoptAll(b, w, vs).Success? ==> AdoptsExactly(b, w, vs, AdoptAll(b, w, vs).value)
    ensures AdoptAll(b, w, vs).Failure? ==>
              exists k: nat :: k < |vs| && RefusedAt(b, w, vs, k, AdoptAll(b, w, vs).error) && NoneRefused(b, w, vs, k)
  {
    if vs != [] {
      var n := |vs| - 1;
      AdoptionIs(b, w, vs[..n]);
      forall k: nat, code | k < n ensures RefusedAt(b, w, vs[..n], k, code) <==> RefusedAt(b, w, vs, k, code) {
        RefusedInPrefix(b, w, vs, n, k, code);
      }
      if AdoptAll(b, w, vs[..n]).Success? {
        OneMore(b, w, vs, AdoptAll(b, w, vs[..n]).value);
      } else {
        var k: nat :| k < n && RefusedAt(b, w, vs[..n], k, AdoptAll(b, w, vs[..n]).error) && NoneRefused(b, w, vs[..n], k);
        assert RefusedAt(b, w, vs, k, AdoptAll(b, w, vs).error);
      }
    }
  }

  lemma {:induction false} OneMore(b: Body, w: WorkId, vs: seq<ViewerItem>, b': Body)
    requires vs != [] && AdoptsExactly(b, w, vs[..|vs| - 1], b')
    ensures var n := |vs| - 1;
      match AdoptOne(b', w, vs[n])
      case Success(b'') => AdoptsExactly(b, w, vs, b'') && forall code :: !RefusedAt(b, w, vs, n, code)
      case Failure(code) => RefusedAt(b, w, vs, n, code)
  {
    var n := |vs| - 1;
    var id := AnnotationId(vs[n].idFields);
    LastItem(b, w, vs, b');
    if First(b, w, vs, n, id) {
      CanonicalIdReads(vs[n].idFields, id);
      IdsAgree(vs[n].idFields);
      if id !in b'.rows && Normal(vs[n], id) {
        assert Normalized(vs[n]) == Some(Item(id, vs[n].content.value.0, vs[n].content.value.1));
        AddedOne(b, w, vs, n, b', id);
      }
    } else {
      KeptAll(b, w, vs, n, b');
    }
  }

  lemma {:induction false} KeptAll(b: Body, w: WorkId, vs: seq<ViewerItem>, n: nat, b': Body)
    requires n + 1 == |vs| && AdoptsExactly(b, w, vs[..n], b') && forall x :: !First(b, w, vs, n, x)
    ensures AdoptsExactly(b, w, vs, b')
  {
    forall x ensures Wanted(b, w, vs, x) <==> Wanted(b, w, vs[..n], x) { WantedMore(b, w, vs, x); }
    forall k: nat, x | First(b, w, vs, k, x) ensures First(b, w, vs[..n], k, x) && vs[..n][k] == vs[k] {
      FirstInPrefix(b, w, vs, n, k, x);
    }
  }

  lemma {:induction false} AddedOne(b: Body, w: WorkId, vs: seq<ViewerItem>, n: nat, b': Body, id: AnnId)
    requires n + 1 == |vs| && AdoptsExactly(b, w, vs[..n], b')
    requires First(b, w, vs, n, id) && (forall x :: First(b, w, vs, n, x) ==> x == id)
    requires id !in b'.rows && vs[n].content.Some?
    ensures AdoptsExactly(b, w, vs, Inserted(b', w, Item(id, vs[n].content.value.0, vs[n].content.value.1)))
  {
    forall x ensures Wanted(b, w, vs, x) <==> Wanted(b, w, vs[..n], x) || x == id { WantedMore(b, w, vs, x); }
    forall k: nat, x | First(b, w, vs, k, x) && k < n ensures First(b, w, vs[..n], k, x) && vs[..n][k] == vs[k] && x != id {
      FirstInPrefix(b, w, vs, n, k, x);
      assert First(b, w, vs[..n], k, x);
      assert x in b'.rows;
    }
  }

  /** An adoption over the store: when each answer is given, the new rows, and the
      generation, which moves by one if any row was added. */
  ghost predicate Adoption(s: Store, w: WorkId, vs: seq<ViewerItem>, s': Store, code: Code) {
    if w !in s.works then code == EntityNotFound && s' == s
    else if s.works[w].canonical > s.works[w].materialized then code == MaterializationStale && s' == s
    else if !NoneRefused(s.body, w, vs, |vs|) then
      s' == s && exists k: nat :: k < |vs| && RefusedAt(s.body, w, vs, k, code) && NoneRefused(s.body, w, vs, k)
    else
      && code == Acknowledged && AdoptsExactly(s.body, w, vs, s'.body)
      && s'.works == if exists id :: Wanted(s.body, w, vs, id)
                     then s.works[w := Generations(s.works[w].canonical + 1, s.works[w].materialized)] else s.works
  }

  lemma {:induction false} ApplyAdoptIs(s: Store, w: WorkId, vs: seq<ViewerItem>)
    ensures Adoption(s, w, vs, ApplyAdopt(s, w, vs).0, ApplyAdopt(s, w, vs).1)
  {
    AdoptionIs(s.body, w, vs);
    if AdoptAll(s.body, w, vs).Success? {
      var b := AdoptAll(s.body, w, vs).value;
      if id :| Wanted(s.body, w, vs, id) {
        var k := FirstExists(s.body, w, vs, id);
        assert id in b.rows && id !in s.body.rows;
      } else {
        assert b.rows == s.body.rows;
      }
    }
  }

  /** The rows a Work gained are the ones asked for. */
  lemma {:induction false} OwnedAreWanted(b: Body, w: WorkId, vs: seq<ViewerItem>, b': Body)
    requires AdoptAll(b, w, vs) == Success(b')
    ensures forall id :: Wanted(b, w, vs, id) <==> id in Owned(b', w) - Owned(b, w)
  {
    AdoptionIs(b, w, vs);
    forall id | Wanted(b, w, vs, id) ensures id in Owned(b', w) - Owned(b, w) {
      var k := FirstExists(b, w, vs, id);
    }
  }

  predicate Once(ids: seq<AnnId>) { forall i, j :: 0 <= i < j < |ids| ==> ids[i] != ids[j] }

  lemma {:induction false} OnceMore(ids: seq<AnnId>, id: AnnId)
    requires Once(ids) && id !in ids
    ensures Once(ids + [id])
  {
  }
}
