/** The library tables as the statements and triggers change them. */
module WorkLibrary {
  import opened Common
  import opened WorkViews
  import opened WorkTriggers
  import opened WorkTables
  import opened WorkColumns

  lemma UnmovedHoldsNone(t: Tables, w: WorkId, v: WorkId)
    requires Unmoved(t) && v != w
    ensures !HoldsAssetOf(t, w, v)
  {
    forall id | id in t.assets && t.assets[id].work == w ensures !OriginRow(t.assets[id].origin, v) {
      assert t.assets[id].origin in {None, Some(t.assets[id].work)};
    }
  }

  /** Where every origin Asset stayed with its Work, every deletion is allowed. */
  lemma UnmovedAllowsDeletion(t: Tables, w: WorkId)
    requires Unmoved(t)
    ensures DeletionAllowed(t, w) && Unmoved(WorkDeleted(t, w))
  {
    forall v | v != w ensures !HoldsAssetOf(t, w, v) { UnmovedHoldsNone(t, w, v); }
  }

  /** No view reads the annotations. */
  lemma AnnotationsUnread(t: Tables, t1: Tables)
    requires t1 == t.(annotations := t1.annotations)
    ensures Parity(t) ==> Parity(t1)
  {
    SameAssetsViews(t, t1);
    forall v ensures HasOwnedManifestation(t1, v) <==> HasOwnedManifestation(t, v) { SameOrigin(t, t1, v); }
    if Parity(t) {
      forall id | id in t1.manifestations ensures ManifestationCurrent(t1, id) { assert ManifestationCurrent(t, id); }
      forall id | id in t1.assets ensures AssetCurrent(t1, id) { assert AssetCurrent(t, id); }
      forall v | v in t1.works ensures AssetPresent(t1, v) { assert AssetPresent(t, v); }
    }
  }

  lemma InsertUnread(t: Tables, t1: Tables, w: WorkId, asset: RowId)
    requires Keys(t) && t1 == t.(annotations := t1.annotations)
    ensures InsertAsset(t1, w, asset, false) == InsertAsset(t, w, asset, false).(annotations := t1.annotations)
  {
    SameAssetsViews(t, t1);
    SameOrigin(t, t1, w);
    if InsertsAsset(t, w, false) {
      assert Origin(t1, w) == Origin(t, w) by {
        assert OwnedManifestation(t, Origin(t1, w), w) && OwnedManifestation(t, Origin(t, w), w);
      }
      WithAssetUnread(t, t1, w, asset, Origin(t, w));
    }
  }

  lemma WithAssetUnread(t: Tables, t1: Tables, w: WorkId, asset: RowId, m: RowId)
    requires t1 == t.(annotations := t1.annotations) && w in t.works && m in t.manifestations
    ensures WithAsset(t1, w, asset, m) == WithAsset(t, w, asset, m).(annotations := t1.annotations)
  {
    var u, u1 := RowInserted(t, w, asset, m), RowInserted(t1, w, asset, m);
    assert u1 == u.(annotations := t1.annotations);
    SameAssetsViews(u, u1);
  }

  /** Some Asset began with Work `w`, whoever owns it now. */
  predicate BeganAsset(t: Tables, w: WorkId) { exists id :: id in t.assets && t.assets[id].origin == Some(w) }

  lemma BeganIs(t: Tables, w: WorkId)
    ensures BeganAsset(t, w) <==> HasOriginAsset(t, w)
  {
    if id :| id in t.assets && t.assets[id].origin == Some(w) { assert OriginRow(t.assets[id].origin, w); }
  }

  /** The same rows, whatever they hold. */
  ghost predicate SameIds(t: Tables, t1: Tables) {
    && t1.works == t.works && t1.inferred == t.inferred
    && t1.manifestations.Keys == t.manifestations.Keys && t1.assets.Keys == t.assets.Keys
  }

  lemma {:induction false} ProjectionsKeepRows(t: Tables, w: WorkId)
    requires w in t.works
    ensures SameIds(t, ProjectManifestation(t, w)) && SameIds(t, ProjectAsset(t, w))
  {
  }

  predicate NeedsInsert(t: Tables, w: WorkId, row: Work) {
    AssetWorthy(row, Inferred(t, w)) && HasOwnedManifestation(t, w) && !BeganAsset(t, w)
  }

  lemma {:induction false} WithAssetRows(t: Tables, w: WorkId, asset: RowId, m: RowId)
    requires w in t.works && m in t.manifestations
    ensures var t1 := WithAsset(t, w, asset, m);
      && t1.works == t.works && t1.inferred == t.inferred
      && t1.manifestations.Keys == t.manifestations.Keys && t1.assets.Keys == t.assets.Keys + {asset}
  {
    ProjectionsKeepRows(RowInserted(t, w, asset, m), w);
  }

  lemma {:induction false} InsertAssetRows(t: Tables, w: WorkId, asset: RowId)
    requires Keys(t) && w in t.works
    ensures var t1 := InsertAsset(t, w, asset, true);
      && t1.works == t.works && t1.inferred == t.inferred && t1.manifestations.Keys == t.manifestations.Keys
      && t1.assets.Keys == t.assets.Keys + (if NeedsInsert(t, w, t.works[w]) then {asset} else {})
  {
    BeganIs(t, w);
    ViewHolds(t.works[w], Inferred(t, w));
    if InsertsAsset(t, w, true) { WithAssetRows(t, w, asset, Origin(t, w)); }
  }

  lemma {:induction false} UpdatedRows(t: Tables, w: WorkId, cols: set<Column>, row: Work, asset: RowId)
    requires Parity(t) && w in t.works && row.primaryManifestation == t.works[w].primaryManifestation
    ensures var t1 := WorkUpdated(t, w, cols, row, asset);
      && t1.works == t.works[w := row] && t1.manifestations.Keys == t.manifestations.Keys
      && t1.assets.Keys == t.assets.Keys + (if cols * ASSET_COLUMNS != {} && NeedsInsert(t, w, row) then {asset} else {})
  {
    var t1 := RowSet(t, w, row);
    RowSetParity(t, w, row);
    assert NeedsInsert(t1, w, row) <==> NeedsInsert(t, w, row) by { NeedsAlike(t, w, row); }
    if cols * ASSET_COLUMNS != {} {
      AssetTriggerRows(t1, w, asset);
    } else {
      ProjectionsKeepRows(t1, w);
    }
  }

  lemma {:induction false} NeedsAlike(t: Tables, w: WorkId, row: Work)
    ensures NeedsInsert(RowSet(t, w, row), w, row) <==> NeedsInsert(t, w, row)
  {
    SameOrigin(t, RowSet(t, w, row), w);
  }

  lemma {:induction false} AssetTriggerRows(t: Tables, w: WorkId, asset: RowId)
    requires Keys(t) && w in t.works
    ensures var t1 := AssetTrigger(t, w, asset);
      && t1.works == t.works && t1.manifestations.Keys == t.manifestations.Keys
      && t1.assets.Keys == t.assets.Keys + (if NeedsInsert(t, w, t.works[w]) then {asset} else {})
  {
    var t1 := InsertAsset(t, w, asset, true);
    InsertAssetRows(t, w, asset);
    ProjectionsKeepRows(t1, w);
    ProjectionsKeepRows(ProjectAsset(t1, w), w);
  }

  lemma {:induction false} InsertedRows(t: Tables, w: WorkId, row: Work, mf: RowId, asset: RowId)
    requires Parity(t) && w !in t.works && mf !in t.manifestations && asset !in t.assets
    requires forall id :: id in t.manifestations ==> t.manifestations[id].origin != Some(w)
    ensures var t1 := WorkInserted(t, w, row, mf, asset);
      && t1.works == t.works[w := row.(primaryManifestation := Some(mf))] && t1.inferred == t.inferred
      && t1.manifestations.Keys == t.manifestations.Keys + {mf}
      && t1.assets.Keys == t.assets.Keys + (if AssetWorthy(row, None) && !BeganAsset(t, w) then {asset} else {})
  {
    var t1 := OriginInserted(t, w, row, mf);
    OriginInsertedParity(t, w, row, mf);
    assert Inferred(t1, w) == None && (BeganAsset(t1, w) <==> BeganAsset(t, w));
    ViewHolds(row, None);
    ViewHolds(t1.works[w], None);
    InsertAssetRows(t1, w, asset);
  }

  predicate OwnsOriginAsset(t: Tables, w: WorkId) { exists a :: a in t.assets && OwnedAsset(t, a, w) }

  /** The annotation row is there, on the origin Asset of its Work if the Work still owns
      it, and on none otherwise. */
  ghost predicate Attached(t: Tables, t1: Tables, id: RowId, w: WorkId, target: Option<RowId>) {
    && t1 == t.(annotations := t.annotations[id := Annotation(w, target)])
    && (if OwnsOriginAsset(t, w) then target.Some? && target.value in t.assets && OwnedAsset(t, target.value, w) else target.None?)
  }

  lemma AttachedSince(s: Tables, t: Tables, t1: Tables, id: RowId, w: WorkId, target: Option<RowId>)
    requires t == s.(annotations := s.annotations[id := Annotation(w, None)]) && Attached(t, t1, id, w, target)
    ensures Attached(s, t1, id, w, target)
  {
    assert forall a :: a in s.assets ==> (OwnedAsset(t, a, w) <==> OwnedAsset(s, a, w));
    assert t1.annotations == s.annotations[id := Annotation(w, target)];
  }

  lemma UnattachedInsert(t: Tables, t1: Tables, w: WorkId, asset: RowId)
    requires Parity(t) && t1 == t.(annotations := t1.annotations) && w in t.works && asset !in t.assets
    ensures Keys(t1)
    ensures var t2 := InsertAsset(t1, w, asset, false);
      && Parity(t2)
      && t2 == InsertAsset(t, w, asset, false).(annotations := t1.annotations)
      && InsertAsset(t, w, asset, false).annotations == t.annotations
      && (HasOwnedManifestation(t, w) ==> HasOriginAsset(t2, w))
  {
    AnnotationsUnread(t, t1);
    InsertUnread(t, t1, w, asset);
    InsertedParity(t, t1, w, asset);
  }

  lemma InsertedParity(t: Tables, t1: Tables, w: WorkId, asset: RowId)
    requires Parity(t1) && t1 == t.(annotations := t1.annotations) && w in t.works && asset !in t.assets
    ensures Parity(InsertAsset(t1, w, asset, false))
    ensures HasOwnedManifestation(t, w) ==> HasOriginAsset(InsertAsset(t1, w, asset, false), w)
  {
    SameOrigin(t, t1, w);
    InsertAssetParity(t1, w, asset, false);
  }

  lemma SameOrigin(t: Tables, t1: Tables, v: WorkId)
    requires t1.manifestations == t.manifestations
    ensures HasOwnedManifestation(t1, v) <==> HasOwnedManifestation(t, v)
  {
    forall id | id in t.manifestations ensures OwnedManifestation(t1, id, v) <==> OwnedManifestation(t, id, v) {}
  }

  // ---- Every Work owns its origin Manifestation ----------------------------

  ghost predicate Owning(t: Tables) { forall w :: w in t.works ==> HasOwnedManifestation(t, w) }

  /** Rows keep their owners and origins; a new Asset is with its origin Work. */
  ghost predicate SameOwners(t: Tables, t1: Tables) {
    && t1.works.Keys == t.works.Keys && t1.manifestations.Keys == t.manifestations.Keys
    && (forall id :: id in t.manifestations ==>
          t1.manifestations[id].work == t.manifestations[id].work && t1.manifestations[id].origin == t.manifestations[id].origin)
    && (forall id :: id in t1.assets ==>
          || t1.assets[id].origin == Some(t1.assets[id].work)
          || (id in t.assets && t1.assets[id].work == t.assets[id].work && t1.assets[id].origin == t.assets[id].origin))
  }

  /** What a statement keeps beside parity, in a library that has it. */
  ghost predicate Keeps(t: Tables, t1: Tables) {
    (Owning(t) ==> Owning(t1)) && (Unmoved(t) ==> Unmoved(t1))
  }

  lemma OwnersKept(t: Tables, t1: Tables)
    requires SameOwners(t, t1)
    ensures Keeps(t, t1)
  {
    if Owning(t) {
      forall w | w in t1.works ensures HasOwnedManifestation(t1, w) {
        assert HasOwnedManifestation(t, w);
        var id :| id in t.manifestations && OwnedManifestation(t, id, w);
        assert OwnedManifestation(t1, id, w);
      }
    }
  }

  lemma ManifestationWriteKeeps(t: Tables, id: RowId, biblio: Biblio, url: Text)
    requires id in t.manifestations
    ensures Keeps(t, t.(manifestations := t.manifestations[id := t.manifestations[id].(biblio := biblio, url := url)]))
  {
    OwnersKept(t, t.(manifestations := t.manifestations[id := t.manifestations[id].(biblio := biblio, url := url)]));
  }

  lemma AssetWriteKeeps(t: Tables, id: RowId, fields: AssetFields)
    requires id in t.assets
    ensures Keeps(t, t.(assets := t.assets[id := t.assets[id].(fields := fields)]))
  {
    OwnersKept(t, t.(assets := t.assets[id := t.assets[id].(fields := fields)]));
  }

  lemma InsertOwners(t: Tables, w: WorkId, asset: RowId, needsValue: bool)
    ensures SameOwners(t, InsertAsset(t, w, asset, needsValue))
  {
  }

  lemma AssetTriggerOwners(t: Tables, w: WorkId, asset: RowId)
    requires w in t.works
    ensures SameOwners(t, AssetTrigger(t, w, asset))
  {
    InsertOwners(t, w, asset, true);
  }

  lemma ProjectOwners(t: Tables, w: WorkId)
    requires w in t.works
    ensures SameOwners(t, ProjectManifestation(t, w))
  {
  }

  lemma UpdatedOwners(t: Tables, w: WorkId, cols: set<Column>, row: Work, asset: RowId)
    requires w in t.works
    ensures SameOwners(t, WorkUpdated(t, w, cols, row, asset))
  {
    var t1 := RowSet(t, w, row);
    AssetTriggerOwners(t1, w, asset);
    ProjectOwners(t1, w);
    SameRows(t, t1, WorkUpdated(t, w, cols, row, asset));
  }

  lemma SameRows(t: Tables, t1: Tables, t2: Tables)
    requires t1.works.Keys == t.works.Keys && t1.manifestations == t.manifestations && t1.assets == t.assets
    ensures SameOwners(t1, t2) ==> SameOwners(t, t2)
    ensures SameOwners(t, t1)
  {
  }

  lemma InsertedKeeps(t: Tables, w: WorkId, row: Work, mf: RowId, asset: RowId)
    requires w !in t.works && mf !in t.manifestations
    ensures Keeps(t, WorkInserted(t, w, row, mf, asset))
  {
    var t1 := OriginInserted(t, w, row, mf);
    if Owning(t) {
      forall v | v in t1.works ensures HasOwnedManifestation(t1, v) {
        if v == w {
          assert OwnedManifestation(t1, mf, w);
        } else {
          var id :| id in t.manifestations && OwnedManifestation(t, id, v);
          assert OwnedManifestation(t1, id, v);
        }
      }
    }
    InsertOwners(t1, w, asset, true);
    OwnersKept(t1, WorkInserted(t, w, row, mf, asset));
  }

  lemma DeletedKeeps(t: Tables, w: WorkId)
    ensures Keeps(t, WorkDeleted(t, w))
  {
    var t1 := WorkDeleted(t, w);
    if Owning(t) {
      forall v | v in t1.works ensures HasOwnedManifestation(t1, v) {
        var id :| id in t.manifestations && OwnedManifestation(t, id, v);
        assert OwnedManifestation(t1, id, v);
      }
    }
  }

  /** Then a Work with an asset value always has an origin Asset. */
  lemma ValueHasAsset(t: Tables, w: WorkId)
    requires Parity(t) && Owning(t) && w in t.works && HasAssetValue(t.works[w], Inferred(t, w))
    ensures HasOriginAsset(t, w)
  {
    assert AssetPresent(t, w);
  }

  /** One statement, with the random row ids its triggers would draw. */
  datatype Statement =
    | InsertWork(w: WorkId, row: Work, mf: RowId, asset: RowId)
    | UpdateWork(w: WorkId, cols: set<Column>, row: Work, assetFirst: bool, asset: RowId)
    | DeleteWork(w: WorkId)
    | InsertAnnotation(id: RowId, w: WorkId, annotated: Option<RowId>, asset: RowId)
    | InsertRevision(scope: RevisionScope, asset: RowId)
    | InsertInferred(w: WorkId, source: string, asset: RowId)
    | DeleteInferred(w: WorkId, asset: RowId)
    | UpdateManifestation(id: RowId, biblio: Biblio, url: Text)
    | UpdateAsset(id: RowId, fields: AssetFields)

  predicate Insertable(t: Tables, w: WorkId, row: Work, mf: RowId, asset: RowId) {
    && w !in t.works && row.primaryManifestation.None? && mf !in t.manifestations && asset !in t.assets
    && forall id :: id in t.manifestations ==> t.manifestations[id].origin != Some(w)
  }

  predicate Annotatable(t: Tables, id: RowId, w: WorkId, annotated: Option<RowId>, asset: RowId) {
    && w in t.works && id !in t.annotations && asset !in t.assets
    && (annotated.Some? ==> annotated.value in t.assets && t.assets[annotated.value].work == w)
  }

  ghost predicate AnnotationEffect(t: Tables, id: RowId, w: WorkId, annotated: Option<RowId>, asset: RowId, t1: Tables) {
    if !Annotatable(t, id, w, annotated, asset) then t1 == t
    else if annotated.Some? then t1 == t.(annotations := t.annotations[id := Annotation(w, annotated)])
    else exists target :: Attached(InsertAsset(t, w, asset, false), t1, id, w, target)
  }

  lemma {:induction false} AnnotationKeeps(t: Tables, id: RowId, w: WorkId, annotated: Option<RowId>, asset: RowId)
    requires Keys(t)
    ensures forall t1 :: AnnotationEffect(t, id, w, annotated, asset, t1) ==> Keeps(t, t1)
  {
    InsertOwners(t, w, asset, false);
    forall t1 | AnnotationEffect(t, id, w, annotated, asset, t1) ensures Keeps(t, t1) {
      if Annotatable(t, id, w, annotated, asset) && annotated.None? {
        var target :| Attached(InsertAsset(t, w, asset, false), t1, id, w, target);
        OwnersKept(t, t1);
      } else {
        OwnersKept(t, t1);
      }
    }
  }

  /** What statement `s` does to the tables and the revision scopes: its whole effect
      where it is accepted, and nothing where it is refused. */
  ghost predicate Effect(t: Tables, rs: set<RevisionScope>, s: Statement, t1: Tables, rs1: set<RevisionScope>) {
    match s
    case InsertWork(w, row, mf, asset) =>
      rs1 == rs && t1 == if Insertable(t, w, row, mf, asset) then WorkInserted(t, w, row, mf, asset) else t
    case UpdateWork(w, cols, row, _, asset) =>
      rs1 == rs && t1 == if w in t.works && SetsOnly(t.works[w], row, cols) && asset !in t.assets
                         then WorkUpdated(t, w, cols, row, asset) else t
    case DeleteWork(w) => rs1 == rs && t1 == WorkDeleted(t, w)
    case InsertAnnotation(id, w, annotated, asset) =>
      rs1 == rs && AnnotationEffect(t, id, w, annotated, asset, t1)
    case InsertRevision(scope, asset) =>
      if asset in t.assets then t1 == t && rs1 == rs
      else
        && rs1 == rs + {scope}
        && t1 == if scope !in rs && ScopeNeedsAsset(scope) then InsertAsset(t, scope.work, asset, false) else t
    case InsertInferred(w, url, asset) =>
      rs1 == rs && t1 == if w in t.works && w !in t.inferred && asset !in t.assets
                         then AssetTrigger(t.(inferred := t.inferred[w := url]), w, asset) else t
    case DeleteInferred(w, asset) =>
      rs1 == rs && (if w in t.works && w in t.inferred && asset !in t.assets
                    then t1 == AssetTrigger(t.(inferred := t.inferred - {w}), w, asset) else t1 == t)
    case UpdateManifestation(id, biblio, url) =>
      rs1 == rs && t1 == if id in t.manifestations && ManifestationWriteAllowed(t, id, biblio, url)
                         then t.(manifestations := t.manifestations[id := t.manifestations[id].(biblio := biblio, url := url)])
                         else t
    case UpdateAsset(id, fields) =>
      rs1 == rs && t1 == if id in t.assets && AssetWriteAllowed(t, id, fields)
                         then t.(assets := t.assets[id := t.assets[id].(fields := fields)]) else t
  }

  /** The tables and scopes at the moments of a run. */
  type Moment = (Tables, set<RevisionScope>)

  ghost predicate Stepped(a: Moment, s: Statement, b: Moment) { Effect(a.0, a.1, s, b.0, b.1) }

  ghost predicate Course(moments: seq<Moment>, statements: seq<Statement>) {
    && |moments| == |statements| + 1
    && forall i :: 0 <= i < |statements| ==> Stepped(moments[i], statements[i], moments[i + 1])
  }

  lemma {:induction false} CourseGrows(moments: seq<Moment>, statements: seq<Statement>, n: nat, next: Moment)
    requires n < |statements| && Course(moments, statements[..n]) && Stepped(moments[n], statements[n], next)
    ensures Course(moments + [next], statements[..n + 1])
  {
  }

  class Library {
    var works: map<WorkId, Work>
    var manifestations: map<RowId, Manifestation>
    var assets: map<RowId, Asset>
    var inferred: map<WorkId, string>
    var annotations: map<RowId, Annotation>
    var revisions: set<RevisionScope>

    function Contents(): Tables
      reads this
    {
      Tables(works, manifestations, assets, inferred, annotations)
    }

    ghost predicate Valid()
      reads this
    {
      Parity(Contents())
    }

    constructor ()
      ensures Valid() && Owning(Contents()) && Unmoved(Contents())
      ensures Contents() == Tables(map[], map[], map[], map[], map[]) && revisions == {}
    {
      works, manifestations, assets, inferred, annotations, revisions := map[], map[], map[], map[], map[], {};
    }

    // ---- Triggers ----------------------------------------------------------

    /** `works_mirror_manifestation_au`: one row at most has this origin. */
    method FireManifestationUpdate(w: WorkId)
      requires w in works
      modifies this`manifestations
      ensures Contents() == ProjectManifestation(old(Contents()), w)
    {
      var url := ManifestationUrl(Contents(), w);
      manifestations := map id | id in manifestations ::
        if OwnedManifestation(Contents(), id, w)
        then manifestations[id].(biblio := works[w].biblio, url := url)
        else manifestations[id];
    }

    method ProjectAssetRow(w: WorkId)
      requires w in works
      modifies this`assets
      ensures Contents() == ProjectAsset(old(Contents()), w)
    {
      var fields := AssetView(works[w], Inferred(Contents(), w));
      assets := map id | id in assets ::
        if OwnedAsset(Contents(), id, w) then assets[id].(fields := fields) else assets[id];
    }

    /** INSERT INTO assets ... SELECT FROM the view, and `assets_mirror_ai` after it. */
    method InsertAssetFromView(w: WorkId, asset: RowId, needsValue: bool)
      requires Keys(Contents())
      modifies this`assets, this`manifestations
      ensures Contents() == InsertAsset(old(Contents()), w, asset, needsValue)
    {
      if !InsertsAsset(Contents(), w, needsValue) { return; }
      var m :| m in manifestations && OwnedManifestation(Contents(), m, w);
      assert m == Origin(Contents(), w) by {
        assert OwnedManifestation(Contents(), Origin(Contents(), w), w);
      }
      assets := assets[asset := Asset(m, w, Some(w), AssetView(works[w], Inferred(Contents(), w)))];
      if manifestations[m].primaryAsset.None? {
        manifestations := manifestations[m := manifestations[m].(primaryAsset := Some(asset))];
      }
      assert Contents().manifestations == RowInserted(old(Contents()), w, asset, m).manifestations;
      FireManifestationUpdate(w);
    }

    /** `works_mirror_asset_au`, and the bodies of both inferred-URL triggers. */
    method FireAssetUpdate(w: WorkId, asset: RowId)
      requires w in works && Keys(Contents())
      modifies this`assets, this`manifestations
      ensures Contents() == AssetTrigger(old(Contents()), w, asset)
    {
      InsertAssetFromView(w, asset, true);
      ProjectAssetRow(w);
      FireManifestationUpdate(w);
    }

    // ---- Statements: true when done, false when aborted with no change ------

    method DoInsertWork(w: WorkId, row: Work, mf: RowId, asset: RowId) returns (ok: bool)
      requires Valid()
      modifies this`works, this`manifestations, this`assets
      ensures Valid() && (!ok ==> Contents() == old(Contents()))
      ensures ok ==> Contents() == WorkInserted(old(Contents()), w, row, mf, asset)
      ensures ok <==> w !in old(works) && row.primaryManifestation.None? && mf !in old(manifestations)
                        && asset !in old(assets)
                        && forall id :: id in old(manifestations) ==> old(manifestations)[id].origin != Some(w)
      ensures ok ==> works == old(works)[w := row.(primaryManifestation := Some(mf))] && inferred == old(inferred)
      ensures ok ==> Mirrored(Contents(), w) && manifestations.Keys == old(manifestations).Keys + {mf}
      ensures ok ==>
                assets.Keys == old(assets).Keys +
                               (if AssetWorthy(row, None) && !BeganAsset(old(Contents()), w) then {asset} else {})
    {
      if w in works || row.primaryManifestation.Some? || mf in manifestations || asset in assets {
        return false;
      }
      if exists id :: id in manifestations && manifestations[id].origin == Some(w) { return false; }
      WorkInsertedParity(Contents(), w, row, mf, asset);
      OriginInsertedParity(Contents(), w, row, mf);
      InsertedRows(Contents(), w, row, mf, asset);
      ParityMirrors(WorkInserted(Contents(), w, row, mf, asset), w);
      InsertOrigin(w, row, mf);
      InsertAssetFromView(w, asset, true);
      return true;
    }

    /** The Work row, its origin Manifestation from the view, then the pointer. */
    method InsertOrigin(w: WorkId, row: Work, mf: RowId)
      requires w !in works && mf !in manifestations
      modifies this`works, this`manifestations
      ensures Contents() == OriginInserted(old(Contents()), w, row, mf)
    {
      ghost var t := Contents();
      works := works[w := row];
      SameAssetsViews(t, Contents());
      manifestations := manifestations[mf := Manifestation(w, Some(w), row.biblio, ManifestationUrl(Contents(), w), None)];
      works := works[w := works[w].(primaryManifestation := Some(mf))];
      assert works == t.works[w := row.(primaryManifestation := Some(mf))];
      SameAssetsViews(t, t.(works := works));
    }

    /** The result does not depend on which trigger fires first. */
    method DoUpdateWork(w: WorkId, cols: set<Column>, row: Work, assetFirst: bool, asset: RowId) returns (ok: bool)
      requires Valid()
      modifies this`works, this`assets, this`manifestations
      ensures Valid() && (!ok ==> Contents() == old(Contents()))
      ensures ok ==> Contents() == WorkUpdated(old(Contents()), w, cols, row, asset)
      ensures ok <==> w in old(works) && SetsOnly(old(works)[w], row, cols) && asset !in old(assets)
      ensures ok ==> works == old(works)[w := row] && Mirrored(Contents(), w)
      ensures ok ==> manifestations.Keys == old(manifestations).Keys
      ensures ok ==>
                assets.Keys == old(assets).Keys +
                               (if cols * ASSET_COLUMNS != {} && NeedsInsert(old(Contents()), w, row) then {asset} else {})
    {
      if w !in works || !SetsOnly(works[w], row, cols) || asset in assets { return false; }
      ghost var before := Contents();
      WorkUpdatedParity(before, w, cols, row, asset);
      ParityMirrors(WorkUpdated(before, w, cols, row, asset), w);
      UpdatedRows(before, w, cols, row, asset);
      RowSetParity(before, w, row);
      works := works[w := row];
      ghost var set_ := Contents();
      var manifestationFires := cols * MANIFESTATION_COLUMNS != {};
      var assetFires := cols * ASSET_COLUMNS != {};
      if assetFirst {
        if assetFires { FireAssetUpdate(w, asset); }
        if manifestationFires { FireManifestationUpdate(w); }
        if assetFires { ProjectTwice(ProjectAsset(InsertAsset(set_, w, asset, true), w), w); }
      } else {
        ProjectManifestationKeeps(set_, w);
        if manifestationFires { FireManifestationUpdate(w); }
        if assetFires { FireAssetUpdate(w, asset); }
        TriggerOrderIrrelevant(set_, w, asset);
        if assetFires { ProjectTwice(ProjectAsset(InsertAsset(set_, w, asset, true), w), w); }
      }
      return true;
    }

    /** DELETE FROM works, with its cascades. The inferred-URL trigger finds the Work
        already gone. */
    method DoDeleteWork(w: WorkId)
      requires Valid()
      modifies this`works, this`manifestations, this`assets, this`inferred, this`annotations
      ensures Contents() == WorkDeleted(old(Contents()), w)
      ensures Valid() <==> DeletionAllowed(old(Contents()), w)
    {
      WorkDeletedParity(Contents(), w);
      Cascade(w);
    }

    method Cascade(w: WorkId)
      modifies this`works, this`manifestations, this`assets, this`inferred, this`annotations
      ensures Contents() == WorkDeleted(old(Contents()), w)
    {
      works := works - {w};
      manifestations := map id | id in manifestations && manifestations[id].work != w :: manifestations[id];
      assets := map id | id in assets && assets[id].work != w :: assets[id];
      inferred := inferred - {w};
      annotations := map id | id in annotations && annotations[id].work != w :: annotations[id];
    }

    /** INSERT INTO annotations, and `annotations_mirror_asset_ai` when the row names
        no Asset: it ends up on the origin Asset of its Work. */
    method DoInsertAnnotation(id: RowId, w: WorkId, annotated: Option<RowId>, asset: RowId) returns (ok: bool)
      requires Valid()
      modifies this`assets, this`manifestations, this`annotations
      ensures Valid() && (ok <==> Annotatable(old(Contents()), id, w, annotated, asset))
      ensures AnnotationEffect(old(Contents()), id, w, annotated, asset, Contents())
      ensures ok && annotated.None? && HasOwnedManifestation(old(Contents()), w) ==> HasOriginAsset(Contents(), w)
    {
      if w !in works || id in annotations || asset in assets { return false; }
      if annotated.Some? && !(annotated.value in assets && assets[annotated.value].work == w) { return false; }
      if annotated.None? {
        InsertUnattached(id, w, asset);
      } else {
        ghost var t := Contents();
        annotations := annotations[id := Annotation(w, annotated)];
        AnnotationsUnread(t, Contents());
      }
      return true;
    }

    method InsertUnattached(id: RowId, w: WorkId, asset: RowId)
      requires Valid() && w in works && id !in annotations && asset !in assets
      modifies this`assets, this`manifestations, this`annotations
      ensures Valid()
      ensures exists target :: Attached(InsertAsset(old(Contents()), w, asset, false), Contents(), id, w, target)
      ensures HasOwnedManifestation(old(Contents()), w) ==> HasOriginAsset(Contents(), w)
    {
      UnattachedInsert(Contents(), Contents().(annotations := annotations[id := Annotation(w, None)]), w, asset);
      annotations := annotations[id := Annotation(w, None)];
      InsertAssetFromView(w, asset, false);
      ghost var t := Contents();
      AttachToOrigin(id, w);
      ghost var target :| Attached(t, Contents(), id, w, target);
      AttachedSince(InsertAsset(old(Contents()), w, asset, false), t, Contents(), id, w, target);
    }

    /** The second half of `annotations_mirror_asset_ai`. */
    method AttachToOrigin(id: RowId, w: WorkId)
      requires Valid() && id in annotations
      modifies this`annotations
      ensures Valid()
      ensures exists target :: Attached(old(Contents()), Contents(), id, w, target)
    {
      ghost var t := Contents();
      var target: Option<RowId> := None;
      if a :| a in assets && OwnedAsset(Contents(), a, w) { target := Some(a); }
      AnnotationsUnread(t, t.(annotations := annotations[id := Annotation(w, target)]));
      annotations := annotations[id := Annotation(w, target)];
      assert Attached(t, Contents(), id, w, target);
    }

    /** INSERT INTO sync_entity_revisions. An upsert that finds the row fires nothing. */
    method DoInsertRevision(scope: RevisionScope, asset: RowId) returns (ok: bool)
      requires Valid()
      modifies this`assets, this`manifestations, this`revisions
      ensures Valid() && (!ok ==> Contents() == old(Contents()) && revisions == old(revisions))
      ensures ok <==> asset !in old(assets)
      ensures ok ==> revisions == old(revisions) + {scope}
      ensures ok ==> Contents() == if scope !in old(revisions) && ScopeNeedsAsset(scope)
                                   then InsertAsset(old(Contents()), scope.work, asset, false) else old(Contents())
      ensures var needs := scope.WorkSourceScope? || scope.PdfAnnotationScope? || (scope.WorkFieldScope? && scope.field == "thumb_page");
        if ok && scope !in old(revisions) && needs
        then HasOwnedManifestation(old(Contents()), scope.work) ==> HasOriginAsset(Contents(), scope.work)
        else Contents() == old(Contents())
    {
      if asset in assets { return false; }
      if scope !in revisions && ScopeNeedsAsset(scope) && scope.work in works {
        InsertAssetParity(Contents(), scope.work, asset, false);
        InsertAssetFromView(scope.work, asset, false);
      } else if ScopeNeedsAsset(scope) && scope.work !in works {
        assert forall id :: id in manifestations ==> !OwnedManifestation(Contents(), id, scope.work);
      }
      revisions := revisions + {scope};
      return true;
    }

    method DoInsertInferred(w: WorkId, url: string, asset: RowId) returns (ok: bool)
      requires Valid()
      modifies this`inferred, this`assets, this`manifestations
      ensures Valid() && (!ok ==> Contents() == old(Contents()))
      ensures ok <==> w in old(works) && w !in old(inferred) && asset !in old(assets)
      ensures ok ==> Contents() == AssetTrigger(old(Contents()).(inferred := old(inferred)[w := url]), w, asset)
      ensures ok ==> works == old(works) && inferred == old(inferred)[w := url] && Mirrored(Contents(), w)
    {
      if w !in works || w in inferred || asset in assets { return false; }
      ghost var t := Contents();
      inferred := inferred[w := url];
      InferredParity(t, Contents(), w);
      AfterInferred(w, asset);
      ParityMirrors(Contents(), w);
      return true;
    }

    method DoDeleteInferred(w: WorkId, asset: RowId) returns (ok: bool)
      requires Valid()
      modifies this`inferred, this`assets, this`manifestations
      ensures Valid() && (!ok ==> Contents() == old(Contents()))
      ensures ok <==> asset !in old(assets)
      ensures ok && w !in old(inferred) ==> Contents() == old(Contents())
      ensures ok && w in old(inferred) ==> works == old(works) && inferred == old(inferred) - {w} && w in works && Mirrored(Contents(), w)
      ensures ok && w in old(inferred) ==> w in old(works) && Contents() == AssetTrigger(old(Contents()).(inferred := old(inferred) - {w}), w, asset)
    {
      if asset in assets { return false; }
      if w !in inferred { return true; }
      ghost var t := Contents();
      inferred := inferred - {w};
      InferredParity(t, Contents(), w);
      AfterInferred(w, asset);
      ParityMirrors(Contents(), w);
      return true;
    }

    method AfterInferred(w: WorkId, asset: RowId)
      requires w in works && asset !in assets && ParityExcept(Contents(), w)
      modifies this`assets, this`manifestations
      ensures Valid() && Contents() == AssetTrigger(old(Contents()), w, asset)
    {
      ghost var t := Contents();
      AssetTriggerParity(t, w, asset);
      FireAssetUpdate(w, asset);
    }

    // ---- Direct writes to mirrored columns ---------------------------------

    method DoUpdateManifestation(id: RowId, biblio: Biblio, url: Text) returns (ok: bool)
      requires Valid() && id in manifestations
      modifies this`manifestations
      ensures Valid() && (!ok ==> Contents() == old(Contents()))
      ensures ok <==> ManifestationWriteAllowed(old(Contents()), id, biblio, url)
      ensures ok ==> Contents() == old(Contents()).(manifestations :=
                old(manifestations)[id := old(manifestations)[id].(biblio := biblio, url := url)])
      ensures old(manifestations)[id].origin == Some(old(manifestations)[id].work) ==> Contents() == old(Contents())
    {
      if !ManifestationWriteAllowed(Contents(), id, biblio, url) { return false; }
      GuardedManifestationWrite(Contents(), id, biblio, url);
      manifestations := manifestations[id := manifestations[id].(biblio := biblio, url := url)];
      return true;
    }

    method DoUpdateAsset(id: RowId, fields: AssetFields) returns (ok: bool)
      requires Valid() && id in assets
      modifies this`assets
      ensures Valid() && (!ok ==> Contents() == old(Contents()))
      ensures ok <==> AssetWriteAllowed(old(Contents()), id, fields)
      ensures ok ==> Contents() == old(Contents()).(assets := old(assets)[id := old(assets)[id].(fields := fields)])
      ensures old(assets)[id].origin == Some(old(assets)[id].work) ==> Contents() == old(Contents())
    {
      if !AssetWriteAllowed(Contents(), id, fields) { return false; }
      GuardedAssetWrite(Contents(), id, fields);
      assets := assets[id := assets[id].(fields := fields)];
      return true;
    }

    // ---- Runs --------------------------------------------------------------

    /** A deletion has to be allowed; every other statement needs nothing but parity. */
    method Execute(s: Statement)
      requires Valid() && (s.DeleteWork? ==> DeletionAllowed(Contents(), s.w))
      modifies this
      ensures Valid() && Keeps(old(Contents()), Contents())
      ensures Effect(old(Contents()), old(revisions), s, Contents(), revisions)
    {
      ghost var t := Contents();
      match s {
        case InsertWork(w, row, mf, asset) =>
          var ok := DoInsertWork(w, row, mf, asset);
          if ok { InsertedKeeps(t, w, row, mf, asset); }
        case UpdateWork(w, cols, row, assetFirst, asset) =>
          var ok := DoUpdateWork(w, cols, row, assetFirst, asset);
          if ok {
            UpdatedOwners(t, w, cols, row, asset);
            OwnersKept(t, Contents());
          }
        case DeleteWork(w) =>
          DoDeleteWork(w);
          DeletedKeeps(t, w);
        case _ =>
          ExecuteMirror(s);
      }
    }

    /** Statements that leave the Works as they are. */
    method ExecuteMirror(s: Statement)
      requires Valid() && !s.InsertWork? && !s.UpdateWork? && !s.DeleteWork?
      modifies this
      ensures Valid() && Keeps(old(Contents()), Contents())
      ensures Effect(old(Contents()), old(revisions), s, Contents(), revisions)
    {
      match s {
        case InsertAnnotation(id, w, annotated, asset) => ExecuteAnnotation(id, w, annotated, asset);
        case InsertRevision(scope, asset) => ExecuteRevision(scope, asset);
        case InsertInferred(w, url, asset) => ExecuteInferred(w, Some(url), asset);
        case DeleteInferred(w, asset) => ExecuteInferred(w, None, asset);
        case UpdateManifestation(id, biblio, url) => ExecuteManifestation(id, biblio, url);
        case UpdateAsset(id, fields) => ExecuteAsset(id, fields);
      }
    }

    method ExecuteManifestation(id: RowId, biblio: Biblio, url: Text)
      requires Valid()
      modifies this
      ensures Valid() && Keeps(old(Contents()), Contents())
      ensures Effect(old(Contents()), old(revisions), UpdateManifestation(id, biblio, url), Contents(), revisions)
    {
      if id !in manifestations { return; }
      ManifestationWriteKeeps(Contents(), id, biblio, url);
      var _ := DoUpdateManifestation(id, biblio, url);
    }

    method ExecuteAsset(id: RowId, fields: AssetFields)
      requires Valid()
      modifies this
      ensures Valid() && Keeps(old(Contents()), Contents())
      ensures Effect(old(Contents()), old(revisions), UpdateAsset(id, fields), Contents(), revisions)
    {
      if id !in assets { return; }
      AssetWriteKeeps(Contents(), id, fields);
      var _ := DoUpdateAsset(id, fields);
    }

    method ExecuteAnnotation(id: RowId, w: WorkId, annotated: Option<RowId>, asset: RowId)
      requires Valid()
      modifies this
      ensures Valid() && Keeps(old(Contents()), Contents())
      ensures Effect(old(Contents()), old(revisions), InsertAnnotation(id, w, annotated, asset), Contents(), revisions)
    {
      AnnotationKeeps(Contents(), id, w, annotated, asset);
      var _ := DoInsertAnnotation(id, w, annotated, asset);
    }

    method ExecuteRevision(scope: RevisionScope, asset: RowId)
      requires Valid()
      modifies this
      ensures Valid() && Keeps(old(Contents()), Contents())
      ensures Effect(old(Contents()), old(revisions), InsertRevision(scope, asset), Contents(), revisions)
    {
      ghost var t := Contents();
      if ScopeNeedsAsset(scope) { InsertOwners(t, scope.work, asset, false); }
      var _ := DoInsertRevision(scope, asset);
      OwnersKept(t, Contents());
    }

    method ExecuteInferred(w: WorkId, url: Option<string>, asset: RowId)
      requires Valid()
      modifies this
      ensures Valid() && Keeps(old(Contents()), Contents())
      ensures Effect(old(Contents()), old(revisions), if url.Some? then InsertInferred(w, url.value, asset) else DeleteInferred(w, asset), Contents(), revisions)
    {
      ghost var t := Contents();
      if url.Some? {
        if w in works { AssetTriggerOwners(t.(inferred := inferred[w := url.value]), w, asset); }
        var _ := DoInsertInferred(w, url.value, asset);
      } else {
        if w in works { AssetTriggerOwners(t.(inferred := inferred - {w}), w, asset); }
        var _ := DoDeleteInferred(w, asset);
      }
      OwnersKept(t, Contents());
    }

    /** Each statement has its effect, with mirror parity after it, from every library
        in parity, up to the first deletion that would break it, if there is one; there is none
        where every origin Asset stayed with its Work. Where every Work owns its origin
        Manifestation, a Work with an asset value has its origin Asset. */
    method Run(statements: seq<Statement>) returns (done: nat, ghost moments: seq<Moment>)
      requires Valid()
      modifies this
      ensures forall w :: w in works ==> Mirrored(Contents(), w)
      ensures Valid() && done <= |statements| && Keeps(old(Contents()), Contents())
      ensures Course(moments, statements[..done])
      ensures moments[0] == old((Contents(), revisions)) && moments[done] == (Contents(), revisions)
      ensures done < |statements| ==>
                && statements[done].DeleteWork? && !DeletionAllowed(Contents(), statements[done].w)
                && !Parity(WorkDeleted(Contents(), statements[done].w))
      ensures old(Unmoved(Contents())) ==> done == |statements|
      ensures old(Owning(Contents())) ==>
                forall w :: w in works && HasAssetValue(works[w], Inferred(Contents(), w)) ==> HasOriginAsset(Contents(), w)
    {
      done, moments := 0, [(Contents(), revisions)];
      while done < |statements|
        invariant done <= |statements| && Course(moments, statements[..done])
        invariant moments[0] == old((Contents(), revisions)) && moments[done] == (Contents(), revisions)
        invariant Valid() && Keeps(old(Contents()), Contents())
      {
        var s := statements[done];
        if s.DeleteWork? && !DeletionAllowed(Contents(), s.w) {
          WorkDeletedParity(Contents(), s.w);
          break;
        }
        Execute(s);
        CourseGrows(moments, statements, done, (Contents(), revisions));
        done, moments := done + 1, moments + [(Contents(), revisions)];
      }
      forall w | w in works ensures Mirrored(Contents(), w) { ParityMirrors(Contents(), w); }
      AllAllowed(Contents());
      ghost var t := Contents();
      forall w | Owning(t) && w in works && HasAssetValue(works[w], Inferred(t, w)) ensures HasOriginAsset(t, w) {
        ValueHasAsset(t, w);
      }
    }
  }

  lemma AllAllowed(t: Tables)
    ensures Unmoved(t) ==> forall w :: DeletionAllowed(t, w)
  {
    if Unmoved(t) {
      forall w ensures DeletionAllowed(t, w) { UnmovedAllowsDeletion(t, w); }
    }
  }
}
