/** The tables of schema 17, with the statements that write them and the triggers
    those statements fire, in place. */
module WorkTables {
  import opened Common
  import Texts
  import opened WorkViews
  import opened WorkTriggers

  datatype Column =
    | Bibliographic | FilePath | SourceKind | SourceUrl | SourceMime | ThumbUrl | ThumbPage
    | Provider | ProviderId | CanonicalRevision | MaterializedRevision | Unmirrored

  /** The columns of the UPDATE OF lists of the two AFTER UPDATE triggers. */
  const MANIFESTATION_COLUMNS: set<Column> := {Bibliographic, SourceUrl}
  const ASSET_COLUMNS: set<Column> :=
    {FilePath, SourceKind, SourceUrl, SourceMime, ThumbUrl, ThumbPage, Provider, ProviderId,
     CanonicalRevision, MaterializedRevision}

  /** `row` may differ from `old` only in the columns a statement sets. */
  predicate SetsOnly(old_: Work, row: Work, cols: set<Column>) {
    && row.primaryManifestation == old_.primaryManifestation
    && (row.biblio != old_.biblio ==> Bibliographic in cols)
    && (row.filePath != old_.filePath ==> FilePath in cols)
    && (row.sourceKind != old_.sourceKind ==> SourceKind in cols)
    && (row.sourceUrl != old_.sourceUrl ==> SourceUrl in cols)
    && (row.sourceMime != old_.sourceMime ==> SourceMime in cols)
    && (row.thumbUrl != old_.thumbUrl ==> ThumbUrl in cols)
    && (row.thumbPage != old_.thumbPage ==> ThumbPage in cols)
    && (row.provider != old_.provider ==> Provider in cols)
    && (row.providerId != old_.providerId ==> ProviderId in cols)
    && (row.canonicalRevision != old_.canonicalRevision ==> CanonicalRevision in cols)
    && (row.materializedRevision != old_.materializedRevision ==> MaterializedRevision in cols)
  }

  /** A revision scope the insert trigger looks at, already parsed. */
  datatype RevisionScope =
    | WorkSourceScope(work: WorkId)
    | PdfAnnotationScope(work: WorkId, annotation: string)
    | WorkFieldScope(work: WorkId, field: string)
    | OtherScope(key: string)

  predicate ScopeNeedsAsset(s: RevisionScope) {
    s.WorkSourceScope? || s.PdfAnnotationScope? || (s.WorkFieldScope? && s.field == "thumb_page")
  }

  // ---- Whole statements as functions of the tables --------------------------

  function RowSet(t: Tables, w: WorkId, row: Work): Tables {
    t.(works := t.works[w := row])
  }

  function OriginInserted(t: Tables, w: WorkId, row: Work, mf: RowId): Tables {
    var t1 := t.(works := t.works[w := row.(primaryManifestation := Some(mf))]);
    t1.(manifestations := t.manifestations[mf :=
      Manifestation(w, Some(w), row.biblio, ManifestationUrl(t1, w), None)])
  }

  /** INSERT INTO works, and `works_mirror_ai`. */
  ghost function WorkInserted(t: Tables, w: WorkId, row: Work, mf: RowId, asset: RowId): Tables {
    InsertAsset(OriginInserted(t, w, row, mf), w, asset, true)
  }

  /** UPDATE works SET ..., with whichever AFTER UPDATE triggers the columns fire. */
  ghost function WorkUpdated(t: Tables, w: WorkId, cols: set<Column>, row: Work, asset: RowId): Tables {
    var t1 := RowSet(t, w, row);
    if cols * ASSET_COLUMNS != {} then AssetTrigger(t1, w, asset)
    else if cols * MANIFESTATION_COLUMNS != {} then ProjectManifestation(t1, w)
    else t1
  }

  /** DELETE FROM works, with its cascades. */
  function WorkDeleted(t: Tables, w: WorkId): Tables {
    Tables(t.works - {w},
           map id | id in t.manifestations && t.manifestations[id].work != w :: t.manifestations[id],
           map id | id in t.assets && t.assets[id].work != w :: t.assets[id],
           t.inferred - {w},
           map id | id in t.annotations && t.annotations[id].work != w :: t.annotations[id])
  }

  /** No origin Asset was moved to another Work. */
  predicate Unmoved(t: Tables) {
    forall id :: id in t.assets ==> t.assets[id].origin in {None, Some(t.assets[id].work)}
  }

  lemma SameAssetsViews(t: Tables, t1: Tables)
    requires t1.assets == t.assets
    ensures forall v :: OwnsStream(t1, v) <==> OwnsStream(t, v)
    ensures forall v :: HasOriginAsset(t1, v) <==> HasOriginAsset(t, v)
  {
    assert forall v, id :: id in t.assets ==> (OwnedAsset(t1, id, v) <==> OwnedAsset(t, id, v));
  }

  /** The first half of the insert trigger: the Work and its origin Manifestation. */
  lemma OriginInsertedParity(t: Tables, w: WorkId, row: Work, mf: RowId)
    requires Parity(t) && w !in t.works && mf !in t.manifestations
    requires forall id :: id in t.manifestations ==> t.manifestations[id].origin != Some(w)
    ensures var t1 := OriginInserted(t, w, row, mf);
      && Keys(t1)
      && (forall id :: id in t1.manifestations ==> ManifestationCurrent(t1, id))
      && (forall id :: id in t1.assets ==> AssetCurrent(t1, id))
      && (forall v :: v in t1.works && v != w ==> AssetPresent(t1, v))
      && HasOwnedManifestation(t1, w)
  {
    var t1 := OriginInserted(t, w, row, mf);
    SameAssetsViews(t, t1);
    assert OwnedManifestation(t1, mf, w);
    forall v | v != w ensures HasOwnedManifestation(t1, v) <==> HasOwnedManifestation(t, v) {
      forall id | id in t.manifestations ensures OwnedManifestation(t1, id, v) <==> OwnedManifestation(t, id, v) {}
    }
    forall id | id in t1.manifestations ensures ManifestationCurrent(t1, id) {
      if id != mf { assert ManifestationCurrent(t, id); }
    }
    forall id | id in t1.assets ensures AssetCurrent(t1, id) {
      assert AssetCurrent(t, id);
    }
    forall v | v in t1.works && v != w ensures AssetPresent(t1, v) {
      assert AssetPresent(t, v);
    }
  }

  lemma WorkInsertedParity(t: Tables, w: WorkId, row: Work, mf: RowId, asset: RowId)
    requires Parity(t) && w !in t.works && mf !in t.manifestations && asset !in t.assets
    requires forall id :: id in t.manifestations ==> t.manifestations[id].origin != Some(w)
    ensures var t' := WorkInserted(t, w, row, mf, asset);
      && Parity(t') && w in t'.works
      && (HasAssetValue(row, None) ==> HasOriginAsset(t', w))
      && HasOwnedManifestation(t', w)
  {
    var t1 := OriginInserted(t, w, row, mf);
    OriginInsertedParity(t, w, row, mf);
    assert Inferred(t1, w) == None;
    if InsertsAsset(t1, w, true) {
      WithAssetParity(t1, w, asset);
      var m := Origin(t1, w);
      RowInsertedViews(t1, w, asset, m);
      ProjectManifestationKeeps(RowInserted(t1, w, asset, m), w);
    }
  }

  /** A statement that sets columns of one Work leaves the others in parity. */
  lemma RowSetViews(t: Tables, w: WorkId, row: Work)
    ensures var t1 := RowSet(t, w, row);
      && (forall v :: OwnsStream(t1, v) <==> OwnsStream(t, v))
      && (forall v :: HasOriginAsset(t1, v) <==> HasOriginAsset(t, v))
      && (forall v :: HasOwnedManifestation(t1, v) <==> HasOwnedManifestation(t, v))
  {
    var t1 := RowSet(t, w, row);
    SameAssetsViews(t, t1);
    forall v ensures HasOwnedManifestation(t1, v) <==> HasOwnedManifestation(t, v) {
      forall id | id in t.manifestations ensures OwnedManifestation(t1, id, v) <==> OwnedManifestation(t, id, v) {}
    }
  }

  lemma RowSetKeys(t: Tables, w: WorkId, row: Work)
    requires Keys(t) && w in t.works && row.primaryManifestation == t.works[w].primaryManifestation
    ensures Keys(RowSet(t, w, row))
  {
  }

  lemma RowSetParity(t: Tables, w: WorkId, row: Work)
    requires Parity(t) && w in t.works && row.primaryManifestation == t.works[w].primaryManifestation
    ensures var t1 := RowSet(t, w, row);
      && ParityExcept(t1, w)
      && (forall v :: OwnsStream(t1, v) <==> OwnsStream(t, v))
      && (forall v :: HasOriginAsset(t1, v) <==> HasOriginAsset(t, v))
      && (forall v :: HasOwnedManifestation(t1, v) <==> HasOwnedManifestation(t, v))
  {
    RowSetViews(t, w, row);
    RowSetKeys(t, w, row);
    RowSetManifestations(t, w, row);
    RowSetAssets(t, w, row);
  }

  lemma RowSetManifestations(t: Tables, w: WorkId, row: Work)
    requires Parity(t) && w in t.works
    ensures var t1 := RowSet(t, w, row);
      forall id :: id in t.manifestations && t.manifestations[id].work != w ==> ManifestationCurrent(t1, id)
  {
    RowSetViews(t, w, row);
    forall id | id in t.manifestations && t.manifestations[id].work != w ensures ManifestationCurrent(RowSet(t, w, row), id) {
      assert ManifestationCurrent(t, id);
    }
  }

  lemma RowSetAssets(t: Tables, w: WorkId, row: Work)
    requires Parity(t) && w in t.works
    ensures var t1 := RowSet(t, w, row);
      && (forall id :: id in t.assets && t.assets[id].work != w ==> AssetCurrent(t1, id))
      && (forall v :: v in t.works && v != w ==> AssetPresent(t1, v))
  {
    RowSetViews(t, w, row);
    forall id | id in t.assets && t.assets[id].work != w ensures AssetCurrent(RowSet(t, w, row), id) {
      assert AssetCurrent(t, id);
    }
    forall v | v in t.works && v != w ensures AssetPresent(RowSet(t, w, row), v) {
      assert AssetPresent(t, v);
    }
  }

  /** A statement that sets no column of the Asset view leaves the Assets in parity. */
  lemma AssetColumnsUnset(t: Tables, w: WorkId, cols: set<Column>, row: Work)
    requires Parity(t) && w in t.works && SetsOnly(t.works[w], row, cols) && cols * ASSET_COLUMNS == {}
    ensures var t1 := RowSet(t, w, row);
      && (forall id :: id in t1.assets ==> AssetCurrent(t1, id))
      && AssetPresent(t1, w)
  {
    var t1 := RowSet(t, w, row);
    RowSetParity(t, w, row);
    UntouchedAssetColumns(t.works[w], row, cols, Inferred(t, w));
    forall id | id in t1.assets ensures AssetCurrent(t1, id) {
      assert AssetCurrent(t, id);
    }
    assert AssetPresent(t, w);
  }

  lemma NoMirroredColumnSet(t: Tables, w: WorkId, cols: set<Column>, row: Work)
    requires Parity(t) && w in t.works && SetsOnly(t.works[w], row, cols)
    requires cols * ASSET_COLUMNS == {} && cols * MANIFESTATION_COLUMNS == {}
    ensures Parity(RowSet(t, w, row))
  {
    var t1 := RowSet(t, w, row);
    RowSetParity(t, w, row);
    AssetColumnsUnset(t, w, cols, row);
    forall c | c in MANIFESTATION_COLUMNS ensures c !in cols { assert c in cols ==> c in cols * MANIFESTATION_COLUMNS; }
    forall id | id in t1.manifestations ensures ManifestationCurrent(t1, id) {
      assert ManifestationCurrent(t, id);
    }
  }

  lemma UntouchedAssetColumns(old_: Work, row: Work, cols: set<Column>, inferred: Option<string>)
    requires SetsOnly(old_, row, cols) && cols * ASSET_COLUMNS == {}
    ensures AssetView(row, inferred) == AssetView(old_, inferred)
    ensures HasAssetValue(row, inferred) <==> HasAssetValue(old_, inferred)
  {
    forall c | c in ASSET_COLUMNS ensures c !in cols { assert c in cols ==> c in cols * ASSET_COLUMNS; }
  }

  lemma WorkUpdatedParity(t: Tables, w: WorkId, cols: set<Column>, row: Work, asset: RowId)
    requires Parity(t) && w in t.works && SetsOnly(t.works[w], row, cols) && asset !in t.assets
    ensures Parity(WorkUpdated(t, w, cols, row, asset))
  {
    RowSetParity(t, w, row);
    var t1 := RowSet(t, w, row);
    if cols * ASSET_COLUMNS != {} {
      AssetTriggerParity(t1, w, asset);
    } else if cols * MANIFESTATION_COLUMNS != {} {
      AssetColumnsUnset(t, w, cols, row);
      ProjectManifestationParity(t1, w);
    } else {
      NoMirroredColumnSet(t, w, cols, row);
    }
  }

  /** `w` owns the origin Asset of another Work `v`. */
  predicate HoldsAssetOf(t: Tables, w: WorkId, v: WorkId) {
    exists id :: id in t.assets && t.assets[id].work == w && OriginRow(t.assets[id].origin, v)
  }

  /** Mid-statement the order does matter: a Manifestation projected before its Asset
      already has its final URL if and only if the update does not turn a document
      into a stream or back, or leaves no source URL to show. */
  lemma EarlyProjection(t: Tables, w: WorkId, row: Work, id: RowId)
    requires Parity(t) && w in t.works && row.primaryManifestation == t.works[w].primaryManifestation
    requires id in t.assets && OwnedAsset(t, id, w)
    ensures var streams, streamed := IsStream(row, Inferred(t, w)), IsStream(t.works[w], Inferred(t, w));
      ManifestationUrl(RowSet(t, w, row), w) == (if streams then None else row.sourceUrl) <==>
        streams == streamed || row.sourceUrl.None?
  {
    RowSetParity(t, w, row);
    assert AssetCurrent(t, id);
    StreamFromAsset(t, w, id);
  }

  /** `w` owns no origin Asset that another Work still needs. */
  predicate DeletionAllowed(t: Tables, w: WorkId) {
    forall v :: v in t.works && v != w && HoldsAssetOf(t, w, v) ==>
      !(HasAssetValue(t.works[v], Inferred(t, v)) && HasOwnedManifestation(t, v))
  }

  /** Deleting a Work keeps parity if and only if it owns no origin Asset that
      another Work still needs: the mirror of that Work is not rebuilt until its
      next update. */
  lemma WorkDeletedParity(t: Tables, w: WorkId)
    requires Parity(t)
    ensures Parity(WorkDeleted(t, w)) <==> DeletionAllowed(t, w)
  {
    var t1 := WorkDeleted(t, w);
    DeletedCurrent(t, w);
    forall v | v in t1.works
      ensures AssetPresent(t1, v) <==>
        (HoldsAssetOf(t, w, v) ==> !(HasAssetValue(t.works[v], Inferred(t, v)) && HasOwnedManifestation(t, v)))
    {
      DeletedPresent(t, w, v);
    }
  }

  const NO_BIBLIO := Biblio(None, None, None, None, None, None, None, None, None, None, None, None, None)

  function PlainWork(path: Text): Work {
    Work(NO_BIBLIO, path, None, None, None, None, None, None, None, 0, 0, None)
  }

  /** Work "a" with a file, whose origin Asset was moved to Work "b". */
  function MovedAway(): Tables {
    Tables(map["a" := PlainWork(Some("f")), "b" := PlainWork(None)],
           map["m" := Manifestation("a", Some("a"), NO_BIBLIO, None, None), "n" := Manifestation("b", Some("b"), NO_BIBLIO, None, None)],
           map["x" := Asset("n", "b", Some("a"), AssetView(PlainWork(Some("f")), None))],
           map[], map[])
  }

  /** Deleting the Work that an Asset was moved to leaves the Asset's own Work without one. */
  lemma DeletionCanBreakParity()
    ensures Parity(MovedAway()) && !Parity(WorkDeleted(MovedAway(), "b"))
  {
    var t := MovedAway();
    MovedAwayParity();
    WorkDeletedParity(t, "b");
    assert "x" in t.assets && OriginRow(t.assets["x"].origin, "a");
    assert "m" in t.manifestations && OwnedManifestation(t, "m", "a");
    assert HoldsAssetOf(t, "b", "a");
    assert HasAssetValue(t.works["a"], Inferred(t, "a")) && HasOwnedManifestation(t, "a");
  }

  lemma MovedAwayParity()
    ensures Parity(MovedAway())
  {
    var t := MovedAway();
    MovedAwayPresent();
    assert forall id :: id in t.assets ==> AssetCurrent(t, id);
    assert forall id :: id in t.manifestations ==> ManifestationCurrent(t, id);
  }

  lemma MovedAwayPresent()
    ensures Keys(MovedAway()) && forall v :: v in MovedAway().works ==> AssetPresent(MovedAway(), v)
  {
    var t := MovedAway();
    assert "x" in t.assets && OriginRow(t.assets["x"].origin, "a");
    assert HasOriginAsset(t, "a");
    NoText();
    assert !HasAssetValue(PlainWork(None), None);
  }

  lemma NoText()
    ensures Trim("") == "" && Texts.Lower("") == "" && Content(None) == ""
  {
  }

  lemma DeletedPresent(t: Tables, w: WorkId, v: WorkId)
    requires Keys(t) && v != w && v in t.works && AssetPresent(t, v)
    ensures AssetPresent(WorkDeleted(t, w), v) <==>
        (HoldsAssetOf(t, w, v) ==> !(HasAssetValue(t.works[v], Inferred(t, v)) && HasOwnedManifestation(t, v)))
  {
    DeletedViews(t, w, v);
    assert Inferred(WorkDeleted(t, w), v) == Inferred(t, v);
    if a :| a in t.assets && t.assets[a].work == w && OriginRow(t.assets[a].origin, v) {
      assert forall b :: b in t.assets && OriginRow(t.assets[b].origin, v) ==> a == b;
    }
  }

  lemma DeletedViews(t: Tables, w: WorkId, v: WorkId)
    requires Keys(t) && v != w
    ensures var t1 := WorkDeleted(t, w);
      && (OwnsStream(t1, v) <==> OwnsStream(t, v))
      && (HasOwnedManifestation(t1, v) <==> HasOwnedManifestation(t, v))
      && (HasOriginAsset(t1, v) <==> exists id :: id in t.assets && t.assets[id].work != w && OriginRow(t.assets[id].origin, v))
  {
    var t1 := WorkDeleted(t, w);
    if id :| id in t.assets && OwnedAsset(t, id, v) && t.assets[id].fields.kind == ExternalStream {
      assert id in t1.assets && OwnedAsset(t1, id, v);
    }
    if id :| id in t1.assets && OwnedAsset(t1, id, v) && t1.assets[id].fields.kind == ExternalStream {
      assert id in t.assets && OwnedAsset(t, id, v);
    }
    if id :| id in t.manifestations && OwnedManifestation(t, id, v) {
      assert id in t1.manifestations && OwnedManifestation(t1, id, v);
    }
    if id :| id in t1.manifestations && OwnedManifestation(t1, id, v) {
      assert id in t.manifestations && OwnedManifestation(t, id, v);
    }
    if id :| id in t.assets && t.assets[id].work != w && OriginRow(t.assets[id].origin, v) {
      assert id in t1.assets && OriginRow(t1.assets[id].origin, v);
    }
    if id :| id in t1.assets && OriginRow(t1.assets[id].origin, v) {
      assert id in t.assets && OriginRow(t.assets[id].origin, v);
    }
  }

  lemma DeletedKeys(t: Tables, w: WorkId)
    requires Keys(t)
    ensures Keys(WorkDeleted(t, w))
  {
  }

  lemma DeletedCurrent(t: Tables, w: WorkId)
    requires Parity(t)
    ensures var t1 := WorkDeleted(t, w);
      && Keys(t1)
      && (forall id :: id in t1.manifestations ==> ManifestationCurrent(t1, id))
      && (forall id :: id in t1.assets ==> AssetCurrent(t1, id))
  {
    var t1 := WorkDeleted(t, w);
    DeletedKeys(t, w);
    forall id | id in t1.manifestations ensures ManifestationCurrent(t1, id) {
      assert ManifestationCurrent(t, id);
      DeletedViews(t, w, t.manifestations[id].work);
    }
    forall id | id in t1.assets ensures AssetCurrent(t1, id) {
      assert AssetCurrent(t, id);
      assert Inferred(t1, t.assets[id].work) == Inferred(t, t.assets[id].work);
    }
  }

  /** A new or removed inferred URL of `w` leaves the other Works in parity. */
  lemma InferredParity(t: Tables, t1: Tables, w: WorkId)
    requires Parity(t) && w in t.works
    requires t1 == t.(inferred := t1.inferred)
    requires forall v :: v != w ==> Inferred(t1, v) == Inferred(t, v)
    requires forall v :: v in t1.inferred ==> v in t1.works
    ensures ParityExcept(t1, w)
  {
    SameAssetsViews(t, t1);
    forall v ensures HasOwnedManifestation(t1, v) <==> HasOwnedManifestation(t, v) {
      forall id | id in t.manifestations ensures OwnedManifestation(t1, id, v) <==> OwnedManifestation(t, id, v) {}
    }
    forall id | id in t.manifestations && t.manifestations[id].work != w ensures ManifestationCurrent(t1, id) {
      assert ManifestationCurrent(t, id);
    }
    forall id | id in t.assets && t.assets[id].work != w ensures AssetCurrent(t1, id) {
      assert AssetCurrent(t, id);
    }
    forall v | v in t.works && v != w ensures AssetPresent(t1, v) {
      assert AssetPresent(t, v);
    }
  }

  // ---- The read-only guards ------------------------------------------------

  /** `manifestations_mirror_read_only` lets the new values of row `id` through. */
  predicate ManifestationWriteAllowed(t: Tables, id: RowId, biblio: Biblio, url: Text)
    requires id in t.manifestations
  {
    var m := t.manifestations[id];
    m.origin == Some(m.work) ==>
      m.work in t.works && biblio == t.works[m.work].biblio && url == ManifestationUrl(t, m.work)
  }

  /** `assets_mirror_read_only` lets the new values of row `id` through. */
  predicate AssetWriteAllowed(t: Tables, id: RowId, fields: AssetFields)
    requires id in t.assets
  {
    var a := t.assets[id];
    a.origin == Some(a.work) ==> a.work in t.works && fields == AssetView(t.works[a.work], Inferred(t, a.work))
  }

  /** The guards never refuse the writes of the triggers themselves. */
  lemma TriggersPassGuards(t: Tables, w: WorkId)
    requires w in t.works
    ensures forall id :: id in t.manifestations && OwnedManifestation(t, id, w) ==>
              var row := ProjectManifestation(t, w).manifestations[id]; ManifestationWriteAllowed(t, id, row.biblio, row.url)
    ensures forall id :: id in t.assets && OwnedAsset(t, id, w) ==>
              AssetWriteAllowed(t, id, ProjectAsset(t, w).assets[id].fields)
  {
  }

  /** In parity the guards refuse exactly the writes that would change an origin row its
      Work still owns. */
  lemma {:induction false} GuardsExactly(t: Tables, id: RowId)
    requires Parity(t)
    ensures id in t.manifestations ==> var m := t.manifestations[id];
      forall biblio, url :: ManifestationWriteAllowed(t, id, biblio, url) <==>
        (m.origin == Some(m.work) ==> biblio == m.biblio && url == m.url)
    ensures id in t.assets ==> var a := t.assets[id];
      forall fields :: AssetWriteAllowed(t, id, fields) <==> (a.origin == Some(a.work) ==> fields == a.fields)
  {
    assert id in t.manifestations ==> ManifestationCurrent(t, id);
    assert id in t.assets ==> AssetCurrent(t, id);
  }

  /** With a Work go its Manifestations, Assets, inferred URL and annotations, and no row
      of another Work. */
  lemma {:induction false} CascadeExactly(t: Tables, w: WorkId)
    ensures var t1 := WorkDeleted(t, w);
      && (forall v :: v in t1.works <==> v in t.works && v != w)
      && (forall v :: v in t1.works ==> t1.works[v] == t.works[v])
      && (forall id :: id in t1.manifestations <==> id in t.manifestations && t.manifestations[id].work != w)
      && (forall id :: id in t1.manifestations ==> t1.manifestations[id] == t.manifestations[id])
      && (forall id :: id in t1.assets <==> id in t.assets && t.assets[id].work != w)
      && (forall id :: id in t1.assets ==> t1.assets[id] == t.assets[id])
      && (forall v :: v in t1.inferred <==> v in t.inferred && v != w)
      && (forall v :: v in t1.inferred ==> t1.inferred[v] == t.inferred[v])
      && (forall id :: id in t1.annotations <==> id in t.annotations && t.annotations[id].work != w)
      && (forall id :: id in t1.annotations ==> t1.annotations[id] == t.annotations[id])
  {
  }

  /** In parity, a write a guard lets through to an origin row its Work still owns
      changes nothing; any other row is free. */
  lemma GuardedManifestationWrite(t: Tables, id: RowId, biblio: Biblio, url: Text)
    requires Parity(t) && id in t.manifestations && ManifestationWriteAllowed(t, id, biblio, url)
    ensures var t' := t.(manifestations := t.manifestations[id := t.manifestations[id].(biblio := biblio, url := url)]);
      Parity(t') && (t.manifestations[id].origin == Some(t.manifestations[id].work) ==> t' == t)
  {
    var t' := t.(manifestations := t.manifestations[id := t.manifestations[id].(biblio := biblio, url := url)]);
    assert ManifestationCurrent(t, id);
    if t.manifestations[id].origin == Some(t.manifestations[id].work) {
      assert t'.manifestations == t.manifestations;
    } else {
      SameAssetsViews(t, t');
      forall v ensures HasOwnedManifestation(t', v) <==> HasOwnedManifestation(t, v) {
        forall x | x in t.manifestations ensures OwnedManifestation(t', x, v) <==> OwnedManifestation(t, x, v) {}
      }
      forall x | x in t'.manifestations ensures ManifestationCurrent(t', x) { assert ManifestationCurrent(t, x); }
      forall x | x in t'.assets ensures AssetCurrent(t', x) { assert AssetCurrent(t, x); }
      forall v | v in t'.works ensures AssetPresent(t', v) { assert AssetPresent(t, v); }
    }
  }

  lemma GuardedAssetWrite(t: Tables, id: RowId, fields: AssetFields)
    requires Parity(t) && id in t.assets && AssetWriteAllowed(t, id, fields)
    ensures var t' := t.(assets := t.assets[id := t.assets[id].(fields := fields)]);
      Parity(t') && (t.assets[id].origin == Some(t.assets[id].work) ==> t' == t)
  {
    var t' := t.(assets := t.assets[id := t.assets[id].(fields := fields)]);
    assert AssetCurrent(t, id);
    if t.assets[id].origin == Some(t.assets[id].work) {
      assert t'.assets == t.assets;
    } else {
      ForeignAssetParity(t, t', id);
    }
  }

  lemma ForeignAssetParity(t: Tables, t': Tables, id: RowId)
    requires Parity(t)
    requires id in t.assets && id in t'.assets && t.assets[id].origin != Some(t.assets[id].work)
    requires t' == t.(assets := t.assets[id := t.assets[id].(fields := t'.assets[id].fields)])
    ensures Parity(t')
  {
    ForeignAssetViews(t, t', id);
    assert Keys(t') by { ForeignAssetKeys(t, t', id); }
    forall x | x in t'.manifestations ensures ManifestationCurrent(t', x) { assert ManifestationCurrent(t, x); }
    forall x | x in t'.assets ensures AssetCurrent(t', x) { assert AssetCurrent(t, x); }
    forall v | v in t'.works ensures AssetPresent(t', v) { assert AssetPresent(t, v); }
  }

  lemma ForeignAssetKeys(t: Tables, t': Tables, id: RowId)
    requires Keys(t) && id in t.assets && id in t'.assets
    requires t' == t.(assets := t.assets[id := t.assets[id].(fields := t'.assets[id].fields)])
    ensures Keys(t')
  {
    forall x | x in t'.assets
      ensures t'.assets[x].manifestation == t.assets[x].manifestation && t'.assets[x].work == t.assets[x].work
      ensures t'.assets[x].origin == t.assets[x].origin
    {
    }
  }

  lemma ForeignAssetViews(t: Tables, t': Tables, id: RowId)
    requires id in t.assets && id in t'.assets && t.assets[id].origin != Some(t.assets[id].work)
    requires t' == t.(assets := t.assets[id := t.assets[id].(fields := t'.assets[id].fields)])
    ensures forall v :: OwnsStream(t', v) <==> OwnsStream(t, v)
    ensures forall v :: HasOriginAsset(t', v) <==> HasOriginAsset(t, v)
    ensures forall v :: HasOwnedManifestation(t', v) <==> HasOwnedManifestation(t, v)
  {
    forall v ensures OwnsStream(t', v) <==> OwnsStream(t, v) {
      if x :| x in t.assets && OwnedAsset(t, x, v) && t.assets[x].fields.kind == ExternalStream {
        assert OwnedAsset(t', x, v) && t'.assets[x] == t.assets[x];
      }
      if x :| x in t'.assets && OwnedAsset(t', x, v) && t'.assets[x].fields.kind == ExternalStream {
        assert OwnedAsset(t, x, v) && t'.assets[x] == t.assets[x];
      }
    }
    forall v ensures HasOriginAsset(t', v) <==> HasOriginAsset(t, v) {
      forall x | x in t.assets ensures OriginRow(t'.assets[x].origin, v) <==> OriginRow(t.assets[x].origin, v) {}
    }
    forall v ensures HasOwnedManifestation(t', v) <==> HasOwnedManifestation(t, v) {
      forall x | x in t.manifestations ensures OwnedManifestation(t', x, v) <==> OwnedManifestation(t, x, v) {}
    }
  }
}
