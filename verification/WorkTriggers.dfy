/** The mirror triggers of schema 17 as functions of the tables, and what each
    leaves of mirror parity. */
module WorkTriggers {
  import opened Common
  import opened WorkViews

  // ---- The statements triggers are made of ---------------------------------

  /** UPDATE manifestations SET ... FROM the view WHERE origin and owner are `w`. */
  function ProjectManifestation(t: Tables, w: WorkId): Tables
    requires w in t.works
  {
    t.(manifestations := map id | id in t.manifestations ::
         if OwnedManifestation(t, id, w)
         then t.manifestations[id].(biblio := t.works[w].biblio, url := ManifestationUrl(t, w))
         else t.manifestations[id])
  }

  /** UPDATE assets SET ... FROM the view WHERE origin and owner are `w`. */
  function ProjectAsset(t: Tables, w: WorkId): Tables
    requires w in t.works
  {
    t.(assets := map id | id in t.assets ::
         if OwnedAsset(t, id, w)
         then t.assets[id].(fields := AssetView(t.works[w], Inferred(t, w)))
         else t.assets[id])
  }

  /** Whether INSERT INTO assets ... SELECT FROM the view finds a row to insert. */
  predicate InsertsAsset(t: Tables, w: WorkId, needsValue: bool) {
    && w in t.works && HasOwnedManifestation(t, w) && !HasOriginAsset(t, w)
    && (needsValue ==> HasAssetValue(t.works[w], Inferred(t, w)))
  }

  /** The inserted row, and the primary Asset of the Manifestation it hangs on. */
  function RowInserted(t: Tables, w: WorkId, asset: RowId, m: RowId): Tables
    requires w in t.works && m in t.manifestations
  {
    var row := Asset(m, w, Some(w), AssetView(t.works[w], Inferred(t, w)));
    var mf := t.manifestations[m];
    t.(assets := t.assets[asset := row],
       manifestations := t.manifestations[m :=
         if mf.primaryAsset.None? then mf.(primaryAsset := Some(asset)) else mf])
  }

  /** The insert, and `assets_mirror_ai` after it. */
  function WithAsset(t: Tables, w: WorkId, asset: RowId, m: RowId): Tables
    requires w in t.works && m in t.manifestations
  {
    ProjectManifestation(RowInserted(t, w, asset, m), w)
  }

  /** The origin Manifestation of `w`, while `w` owns it. */
  ghost function Origin(t: Tables, w: WorkId): (m: RowId)
    requires HasOwnedManifestation(t, w)
    ensures m in t.manifestations && OwnedManifestation(t, m, w)
  {
    var m :| m in t.manifestations && OwnedManifestation(t, m, w);
    m
  }

  ghost function InsertAsset(t: Tables, w: WorkId, asset: RowId, needsValue: bool): Tables {
    if InsertsAsset(t, w, needsValue) then WithAsset(t, w, asset, Origin(t, w)) else t
  }

  /** `works_mirror_asset_au`, and the bodies of both inferred-URL triggers. */
  ghost function AssetTrigger(t: Tables, w: WorkId, asset: RowId): Tables
    requires w in t.works
  {
    ProjectManifestation(ProjectAsset(InsertAsset(t, w, asset, true), w), w)
  }

  // ---- Parity --------------------------------------------------------------

  /** The manifestation view depends on the owned origin Asset alone. */
  lemma StreamFromAsset(t: Tables, w: WorkId, id: RowId)
    requires Keys(t) && id in t.assets && OwnedAsset(t, id, w)
    ensures OwnsStream(t, w) <==> t.assets[id].fields.kind == ExternalStream
  {
  }

  /** Re-projecting one Manifestation touches nothing any view reads. */
  lemma ProjectManifestationKeeps(t: Tables, w: WorkId)
    requires Keys(t) && w in t.works
    ensures var t' := ProjectManifestation(t, w);
      && Keys(t')
      && (forall v :: OwnsStream(t', v) <==> OwnsStream(t, v))
      && (forall v :: HasOriginAsset(t', v) <==> HasOriginAsset(t, v))
      && (forall v :: HasOwnedManifestation(t', v) <==> HasOwnedManifestation(t, v))
      && (forall id :: id in t'.manifestations ==>
            if t'.manifestations[id].work == w then ManifestationCurrent(t', id)
            else t'.manifestations[id] == t.manifestations[id])
  {
    var t' := ProjectManifestation(t, w);
    forall v ensures OwnsStream(t', v) <==> OwnsStream(t, v) {
      if OwnsStream(t, v) {
        var id :| id in t.assets && OwnedAsset(t, id, v) && t.assets[id].fields.kind == ExternalStream;
        assert id in t'.assets && OwnedAsset(t', id, v);
      }
      if OwnsStream(t', v) {
        var id :| id in t'.assets && OwnedAsset(t', id, v) && t'.assets[id].fields.kind == ExternalStream;
        assert id in t.assets && OwnedAsset(t, id, v);
      }
    }
    forall v ensures HasOwnedManifestation(t', v) <==> HasOwnedManifestation(t, v) {
      forall id | id in t.manifestations ensures OwnedManifestation(t', id, v) <==> OwnedManifestation(t, id, v) {}
    }
  }

  /** Parity is restored for `w` by its Manifestation once its Asset is current. */
  lemma ProjectManifestationParity(t: Tables, w: WorkId)
    requires ParityExcept(t, w) && w in t.works
    requires forall id :: id in t.assets ==> AssetCurrent(t, id)
    requires AssetPresent(t, w)
    ensures Parity(ProjectManifestation(t, w))
  {
    var t' := ProjectManifestation(t, w);
    ProjectManifestationKeeps(t, w);
    forall id | id in t'.manifestations ensures ManifestationCurrent(t', id) {
      if t'.manifestations[id].work != w {
        assert ManifestationCurrent(t, id);
      }
    }
    forall id | id in t'.assets ensures AssetCurrent(t', id) {
      assert AssetCurrent(t, id);
    }
    forall v | v in t'.works ensures AssetPresent(t', v) {
      assert AssetPresent(t, v);
    }
  }

  lemma ProjectAssetKeeps(t: Tables, w: WorkId)
    requires ParityExcept(t, w) && w in t.works
    ensures var t' := ProjectAsset(t, w);
      && ParityExcept(t', w)
      && (forall id :: id in t'.assets ==> AssetCurrent(t', id))
      && (AssetPresent(t, w) ==> AssetPresent(t', w))
  {
    var t' := ProjectAsset(t, w);
    forall v | v != w ensures OwnsStream(t', v) <==> OwnsStream(t, v) {
      forall id | id in t.assets ensures OwnedAsset(t', id, v) <==> OwnedAsset(t, id, v) {}
      if OwnsStream(t, v) {
        var id :| id in t.assets && OwnedAsset(t, id, v) && t.assets[id].fields.kind == ExternalStream;
        assert OwnedAsset(t', id, v) && t'.assets[id] == t.assets[id];
      }
      if OwnsStream(t', v) {
        var id :| id in t'.assets && OwnedAsset(t', id, v) && t'.assets[id].fields.kind == ExternalStream;
        assert OwnedAsset(t, id, v) && t'.assets[id] == t.assets[id];
      }
    }
    forall v ensures HasOriginAsset(t', v) <==> HasOriginAsset(t, v) {
      forall id | id in t.assets
        ensures OriginRow(t'.assets[id].origin, v) <==> OriginRow(t.assets[id].origin, v) {}
    }
    forall v ensures HasOwnedManifestation(t', v) <==> HasOwnedManifestation(t, v) {
      forall id | id in t.manifestations ensures OwnedManifestation(t', id, v) <==> OwnedManifestation(t, id, v) {}
    }
    forall id | id in t'.manifestations && t'.manifestations[id].work != w ensures ManifestationCurrent(t', id) {
      assert ManifestationCurrent(t, id);
    }
    forall id | id in t'.assets ensures AssetCurrent(t', id) {
      if t.assets[id].work != w { assert AssetCurrent(t, id); }
    }
    forall v | v in t'.works && v != w ensures AssetPresent(t', v) {
      assert AssetPresent(t, v);
    }
  }

  /** What an inserted origin Asset of `w` changes in the views. */
  lemma RowInsertedViews(t: Tables, w: WorkId, asset: RowId, m: RowId)
    requires Keys(t) && InsertsAsset(t, w, false) && asset !in t.assets
    requires m in t.manifestations && OwnedManifestation(t, m, w)
    ensures var t1 := RowInserted(t, w, asset, m);
      && Keys(t1)
      && (forall v :: HasOriginAsset(t1, v) <==> HasOriginAsset(t, v) || v == w)
      && (forall v :: v != w ==> (OwnsStream(t1, v) <==> OwnsStream(t, v)))
      && (forall v :: HasOwnedManifestation(t1, v) <==> HasOwnedManifestation(t, v))
  {
    var t1 := RowInserted(t, w, asset, m);
    assert asset in t1.assets && OriginRow(t1.assets[asset].origin, w);
    forall v ensures HasOriginAsset(t1, v) <==> HasOriginAsset(t, v) || v == w {
      if id :| id in t.assets && OriginRow(t.assets[id].origin, v) {
        assert id in t1.assets && OriginRow(t1.assets[id].origin, v);
      }
    }
    forall v | v != w ensures OwnsStream(t1, v) <==> OwnsStream(t, v) {
      if id :| id in t.assets && OwnedAsset(t, id, v) && t.assets[id].fields.kind == ExternalStream {
        assert OwnedAsset(t1, id, v);
      }
      if id :| id in t1.assets && OwnedAsset(t1, id, v) && t1.assets[id].fields.kind == ExternalStream {
        assert OwnedAsset(t, id, v);
      }
    }
    forall v ensures HasOwnedManifestation(t1, v) <==> HasOwnedManifestation(t, v) {
      forall id | id in t.manifestations ensures OwnedManifestation(t1, id, v) <==> OwnedManifestation(t, id, v) {}
    }
    forall i | i in t.assets ensures t.assets[i].origin != Some(w) {
      assert !OriginRow(t.assets[i].origin, w);
    }
  }

  /** An inserted origin Asset is current, and disturbs no other Work. */
  lemma WithAssetParity(t: Tables, w: WorkId, asset: RowId)
    requires ParityExcept(t, w) && InsertsAsset(t, w, false) && asset !in t.assets
    ensures var t' := WithAsset(t, w, asset, Origin(t, w)); Parity(t') && HasOriginAsset(t', w)
  {
    var m := Origin(t, w);
    var t1 := RowInserted(t, w, asset, m);
    RowInsertedViews(t, w, asset, m);
    forall id | id in t1.manifestations && t1.manifestations[id].work != w ensures ManifestationCurrent(t1, id) {
      assert ManifestationCurrent(t, id);
    }
    forall id | id in t1.assets ensures AssetCurrent(t1, id) {
      if id != asset {
        assert !OriginRow(t.assets[id].origin, w);
        if t.assets[id].work != w { assert AssetCurrent(t, id); }
      }
    }
    forall v | v in t1.works ensures AssetPresent(t1, v) {
      if v != w { assert AssetPresent(t, v); }
    }
    ProjectManifestationParity(t1, w);
    ProjectManifestationKeeps(t1, w);
  }

  /** The insert leaves every other Work current, and `w` with the Asset it needs. */
  lemma InsertAssetParity(t: Tables, w: WorkId, asset: RowId, needsValue: bool)
    requires ParityExcept(t, w) && w in t.works && asset !in t.assets
    ensures ParityExcept(InsertAsset(t, w, asset, needsValue), w)
    ensures AssetPresent(InsertAsset(t, w, asset, needsValue), w)
    ensures Parity(t) ==> Parity(InsertAsset(t, w, asset, needsValue))
    ensures !needsValue && HasOwnedManifestation(t, w) ==> HasOriginAsset(InsertAsset(t, w, asset, needsValue), w)
  {
    if InsertsAsset(t, w, needsValue) {
      WithAssetParity(t, w, asset);
    }
  }

  lemma AssetTriggerParity(t: Tables, w: WorkId, asset: RowId)
    requires ParityExcept(t, w) && w in t.works && asset !in t.assets
    ensures Parity(AssetTrigger(t, w, asset))
  {
    InsertAssetParity(t, w, asset, true);
    var t1 := InsertAsset(t, w, asset, true);
    ProjectAssetKeeps(t1, w);
    ProjectManifestationParity(ProjectAsset(t1, w), w);
  }

  // ---- Trigger order -------------------------------------------------------

  /** Tables that differ at most in the projected columns of the origin
      Manifestation of `w`. */
  ghost predicate Agree(t: Tables, u: Tables, w: WorkId) {
    && u == t.(manifestations := u.manifestations)
    && u.manifestations.Keys == t.manifestations.Keys
    && forall id :: id in t.manifestations ==>
         if OwnedManifestation(t, id, w)
         then u.manifestations[id] ==
                t.manifestations[id].(biblio := u.manifestations[id].biblio, url := u.manifestations[id].url)
         else u.manifestations[id] == t.manifestations[id]
  }

  lemma AgreeViews(t: Tables, u: Tables, w: WorkId)
    requires Agree(t, u, w)
    ensures forall v :: OwnsStream(u, v) <==> OwnsStream(t, v)
    ensures forall v, id :: id in t.manifestations ==> (OwnedManifestation(u, id, v) <==> OwnedManifestation(t, id, v))
    ensures HasOriginAsset(u, w) <==> HasOriginAsset(t, w)
    ensures HasOwnedManifestation(u, w) <==> HasOwnedManifestation(t, w)
  {
    forall id, v | id in t.assets ensures OwnedAsset(u, id, v) <==> OwnedAsset(t, id, v) {}
    forall v ensures OwnsStream(u, v) <==> OwnsStream(t, v) {
      if id :| id in t.assets && OwnedAsset(t, id, v) && t.assets[id].fields.kind == ExternalStream {
        assert OwnedAsset(u, id, v);
      }
    }
  }

  lemma ProjectionAgrees(t: Tables, w: WorkId)
    requires w in t.works
    ensures Agree(t, ProjectManifestation(t, w), w)
  {
  }

  lemma AgreeProjectsAlike(t: Tables, u: Tables, w: WorkId)
    requires Agree(t, u, w) && w in t.works
    ensures ProjectManifestation(t, w) == ProjectManifestation(u, w)
  {
    AgreeViews(t, u, w);
    assert ProjectManifestation(t, w).manifestations == ProjectManifestation(u, w).manifestations;
  }

  lemma AgreeProjectAsset(t: Tables, u: Tables, w: WorkId)
    requires Agree(t, u, w) && w in t.works
    ensures Agree(ProjectAsset(t, w), ProjectAsset(u, w), w)
  {
    var t', u' := ProjectAsset(t, w), ProjectAsset(u, w);
    assert t'.assets == u'.assets;
    forall id | id in t.manifestations
      ensures OwnedManifestation(t', id, w) <==> OwnedManifestation(t, id, w) {}
  }

  lemma AgreeInsertAsset(t: Tables, u: Tables, w: WorkId, asset: RowId)
    requires Agree(t, u, w) && Keys(t) && Keys(u) && w in t.works
    ensures Agree(InsertAsset(t, w, asset, true), InsertAsset(u, w, asset, true), w)
  {
    AgreeViews(t, u, w);
    if InsertsAsset(t, w, true) {
      var m := Origin(t, w);
      assert Origin(u, w) == m by {
        assert OwnedManifestation(u, m, w) && OwnedManifestation(u, Origin(u, w), w);
      }
      var t1, u1 := RowInserted(t, w, asset, m), RowInserted(u, w, asset, m);
      forall id | id in t.manifestations
        ensures OwnedManifestation(t1, id, w) <==> OwnedManifestation(t, id, w) {}
      assert Agree(t1, u1, w);
      AgreeProjectsAlike(t1, u1, w);
    }
  }

  /** Whichever of the two AFTER UPDATE triggers fires first, the final tables are
      the same. */
  lemma TriggerOrderIrrelevant(t: Tables, w: WorkId, asset: RowId)
    requires Keys(t) && w in t.works
    ensures AssetTrigger(ProjectManifestation(t, w), w, asset) == ProjectManifestation(AssetTrigger(t, w, asset), w)
  {
    var p := ProjectManifestation(t, w);
    ProjectionAgrees(t, w);
    ProjectManifestationKeeps(t, w);
    AgreeInsertAsset(t, p, w, asset);
    var a, b := InsertAsset(t, w, asset, true), InsertAsset(p, w, asset, true);
    AgreeProjectAsset(a, b, w);
    AgreeProjectsAlike(ProjectAsset(a, w), ProjectAsset(b, w), w);
    ProjectTwice(ProjectAsset(a, w), w);
  }

  lemma ProjectTwice(t: Tables, w: WorkId)
    requires w in t.works
    ensures ProjectManifestation(ProjectManifestation(t, w), w) == ProjectManifestation(t, w)
  {
    ProjectionAgrees(t, w);
    AgreeProjectsAlike(t, ProjectManifestation(t, w), w);
  }
}
