/** The two mirror views of schema 17: what a Work row says its origin
    Manifestation and origin Asset must hold. */
module WorkViews {
  import opened Common
  import Texts

  type WorkId = string
  type RowId = string
  type Text = Option<string>

  /** The bibliographic columns both a Work and its Manifestation carry. */
  datatype Biblio = Biblio(
    docType: Text, year: Text, publishedDate: Text, edition: Text, publisher: Text, location: Text,
    journal: Text, volume: Text, issue: Text, pages: Text, isbn: Text, doi: Text, urldate: Text)

  datatype Work = Work(
    biblio: Biblio, filePath: Text, sourceKind: Text, sourceUrl: Text, sourceMime: Text, thumbUrl: Text,
    thumbPage: Option<int>, provider: Text, providerId: Text,
    canonicalRevision: int, materializedRevision: int, primaryManifestation: Option<RowId>)

  datatype AssetKind = ManagedFile | ExternalStream

  /** The mirrored columns of an Asset. */
  datatype AssetFields = AssetFields(
    kind: AssetKind, storageLocator: Text, provider: Text, providerId: Text, url: Text, mediaType: Text,
    thumbPage: Option<int>, thumbUrl: Text, canonicalRevision: int, materializedRevision: int)

  datatype Manifestation = Manifestation(
    work: WorkId, origin: Option<WorkId>, biblio: Biblio, url: Text, primaryAsset: Option<RowId>)

  datatype Asset = Asset(manifestation: RowId, work: WorkId, origin: Option<WorkId>, fields: AssetFields)

  datatype Annotation = Annotation(work: WorkId, asset: Option<RowId>)

  datatype Tables = Tables(
    works: map<WorkId, Work>, manifestations: map<RowId, Manifestation>, assets: map<RowId, Asset>,
    inferred: map<WorkId, string>, annotations: map<RowId, Annotation>)

  // ---- SQL text functions --------------------------------------------------

  predicate Space(c: char) { c == ' ' || '\t' <= c <= '\r' }

  function TrimLeft(s: string): string {
    if s != "" && Space(s[0]) then TrimLeft(s[1..]) else s
  }

  function TrimRight(s: string): string {
    if s != "" && Space(s[|s| - 1]) then TrimRight(s[..|s| - 1]) else s
  }

  function Trim(s: string): string { TrimRight(TrimLeft(s)) }

  predicate Hex(c: char) { '0' <= c <= '9' || 'A' <= c <= 'F' || 'a' <= c <= 'f' }

  predicate PercentEscaped(s: string) {
    exists i :: 0 <= i < |s| - 2 && s[i] == '%' && Hex(s[i + 1]) && Hex(s[i + 2])
  }

  function Content(t: Text): string { t.GetOr("") }

  const PDF_PREFIX := "/api/pdfs/"

  // ---- legacy_work_asset_mirror --------------------------------------------

  function KindNorm(w: Work): string { Texts.Lower(Trim(Content(w.sourceKind))) }

  predicate IsStream(w: Work, inferred: Option<string>) {
    if KindNorm(w) == "video" then true
    else if KindNorm(w) == "pdf" then false
    else
      && Trim(Content(w.filePath)) == ""
      && Trim(Content(w.sourceUrl)) != ""
      && (Content(w.provider) != "" || Content(w.providerId) != "" ||
          (inferred.Some? && inferred == w.sourceUrl))
  }

  /** The basename of a managed PDF path, when it is one. */
  function Locator(w: Work): Text {
    match w.filePath
    case None => None
    case Some(p) =>
      if |p| > 10 && p[..10] == PDF_PREFIX && (var name := p[10..];
            && '/' !in name && '\\' !in name && name != "." && name != ".."
            && name == Trim(name) && !PercentEscaped(name))
      then Some(p[10..]) else None
  }

  predicate HasAssetValue(w: Work, inferred: Option<string>) {
    || Content(w.filePath) != ""
    || KindNorm(w) == "video"
    || Content(w.provider) != "" || Content(w.providerId) != ""
    || Content(w.sourceMime) != "" || Content(w.thumbUrl) != ""
    || w.thumbPage.Some?
    || w.canonicalRevision != 0 || w.materializedRevision != 0
    || IsStream(w, inferred)
  }

  function AssetView(w: Work, inferred: Option<string>): AssetFields {
    var stream := IsStream(w, inferred);
    AssetFields(
      if stream then ExternalStream else ManagedFile,
      if stream then None else Locator(w),
      w.provider, w.providerId,
      if stream then w.sourceUrl else None,
      if Content(w.sourceMime) != "" then w.sourceMime
      else if !stream && Locator(w).Some? then Some("application/pdf") else None,
      w.thumbPage, w.thumbUrl, w.canonicalRevision, w.materializedRevision)
  }

  function Inferred(t: Tables, w: WorkId): Option<string> {
    if w in t.inferred then Some(t.inferred[w]) else None
  }

  // ---- legacy_work_manifestation_mirror ------------------------------------

  predicate OriginRow(origin: Option<WorkId>, w: WorkId) { origin == Some(w) }

  /** The view joins the origin Asset the Work still owns. */
  predicate OwnsStream(t: Tables, w: WorkId) {
    exists id :: id in t.assets && OwnedAsset(t, id, w) && t.assets[id].fields.kind == ExternalStream
  }

  predicate OwnedAsset(t: Tables, id: RowId, w: WorkId)
    requires id in t.assets
  {
    OriginRow(t.assets[id].origin, w) && t.assets[id].work == w
  }

  predicate OwnedManifestation(t: Tables, id: RowId, w: WorkId)
    requires id in t.manifestations
  {
    OriginRow(t.manifestations[id].origin, w) && t.manifestations[id].work == w
  }

  function ManifestationUrl(t: Tables, w: WorkId): Text
    requires w in t.works
  {
    if OwnsStream(t, w) then None else t.works[w].sourceUrl
  }

  // ---- Parity --------------------------------------------------------------

  predicate HasOriginAsset(t: Tables, w: WorkId) {
    exists id :: id in t.assets && OriginRow(t.assets[id].origin, w)
  }

  predicate HasOwnedManifestation(t: Tables, w: WorkId) {
    exists id :: id in t.manifestations && OwnedManifestation(t, id, w)
  }

  predicate ManifestationCurrent(t: Tables, id: RowId)
    requires id in t.manifestations
  {
    var m := t.manifestations[id];
    m.origin == Some(m.work) ==>
      m.work in t.works && m.biblio == t.works[m.work].biblio && m.url == ManifestationUrl(t, m.work)
  }

  predicate AssetCurrent(t: Tables, id: RowId)
    requires id in t.assets
  {
    var a := t.assets[id];
    a.origin == Some(a.work) ==>
      a.work in t.works && a.fields == AssetView(t.works[a.work], Inferred(t, a.work))
  }

  /** What the foreign keys, the unique columns and the pointer guard keep. */
  ghost predicate Keys(t: Tables) {
    && (forall id :: id in t.manifestations ==> t.manifestations[id].work in t.works)
    && (forall id :: id in t.assets ==>
          && t.assets[id].manifestation in t.manifestations
          && t.manifestations[t.assets[id].manifestation].work == t.assets[id].work)
    && (forall i, j :: i in t.manifestations && j in t.manifestations && i != j && t.manifestations[i].origin.Some? ==>
          t.manifestations[i].origin != t.manifestations[j].origin)
    && (forall i, j :: i in t.assets && j in t.assets && i != j && t.assets[i].origin.Some? ==>
          t.assets[i].origin != t.assets[j].origin)
    && (forall w :: w in t.inferred ==> w in t.works)
    && (forall w :: w in t.works && t.works[w].primaryManifestation.Some? ==>
          var p := t.works[w].primaryManifestation.value;
          p in t.manifestations && t.manifestations[p].work == w)
  }

  /** The mirror of Work `w` needs an origin Asset and has one. */
  predicate AssetPresent(t: Tables, w: WorkId)
    requires w in t.works
  {
    HasAssetValue(t.works[w], Inferred(t, w)) && HasOwnedManifestation(t, w) ==> HasOriginAsset(t, w)
  }

  /** Mirror parity: every origin row its origin Work still owns equals the view,
      and a Work with an asset value has an origin Asset. */
  ghost predicate Parity(t: Tables) {
    && Keys(t)
    && (forall id :: id in t.manifestations ==> ManifestationCurrent(t, id))
    && (forall id :: id in t.assets ==> AssetCurrent(t, id))
    && (forall w :: w in t.works ==> AssetPresent(t, w))
  }

  /** Parity for every Work but `w`, whose statement is still running. */
  ghost predicate ParityExcept(t: Tables, w: WorkId) {
    && Keys(t)
    && (forall id :: id in t.manifestations && t.manifestations[id].work != w ==> ManifestationCurrent(t, id))
    && (forall id :: id in t.assets && t.assets[id].work != w ==> AssetCurrent(t, id))
    && (forall v :: v in t.works && v != w ==> AssetPresent(t, v))
  }
}
