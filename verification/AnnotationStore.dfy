/** Annotation rows, their revisions and the generation counters, and the four
    write paths as functions of them. */
module AnnotationStore {
  import opened Common

  type WorkId = string
  type AnnId = string

  /** One annotation as stored and reloaded. `meaning` is what semantic equality
      compares; the rest is viewer bookkeeping. */
  datatype Item = Item(id: AnnId, meaning: string, bookkeeping: string)

  predicate SameMeaning(a: Item, b: Item) { a.id == b.id && a.meaning == b.meaning }

  datatype Row = Row(work: WorkId, item: Item)

  /** The annotation table and the revision rows, which outlive annotations. */
  datatype Body = Body(rows: map<AnnId, Row>, revisions: map<(WorkId, AnnId), nat>)

  datatype Generations = Generations(canonical: nat, materialized: nat) {
    predicate Stale() { canonical > materialized }
  }

  datatype Store = Store(works: map<WorkId, Generations>, body: Body)

  function Revision(b: Body, w: WorkId, id: AnnId): nat {
    if (w, id) in b.revisions then b.revisions[(w, id)] else 0
  }

  predicate Present(b: Body, w: WorkId, id: AnnId) { id in b.rows && b.rows[id].work == w }

  function Advanced(b: Body, w: WorkId, id: AnnId): Body {
    b.(revisions := b.revisions[(w, id) := Revision(b, w, id) + 1])
  }

  function Inserted(b: Body, w: WorkId, item: Item): Body {
    b.(rows := b.rows[item.id := Row(w, item)])
  }

  function Updated(b: Body, w: WorkId, item: Item): Body {
    Advanced(Inserted(b, w, item), w, item.id)
  }

  function Deleted(b: Body, w: WorkId, id: AnnId): Body {
    Advanced(b.(rows := b.rows - {id}), w, id)
  }

  function Bumped(s: Store, w: WorkId): Store
    requires w in s.works
  {
    s.(works := s.works[w := s.works[w].(canonical := s.works[w].canonical + 1)])
  }

  // ---- CREATE, SET, DELETE -------------------------------------------------

  datatype Code =
    | Acknowledged | EntityNotFound | AnnotationIdConflict | AnnotationExists | AnnotationIdReused
    | FutureRevision | RevisionConflict | AnnotationSetStale | Malformed | MaterializationStale

  datatype Reply = Reply(code: Code, changed: bool, revision: nat)

  function ApplyCreate(s: Store, w: WorkId, item: Item): (Store, Reply) {
    var b := s.body;
    var revision := Revision(b, w, item.id);
    if w !in s.works then (s, Reply(EntityNotFound, false, revision))
    else if item.id in b.rows && b.rows[item.id].work != w then (s, Reply(AnnotationIdConflict, false, revision))
    else if item.id in b.rows then
      (s, Reply(if SameMeaning(b.rows[item.id].item, item) then Acknowledged else AnnotationExists, false, revision))
    else if revision > 0 then (s, Reply(AnnotationIdReused, false, revision))
    else (Bumped(s.(body := Inserted(b, w, item)), w), Reply(Acknowledged, true, 0))
  }

  function ApplySet(s: Store, w: WorkId, item: Item, base: int): (Store, Reply) {
    var b := s.body;
    var revision := Revision(b, w, item.id);
    if w !in s.works || !Present(b, w, item.id) then (s, Reply(EntityNotFound, false, revision))
    else if base > revision then (s, Reply(FutureRevision, false, revision))
    else
      var same := SameMeaning(b.rows[item.id].item, item);
      if base < revision && !same then (s, Reply(RevisionConflict, false, revision))
      else if same then (s, Reply(Acknowledged, false, revision))
      else (Bumped(s.(body := Updated(b, w, item)), w), Reply(Acknowledged, true, revision + 1))
  }

  function ApplyDelete(s: Store, w: WorkId, id: AnnId, base: int): (Store, Reply) {
    var b := s.body;
    var revision := Revision(b, w, id);
    if w !in s.works then (s, Reply(EntityNotFound, false, revision))
    else if base > revision then (s, Reply(FutureRevision, false, revision))
    else if !Present(b, w, id) then (s, Reply(Acknowledged, false, revision))
    else if base < revision then (s, Reply(RevisionConflict, false, revision))
    else (Bumped(s.(body := Deleted(b, w, id)), w), Reply(Acknowledged, true, revision + 1))
  }

  // ---- Full-list replace ---------------------------------------------------

  /** One incoming entry; `Unusable` is one that normalization rejects. */
  datatype Raw = Unusable | Usable(item: Item)

  predicate ListValid(raw: seq<Raw>) {
    && (forall r :: r in raw ==> r.Usable?)
    && (forall i, j :: 0 <= i < j < |raw| && raw[i].Usable? && raw[j].Usable? ==> raw[i].item.id != raw[j].item.id)
  }

  function Items(raw: seq<Raw>): seq<Item>
    requires ListValid(raw)
  {
    seq(|raw|, i requires 0 <= i < |raw| => raw[i].item)
  }

  /** One incoming annotation; None when the id was used before. */
  function ReplaceOne(b: Body, w: WorkId, item: Item): Option<Body> {
    if Present(b, w, item.id) then
      Some(if SameMeaning(b.rows[item.id].item, item) then b else Updated(b, w, item))
    else if Revision(b, w, item.id) > 0 then None
    else Some(Inserted(b, w, item))
  }

  function ReplaceAll(b: Body, w: WorkId, items: seq<Item>): Option<Body> {
    if items == [] then Some(b)
    else
      match ReplaceAll(b, w, items[..|items| - 1])
      case None => None
      case Some(b') => ReplaceOne(b', w, items[|items| - 1])
  }

  function Ids(items: seq<Item>): set<AnnId> { set i | 0 <= i < |items| :: items[i].id }

  function Owned(b: Body, w: WorkId): set<AnnId> { set id | id in b.rows && b.rows[id].work == w }

  /** Every id of `gone` deleted, with its revision advanced. */
  function DeletedAll(b: Body, w: WorkId, gone: set<AnnId>): Body {
    Body(b.rows - gone,
         map key | key in b.revisions.Keys + (set id | id in gone :: (w, id)) ::
           Revision(b, key.0, key.1) + if key.0 == w && key.1 in gone then 1 else 0)
  }

  /** No incoming id belongs to another Work. */
  predicate AllMine(b: Body, w: WorkId, items: seq<Item>) {
    forall i :: 0 <= i < |items| && items[i].id in b.rows ==> b.rows[items[i].id].work == w
  }

  function ApplyReplace(s: Store, w: WorkId, raw: seq<Raw>, baseSet: Option<int>): (Store, Code) {
    if w !in s.works then (s, EntityNotFound)
    else if baseSet.Some? && baseSet.value != s.works[w].canonical then (s, AnnotationSetStale)
    else if !ListValid(raw) then (s, Malformed)
    else
      var items := Items(raw);
      if !AllMine(s.body, w, items) then (s, AnnotationIdConflict)
      else
        Replaced(s, w, Ids(items), ReplaceAll(s.body, w, items))
  }

  /** The end of a replace: the annotations that were not listed go, and the
      generation moves if anything changed. */
  function Replaced(s: Store, w: WorkId, listed: set<AnnId>, r: Option<Body>): (Store, Code)
    requires w in s.works
  {
    match r
    case None => (s, AnnotationIdReused)
    case Some(b) =>
      var b' := DeletedAll(b, w, Owned(s.body, w) - listed);
      if b' == s.body then (s, Acknowledged) else (Bumped(s.(body := b'), w), Acknowledged)
  }

  // ---- Adoption of viewer markup -------------------------------------------

  /** An id field of a viewer item: missing or null, of a type no id has, or text. */
  datatype IdField = NoId | BadId | TextId(text: string)

  /** What the adopter reads: the first usable id field, "" for none. */
  function AnnotationId(fields: seq<IdField>): string {
    if fields == [] then ""
    else if fields[0].TextId? && fields[0].text != "" then fields[0].text
    else AnnotationId(fields[1..])
  }

  /** What normalization reads: it refuses a bad field instead of passing over it. */
  function CanonicalId(fields: seq<IdField>): Option<string> {
    if fields == [] then None
    else match fields[0]
      case NoId => CanonicalId(fields[1..])
      case BadId => None
      case TextId(text) => if text != "" then Some(text) else CanonicalId(fields[1..])
  }

  /** The id the revision check looks at is the id that gets inserted. */
  lemma IdsAgree(fields: seq<IdField>)
    ensures CanonicalId(fields).Some? ==> CanonicalId(fields).value == AnnotationId(fields)
  {
  }

  /** One viewer item: whether the classifiers take it for user markup, its id
      fields, and its content, which normalization may refuse. */
  datatype ViewerItem = ViewerItem(userMarkup: bool, idFields: seq<IdField>, content: Option<(string, string)>)

  function Normalized(v: ViewerItem): Option<Item> {
    if CanonicalId(v.idFields).Some? && v.content.Some?
    then Some(Item(CanonicalId(v.idFields).value, v.content.value.0, v.content.value.1)) else None
  }

  /** One viewer item; None when the whole adoption must be refused. */
  function AdoptOne(b: Body, w: WorkId, v: ViewerItem): Result<Body, Code> {
    var id := AnnotationId(v.idFields);
    if !v.userMarkup || id == "" || Present(b, w, id) || Revision(b, w, id) > 0 then Success(b)
    else if id in b.rows then Failure(AnnotationIdConflict)
    else match Normalized(v)
      case None => Failure(Malformed)
      case Some(item) => Success(Inserted(b, w, item))
  }

  function AdoptAll(b: Body, w: WorkId, vs: seq<ViewerItem>): Result<Body, Code> {
    if vs == [] then Success(b)
    else
      match AdoptAll(b, w, vs[..|vs| - 1])
      case Failure(code) => Failure(code)
      case Success(b') => AdoptOne(b', w, vs[|vs| - 1])
  }

  function ApplyAdopt(s: Store, w: WorkId, vs: seq<ViewerItem>): (Store, Code) {
    if w !in s.works then (s, EntityNotFound)
    else if s.works[w].Stale() then (s, MaterializationStale)
    else match AdoptAll(s.body, w, vs)
      case Failure(code) => (s, code)
      case Success(b) => if b == s.body then (s, Acknowledged) else (Bumped(s.(body := b), w), Acknowledged)
  }

  // ---- Materialization -----------------------------------------------------

  /** A claim is an exact integer; any other JSON value is `None`. */
  function ApplyClaim(s: Store, w: WorkId, claimed: Option<int>): (Store, Code) {
    if w !in s.works then (s, EntityNotFound)
    else if claimed.None? || claimed.value != s.works[w].canonical then (s, MaterializationStale)
    else (s.(works := s.works[w := s.works[w].(materialized := s.works[w].canonical)]), Acknowledged)
  }

  /** Marking at a generation the caller chose, `None` for the current one. */
  function ApplyMark(s: Store, w: WorkId, at: Option<int>): (Store, Code) {
    if w !in s.works then (s, Acknowledged)
    else
      var revision := at.GetOr(s.works[w].canonical);
      if revision < 0 || revision > s.works[w].canonical then (s, MaterializationStale)
      else (s.(works := s.works[w := s.works[w].(materialized := revision)]), Acknowledged)
  }
}
