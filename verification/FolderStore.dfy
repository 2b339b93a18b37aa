/** Folders, which folder each Work is in, and the operations on both. */
module FolderStore {
  import opened Common
  import opened Texts
  import opened FolderFields
  import opened FolderTree

  type WorkId = string

  /** `parent` is "" at the top. */
  datatype Folder = Folder(title: string, description: string, notes: string, parent: Id) {
    function Get(field: Field): string {
      match field
      case Title => title
      case Description => description
      case PrivateNotes => notes
      case Parent => parent
    }

    function With(field: Field, value: string): Folder {
      match field
      case Title => this.(title := value)
      case Description => this.(description := value)
      case PrivateNotes => this.(notes := value)
      case Parent => this.(parent := value)
    }
  }

  /** Revision rows outlive folders and Works. */
  datatype Catalogue = Catalogue(
    folders: map<Id, Folder>,
    filed: set<(Id, WorkId)>,
    works: set<WorkId>,
    fieldRevisions: map<(Id, Field), nat>,
    workRevisions: map<WorkId, nat>)

  datatype Code =
    | Acknowledged | InvalidEnvelope | EntityNotFound | ParentNotFound | ParentCycle | TitleTaken
    | FolderNotFound | FolderNotEmpty | FolderHasSubfolders | FutureRevision | RevisionConflict

  datatype Reply = Reply(code: Code, changed: bool, revision: nat)

  function ParentsOf(folders: map<Id, Folder>): Parents {
    map id | id in folders :: folders[id].parent
  }

  function FieldRevision(c: Catalogue, id: Id, field: Field): nat {
    if (id, field) in c.fieldRevisions then c.fieldRevisions[(id, field)] else 0
  }

  function WorkRevision(c: Catalogue, w: WorkId): nat {
    if w in c.workRevisions then c.workRevisions[w] else 0
  }

  /** No other folder under `parent` has the title. */
  predicate TitleFree(folders: map<Id, Folder>, title: string, parent: Id, self: Option<Id>) {
    forall id :: id in folders && folders[id].parent == parent && Some(id) != self ==>
      TitleKey(folders[id].title) != Lower(title)
  }

  ghost predicate UniqueTitles(folders: map<Id, Folder>) {
    forall a, b :: a in folders && b in folders && a != b && folders[a].parent == folders[b].parent ==>
      TitleKey(folders[a].title) != TitleKey(folders[b].title)
  }

  ghost predicate CanonicalTitles(folders: map<Id, Folder>) {
    forall id :: id in folders ==> CanonicalWire(Title, folders[id].title) == folders[id].title
  }

  ghost predicate FoldersValid(folders: map<Id, Folder>) {
    Forest(ParentsOf(folders)) && UniqueTitles(folders) && CanonicalTitles(folders)
  }

  ghost predicate FilingValid(folders: set<Id>, works: set<WorkId>, filed: set<(Id, WorkId)>) {
    && (forall f: (Id, WorkId) :: f in filed ==> f.0 in folders && f.1 in works)
    && OneFolderEach(filed)
  }

  /** What every run keeps. */
  ghost predicate Valid(c: Catalogue) {
    FoldersValid(c.folders) && FilingValid(c.folders.Keys, c.works, c.filed)
  }

  /** The folder a Work is in, "" for none. */
  ghost function FolderOf(filed: set<(Id, WorkId)>, w: WorkId): Id {
    if f :| f in filed && f.1 == w then f.0 else ""
  }

  /** Each Work is in at most one folder. */
  ghost predicate OneFolderEach(filed: set<(Id, WorkId)>) {
    forall f: (Id, WorkId), g :: f in filed && g in filed && f.1 == g.1 ==> f == g
  }

  lemma FolderOfIs(filed: set<(Id, WorkId)>, f: (Id, WorkId))
    requires OneFolderEach(filed) && f in filed
    ensures FolderOf(filed, f.1) == f.0
  {
  }

  // ---- Fields --------------------------------------------------------------

  function Written(c: Catalogue, id: Id, field: Field, value: string): Catalogue
    requires id in c.folders
  {
    c.(folders := c.folders[id := c.folders[id].With(field, value)],
       fieldRevisions := c.fieldRevisions[(id, field) := FieldRevision(c, id, field) + 1])
  }

  /** Why a folder may not go under `parent`, if so. */
  ghost function ParentRefusal(p: Parents, id: Id, parent: Id): Option<Code> {
    if parent == "" then None
    else if parent == id then Some(ParentCycle)
    else if parent !in p then Some(ParentNotFound)
    else if Below(p, id, parent) then Some(ParentCycle)
    else None
  }

  /** Why a write of the canonical text `desired` is refused, if it is. */
  ghost function FieldRefusal(folders: map<Id, Folder>, id: Id, field: Field, desired: string): Option<Code>
    requires id in folders
  {
    var f := folders[id].With(field, desired);
    if field == Parent && ParentRefusal(ParentsOf(folders), id, desired).Some?
    then ParentRefusal(ParentsOf(folders), id, desired)
    else if (field == Title || field == Parent) && !TitleFree(folders, CanonicalWire(Title, f.title), f.parent, Some(id))
    then Some(TitleTaken)
    else None
  }

  ghost function WriteField(c: Catalogue, id: Id, field: Field, desired: string): (Catalogue, Reply)
    requires id in c.folders
  {
    var revision := FieldRevision(c, id, field);
    if c.folders[id].Get(field) == desired then (c, Reply(Acknowledged, false, revision))
    else match FieldRefusal(c.folders, id, field, desired)
      case Some(code) => (c, Reply(code, false, revision))
      case None => (Written(c, id, field, desired), Reply(Acknowledged, true, revision + 1))
  }

  ghost function PatchField(c: Catalogue, id: Id, field: Field, desired: string): (Catalogue, Reply) {
    if id !in c.folders then (c, Reply(EntityNotFound, false, FieldRevision(c, id, field)))
    else WriteField(c, id, field, desired)
  }

  /** The shared write boundary: the text is validated first. */
  ghost function SetField(c: Catalogue, id: Id, field: Field, value: string): (Catalogue, Reply) {
    var desired := CanonicalWire(field, value);
    if Fits(field, desired) then PatchField(c, id, field, desired)
    else (c, Reply(InvalidEnvelope, false, FieldRevision(c, id, field)))
  }

  /** SET_FOLDER_FIELD with a canonical text. */
  ghost function BasedField(c: Catalogue, id: Id, field: Field, desired: string, base: int): (Catalogue, Reply) {
    var revision := FieldRevision(c, id, field);
    if id !in c.folders then (c, Reply(EntityNotFound, false, revision))
    else if base > revision then (c, Reply(FutureRevision, false, revision))
    else if base < revision && c.folders[id].Get(field) != desired then (c, Reply(RevisionConflict, false, revision))
    else WriteField(c, id, field, desired)
  }

  /** SET_FOLDER_FIELD, its envelope validated first. */
  ghost function ApplyField(c: Catalogue, id: Id, field: Field, value: string, base: int): (Catalogue, Reply) {
    var desired := CanonicalWire(field, value);
    if Fits(field, desired) then BasedField(c, id, field, desired, base)
    else (c, Reply(InvalidEnvelope, false, FieldRevision(c, id, field)))
  }

  // ---- Creation and deletion -----------------------------------------------

  const HEX_CHARS := 32

  /** A client-minted folder id. */
  predicate Distributed(id: Id) {
    |id| == HEX_CHARS + 2 && id[..2] == "F-" && forall i :: 2 <= i < |id| ==> '0' <= id[i] <= '9' || 'A' <= id[i] <= 'F'
  }

  function Canonical(f: Folder): Folder {
    Folder(CanonicalWire(Title, f.title), CanonicalWire(Description, f.description),
           CanonicalWire(PrivateNotes, f.notes), CanonicalWire(Parent, f.parent))
  }

  predicate AllFit(f: Folder) {
    && Fits(Title, f.title) && Fits(Description, f.description)
    && Fits(PrivateNotes, f.notes) && Fits(Parent, f.parent)
  }

  function InsertFolder(c: Catalogue, id: Id, clean: Folder): (Catalogue, Reply) {
    if clean.parent != "" && clean.parent !in c.folders then (c, Reply(ParentNotFound, false, 0))
    else if !TitleFree(c.folders, clean.title, clean.parent, None) then (c, Reply(TitleTaken, false, 0))
    else (c.(folders := c.folders[id := clean]), Reply(Acknowledged, true, 0))
  }

  /** CREATE_FOLDER with canonical texts: a retry acknowledges the folder as it stands. */
  function CreateFolder(c: Catalogue, id: Id, clean: Folder): (Catalogue, Reply) {
    if id in c.folders then (c, Reply(Acknowledged, false, 0)) else InsertFolder(c, id, clean)
  }

  /** CREATE_FOLDER, its envelope validated first. */
  function ApplyCreate(c: Catalogue, id: Id, folder: Folder): (Catalogue, Reply) {
    if Distributed(id) && AllFit(Canonical(folder)) then CreateFolder(c, id, Canonical(folder))
    else (c, Reply(InvalidEnvelope, false, 0))
  }

  /** DELETE_FOLDER, of an empty folder only. */
  function ApplyDelete(c: Catalogue, id: Id): (Catalogue, Reply) {
    if id !in c.folders then (c, Reply(Acknowledged, false, 0))
    else if exists f: (Id, WorkId) :: f in c.filed && f.0 == id then (c, Reply(FolderNotEmpty, false, 0))
    else if exists child :: child in c.folders && c.folders[child].parent == id then (c, Reply(FolderHasSubfolders, false, 0))
    else (c.(folders := c.folders - {id}), Reply(Acknowledged, true, 0))
  }

  // ---- Filing --------------------------------------------------------------

  function Refiled(filed: set<(Id, WorkId)>, w: WorkId, folder: Id): set<(Id, WorkId)> {
    (set f | f in filed && f.1 != w) + if folder == "" then {} else {(folder, w)}
  }

  ghost function Refile(c: Catalogue, w: WorkId, desired: Id): (Catalogue, Reply) {
    var revision := WorkRevision(c, w);
    if FolderOf(c.filed, w) == desired then (c, Reply(Acknowledged, false, revision))
    else if desired != "" && desired !in c.folders then (c, Reply(FolderNotFound, false, revision))
    else (c.(filed := Refiled(c.filed, w, desired), workRevisions := c.workRevisions[w := revision + 1]),
          Reply(Acknowledged, true, revision + 1))
  }

  /** The shared write boundary for filing. */
  ghost function SetWorkFolder(c: Catalogue, w: WorkId, folder: Id): (Catalogue, Reply) {
    Refile(c, w, Strip(folder))
  }

  /** SET_WORK_FOLDER with a canonical folder id. */
  ghost function BasedFiling(c: Catalogue, w: WorkId, desired: Id, base: int): (Catalogue, Reply) {
    var revision := WorkRevision(c, w);
    if w !in c.works then (c, Reply(EntityNotFound, false, revision))
    else if base > revision then (c, Reply(FutureRevision, false, revision))
    else if base < revision && FolderOf(c.filed, w) != desired then (c, Reply(RevisionConflict, false, revision))
    else Refile(c, w, desired)
  }

  /** SET_WORK_FOLDER, its envelope validated first. */
  ghost function ApplyWorkFolder(c: Catalogue, w: WorkId, folder: Id, base: int): (Catalogue, Reply) {
    if Strip(folder) == folder && |folder| <= MAX_TITLE_BYTES then BasedFiling(c, w, folder, base)
    else (c, Reply(InvalidEnvelope, false, WorkRevision(c, w)))
  }

  /** What the ordinary attachment checks: the folder and the Work exist, and the Work
      is in no folder. */
  predicate Attachable(c: Catalogue, w: WorkId, folder: Id) {
    folder in c.folders && w in c.works && forall f: (Id, WorkId) :: f in c.filed ==> f.1 != w
  }

  /** The ordinary attachment of a Work that is in no folder; no revision moves. */
  function AddToFolder(c: Catalogue, w: WorkId, folder: Id): Catalogue {
    if Attachable(c, w, folder) then c.(filed := c.filed + {(folder, w)}) else c
  }

  /** A new Work is filed as it is created. */
  function WorkCreated(c: Catalogue, w: WorkId, folder: Id): Catalogue {
    if w in c.works || folder !in c.folders then c
    else c.(works := c.works + {w}, filed := c.filed + {(folder, w)})
  }

  function WorkDeleted(c: Catalogue, w: WorkId): Catalogue {
    c.(works := c.works - {w}, filed := set f | f in c.filed && f.1 != w)
  }

  // ---- What each operation keeps -------------------------------------------

  lemma {:induction false} FieldKeepsFolders(folders: map<Id, Folder>, id: Id, field: Field, desired: string)
    requires FoldersValid(folders) && id in folders && CanonicalWire(field, desired) == desired
    requires FieldRefusal(folders, id, field, desired) == None
    ensures FoldersValid(folders[id := folders[id].With(field, desired)])
  {
    var f := folders[id].With(field, desired);
    MayMoveThere(ParentsOf(folders), id, f.parent);
    FieldKeepsForest(folders, id, f, field == Parent);
    TitlesStayUnique(folders, id, f, folders[id := f]);
  }

  lemma {:induction false} FieldKeepsForest(folders: map<Id, Folder>, id: Id, f: Folder, moves: bool)
    requires Forest(ParentsOf(folders)) && id in folders
    requires if moves then MayMove(ParentsOf(folders), id, f.parent) else f.parent == folders[id].parent
    ensures Forest(ParentsOf(folders[id := f]))
  {
    assert ParentsOf(folders[id := f]) == ParentsOf(folders)[id := f.parent];
    if moves {
      MovedIsForest(ParentsOf(folders), id, f.parent);
    } else {
      assert ParentsOf(folders)[id := f.parent] == ParentsOf(folders);
    }
  }

  lemma {:induction false} TitlesStayUnique(before: map<Id, Folder>, id: Id, f: Folder, after: map<Id, Folder>)
    requires UniqueTitles(before) && CanonicalTitles(before) && after == before[id := f]
    requires CanonicalWire(Title, f.title) == f.title
    requires TitleFree(before, f.title, f.parent, Some(id)) ||
             (id in before && before[id].title == f.title && before[id].parent == f.parent)
    ensures UniqueTitles(after) && CanonicalTitles(after)
  {
    CanonicalOnce(Title, f.title);
  }

  lemma MayMoveThere(p: Parents, id: Id, parent: Id)
    ensures ParentRefusal(p, id, parent) == None <==> MayMove(p, id, parent)
  {
  }

  lemma {:induction false} WriteKeepsValid(c: Catalogue, id: Id, field: Field, desired: string)
    requires Valid(c) && id in c.folders && CanonicalWire(field, desired) == desired
    ensures Valid(WriteField(c, id, field, desired).0)
  {
    if FieldRefusal(c.folders, id, field, desired) == None {
      FieldKeepsFolders(c.folders, id, field, desired);
      assert c.folders[id := c.folders[id].With(field, desired)].Keys == c.folders.Keys;
    }
  }

  lemma {:induction false} CreateKeepsFolders(folders: map<Id, Folder>, id: Id, clean: Folder)
    requires FoldersValid(folders) && id !in folders && id != "" && CanonicalWire(Title, clean.title) == clean.title
    requires (clean.parent == "" || clean.parent in folders) && TitleFree(folders, clean.title, clean.parent, None)
    ensures FoldersValid(folders[id := clean])
  {
    AddKeepsForest(ParentsOf(folders), id, clean.parent);
    assert ParentsOf(folders[id := clean]) == ParentsOf(folders)[id := clean.parent];
    TitlesStayUnique(folders, id, clean, folders[id := clean]);
  }

  lemma {:induction false} InsertKeepsValid(c: Catalogue, id: Id, clean: Folder)
    requires Valid(c) && id !in c.folders && id != "" && CanonicalWire(Title, clean.title) == clean.title
    ensures Valid(InsertFolder(c, id, clean).0)
  {
    if InsertFolder(c, id, clean).1.changed {
      CreateKeepsFolders(c.folders, id, clean);
      assert c.folders.Keys <= c.folders[id := clean].Keys;
    }
  }

  lemma {:induction false} DeleteKeepsFolders(folders: map<Id, Folder>, id: Id)
    requires FoldersValid(folders) && forall child :: child in folders ==> folders[child].parent != id
    ensures FoldersValid(folders - {id})
  {
    RemoveKeepsForest(ParentsOf(folders), id);
    assert ParentsOf(folders - {id}) == ParentsOf(folders) - {id};
  }

  lemma {:induction false} DeleteKeepsValid(c: Catalogue, id: Id)
    requires Valid(c)
    ensures Valid(ApplyDelete(c, id).0)
  {
    if ApplyDelete(c, id).1.changed { DeleteKeepsFolders(c.folders, id); }
  }

  lemma {:induction false} FilingKeepsValid(c: Catalogue, w: WorkId, desired: Id)
    requires Valid(c) && w in c.works
    ensures Valid(Refile(c, w, desired).0)
  {
  }
}
