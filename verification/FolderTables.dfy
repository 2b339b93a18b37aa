/** The folder tables, changed in place by the shared boundaries and the handlers. */
module FolderTables {
  import opened Common
  import opened Texts
  import opened FolderFields
  import opened FolderTree
  import opened FolderStore

  class Tables {
    var folders: map<Id, Folder>
    var filed: set<(Id, WorkId)>
    var works: set<WorkId>
    var fieldRevisions: map<(Id, Field), nat>
    var workRevisions: map<WorkId, nat>

    constructor (c: Catalogue)
      ensures Contents() == c
    {
      folders, filed, works := c.folders, c.filed, c.works;
      fieldRevisions, workRevisions := c.fieldRevisions, c.workRevisions;
    }

    function Contents(): Catalogue reads this {
      Catalogue(folders, filed, works, fieldRevisions, workRevisions)
    }

    // ---- Reads -------------------------------------------------------------

    method Descendants(id: Id) returns (sub: set<Id>)
      requires Forest(ParentsOf(folders)) && id in folders
      ensures forall x :: x in sub <==> Below(ParentsOf(folders), id, x)
    {
      var p := ParentsOf(folders);
      var queue := set x | x in folders && folders[x].parent == id;
      sub := queue;
      forall x | x in sub ensures Below(p, id, x) { ChildBelow(p, id, x); }
      while queue != {}
        invariant queue <= sub <= p.Keys
        invariant forall x :: x in p && (p[x] == id || p[x] in sub - queue) ==> x in sub
        invariant forall x :: x in sub ==> Below(p, id, x)
        decreases p.Keys - sub, |queue|
      {
        var parent :| parent in queue;
        var children := set x | x in folders && folders[x].parent == parent && x !in sub;
        forall x | x in children ensures Below(p, id, x) { ChildBelow(p, id, x); }
        queue := queue - {parent} + children;
        sub := sub + children;
      }
      forall x | Below(p, id, x) ensures x in sub {
        var n: nat :| n > 0 && Up(p, x, n) == id;
        ClosedHoldsBelow(p, id, sub, x, n);
      }
    }

    method ParentUsable(id: Id, parent: Id) returns (refusal: Option<Code>)
      requires Forest(ParentsOf(folders)) && id in folders
      ensures refusal == ParentRefusal(ParentsOf(folders), id, parent)
    {
      if parent == "" { return None; }
      if parent == id { return Some(ParentCycle); }
      if parent !in folders { return Some(ParentNotFound); }
      var below := Descendants(id);
      refusal := if parent in below then Some(ParentCycle) else None;
    }

    method CurrentWorkFolder(w: WorkId) returns (folder: Id)
      requires OneFolderEach(filed)
      ensures folder == FolderOf(filed, w)
    {
      if f :| f in filed && f.1 == w {
        FolderOfIs(filed, f);
        return f.0;
      }
      folder := "";
    }

    // ---- Fields ------------------------------------------------------------

    method WriteFieldHere(id: Id, field: Field, desired: string) returns (reply: Reply)
      requires Forest(ParentsOf(folders)) && id in folders
      modifies this`folders, this`fieldRevisions
      ensures (Contents(), reply) == WriteField(old(Contents()), id, field, desired)
    {
      var revision := FieldRevision(Contents(), id, field);
      if folders[id].Get(field) == desired { return Reply(Acknowledged, false, revision); }
      if field == Parent {
        var refusal := ParentUsable(id, desired);
        if refusal.Some? { return Reply(refusal.value, false, revision); }
      }
      var title := if field == Title then desired else folders[id].title;
      var parent := if field == Parent then desired else folders[id].parent;
      if field == Title || field == Parent {
        if !TitleFree(folders, CanonicalWire(Title, title), parent, Some(id)) {
          return Reply(TitleTaken, false, revision);
        }
      }
      folders := folders[id := folders[id].With(field, desired)];
      fieldRevisions := fieldRevisions[(id, field) := revision + 1];
      reply := Reply(Acknowledged, true, revision + 1);
    }

    method SetFieldHere(id: Id, field: Field, value: string) returns (reply: Reply)
      requires Forest(ParentsOf(folders))
      modifies this`folders, this`fieldRevisions
      ensures (Contents(), reply) == SetField(old(Contents()), id, field, value)
    {
      var desired := CanonicalWire(field, value);
      var revision := FieldRevision(Contents(), id, field);
      if !Fits(field, desired) { return Reply(InvalidEnvelope, false, revision); }
      if id !in folders { return Reply(EntityNotFound, false, revision); }
      reply := WriteFieldHere(id, field, desired);
    }

    /** `desired` passes validation as it is. */
    method BasedFieldHere(id: Id, field: Field, desired: string, base: int) returns (reply: Reply)
      requires Forest(ParentsOf(folders))
      requires SetField(Contents(), id, field, desired) == PatchField(Contents(), id, field, desired)
      modifies this`folders, this`fieldRevisions
      ensures (Contents(), reply) == BasedField(old(Contents()), id, field, desired, base)
    {
      var revision := FieldRevision(Contents(), id, field);
      if id !in folders { return Reply(EntityNotFound, false, revision); }
      if base > revision { return Reply(FutureRevision, false, revision); }
      if base < revision && folders[id].Get(field) != desired { return Reply(RevisionConflict, false, revision); }
      reply := SetFieldHere(id, field, desired);
    }

    method ApplyFieldHere(id: Id, field: Field, value: string, base: int) returns (reply: Reply)
      requires Forest(ParentsOf(folders))
      modifies this`folders, this`fieldRevisions
      ensures (Contents(), reply) == ApplyField(old(Contents()), id, field, value, base)
    {
      var desired := CanonicalWire(field, value);
      if !Fits(field, desired) { return Reply(InvalidEnvelope, false, FieldRevision(Contents(), id, field)); }
      CanonicalOnce(field, value);
      reply := BasedFieldHere(id, field, desired, base);
    }

    // ---- Creation and deletion ---------------------------------------------

    method InsertFolderHere(id: Id, clean: Folder) returns (reply: Reply)
      modifies this`folders
      ensures (Contents(), reply) == InsertFolder(old(Contents()), id, clean)
    {
      if clean.parent != "" && clean.parent !in folders { return Reply(ParentNotFound, false, 0); }
      if !TitleFree(folders, clean.title, clean.parent, None) { return Reply(TitleTaken, false, 0); }
      folders := folders[id := clean];
      reply := Reply(Acknowledged, true, 0);
    }

    method ApplyCreateHere(id: Id, folder: Folder) returns (reply: Reply)
      modifies this`folders
      ensures (Contents(), reply) == ApplyCreate(old(Contents()), id, folder)
    {
      if !Distributed(id) || !AllFit(Canonical(folder)) { return Reply(InvalidEnvelope, false, 0); }
      if id in folders { return Reply(Acknowledged, false, 0); }
      reply := InsertFolderHere(id, Canonical(folder));
    }

    method ApplyDeleteHere(id: Id) returns (reply: Reply)
      modifies this`folders
      ensures (Contents(), reply) == ApplyDelete(old(Contents()), id)
    {
      if id !in folders { return Reply(Acknowledged, false, 0); }
      var files := set f | f in filed && f.0 == id;
      assert files != {} <==> exists f: (Id, WorkId) :: f in filed && f.0 == id by {
        if f: (Id, WorkId) :| f in filed && f.0 == id { assert f in files; }
      }
      if files != {} { return Reply(FolderNotEmpty, false, 0); }
      var children := set x | x in folders && folders[x].parent == id;
      assert children != {} <==> exists child :: child in folders && folders[child].parent == id by {
        if child :| child in folders && folders[child].parent == id { assert child in children; }
      }
      if children != {} { return Reply(FolderHasSubfolders, false, 0); }
      folders := folders - {id};
      reply := Reply(Acknowledged, true, 0);
    }

    // ---- Filing ------------------------------------------------------------

    method SetWorkFolderHere(w: WorkId, folder: Id) returns (reply: Reply)
      requires OneFolderEach(filed)
      modifies this`filed, this`workRevisions
      ensures (Contents(), reply) == SetWorkFolder(old(Contents()), w, folder)
    {
      var desired := Strip(folder);
      var revision := WorkRevision(Contents(), w);
      var current := CurrentWorkFolder(w);
      if current == desired { return Reply(Acknowledged, false, revision); }
      if desired != "" && desired !in folders { return Reply(FolderNotFound, false, revision); }
      filed := set f | f in filed && f.1 != w;
      if desired != "" { filed := filed + {(desired, w)}; }
      assert filed == Refiled(old(filed), w, desired);
      workRevisions := workRevisions[w := revision + 1];
      reply := Reply(Acknowledged, true, revision + 1);
    }

    method ApplyWorkFolderHere(w: WorkId, folder: Id, base: int) returns (reply: Reply)
      requires OneFolderEach(filed)
      modifies this`filed, this`workRevisions
      ensures (Contents(), reply) == ApplyWorkFolder(old(Contents()), w, folder, base)
    {
      var revision := WorkRevision(Contents(), w);
      if Strip(folder) != folder || |folder| > MAX_TITLE_BYTES { return Reply(InvalidEnvelope, false, revision); }
      if w !in works { return Reply(EntityNotFound, false, revision); }
      if base > revision { return Reply(FutureRevision, false, revision); }
      var current := CurrentWorkFolder(w);
      if base < revision && current != folder { return Reply(RevisionConflict, false, revision); }
      reply := SetWorkFolderHere(w, folder);
    }
  }
}
