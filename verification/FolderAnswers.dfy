/** The answers to the folder operations, decided on the payload as it arrived and the
    rows as they are: which operation is refused, and what an accepted one stores. */
module FolderAnswers {
  import opened Common
  import opened Texts
  import opened FolderFields
  import opened FolderTree
  import opened FolderStore

  predicate Blank(s: string) { forall i :: 0 <= i < |s| ==> Space(s[i]) }

  /** `text` is `raw` without the white space around it. */
  predicate Stripped(raw: string, text: string) {
    Bare(text) && exists i, j :: 0 <= i <= j <= |raw| && Blank(raw[..i]) && Blank(raw[j..]) && raw[i..j] == text
  }

  /** The text field `field` takes from `raw`: a blank title is the placeholder. */
  ghost predicate Says(field: Field, raw: string, text: string) {
    exists bare :: Stripped(raw, bare) && text == if field == Title && bare == "" then "Untitled Folder" else bare
  }

  predicate InLimits(title: string, description: string, notes: string, parent: Id) {
    && Utf8Bytes(title) <= 200 && Utf8Bytes(parent) <= 200
    && Utf8Bytes(description) <= 4000 && Utf8Bytes(notes) <= 4000
  }

  /** Another folder under the very same parent has the title, ASCII case aside. */
  predicate Taken(folders: map<Id, Folder>, title: string, parent: Id, besides: Option<Id>) {
    exists other :: other in folders && Some(other) != besides
                    && folders[other].parent == parent && Lower(folders[other].title) == Lower(title)
  }

  // ---- Texts ---------------------------------------------------------------

  lemma {:induction false} StripLeftIs(s: string) returns (i: nat)
    ensures i <= |s| && Blank(s[..i]) && StripLeft(s) == s[i..] && (i < |s| ==> !Space(s[i]))
  {
    i := 0;
    if s != "" && Space(s[0]) {
      i := StripLeftIs(s[1..]);
      i := i + 1;
      assert s[1..][i - 1..] == s[i..];
      forall k | 0 <= k < i ensures Space(s[k]) { if k > 0 { assert s[1..][..i - 1][k - 1] == s[k]; } }
    }
  }

  lemma {:induction false} StripRightIs(s: string) returns (j: nat)
    ensures j <= |s| && Blank(s[j..]) && StripRight(s) == s[..j] && (j > 0 ==> !Space(s[j - 1]))
  {
    j := |s|;
    if s != "" && Space(s[|s| - 1]) {
      var n := |s| - 1;
      j := StripRightIs(s[..n]);
      assert s[..n][..j] == s[..j];
      forall k | 0 <= k < |s| - j ensures Space(s[j..][k]) { if k < n - j { assert s[..n][j..][k] == s[j + k]; } }
    }
  }

  lemma {:induction false} StripStrips(s: string)
    ensures Stripped(s, Strip(s))
  {
    StripIsBare(s);
    var i := StripLeftIs(s);
    var j := StripRightIs(s[i..]);
    assert s[i..][j..] == s[i + j..] && s[i..][..j] == s[i..i + j];
  }

  lemma {:induction false} SpacesAround(s: string, i: nat, j: nat)
    requires i <= j <= |s| && Blank(s[..i]) && Blank(s[j..])
    ensures forall k :: 0 <= k < |s| && (k < i || j <= k) ==> Space(s[k])
  {
    forall k | 0 <= k < |s| && (k < i || j <= k) ensures Space(s[k]) {
      if k < i { assert s[..i][k] == s[k]; } else { assert s[j..][k - j] == s[k]; }
    }
  }

  lemma {:induction false} StrippedOnce(raw: string, a: string, b: string)
    requires Stripped(raw, a) && Stripped(raw, b)
    ensures a == b
  {
    var i, j :| 0 <= i <= j <= |raw| && Blank(raw[..i]) && Blank(raw[j..]) && raw[i..j] == a;
    var k, l :| 0 <= k <= l <= |raw| && Blank(raw[..k]) && Blank(raw[l..]) && raw[k..l] == b;
    SpacesAround(raw, i, j);
    SpacesAround(raw, k, l);
    if i < j { EndsBare(raw, i, j); }
    if k < l { EndsBare(raw, k, l); }
    if i < j && k < l { assert i == k && j == l; }
  }

  lemma {:induction false} EndsBare(raw: string, i: nat, j: nat)
    requires i < j <= |raw| && Bare(raw[i..j])
    ensures !Space(raw[i]) && !Space(raw[j - 1])
  {
    assert raw[i..j][0] == raw[i] && raw[i..j][j - i - 1] == raw[j - 1];
  }

  lemma {:induction false} SaysIs(field: Field, raw: string, text: string)
    ensures Says(field, raw, text) <==> text == CanonicalWire(field, raw)
  {
    StripStrips(raw);
    if Says(field, raw, text) {
      var bare :| Stripped(raw, bare) && text == if field == Title && bare == "" then "Untitled Folder" else bare;
      StrippedOnce(raw, bare, Strip(raw));
    }
  }

  // ---- Sibling titles ------------------------------------------------------

  /** Against stored titles the key of the index is the title in lower case. */
  lemma {:induction false} TakenIs(folders: map<Id, Folder>, title: string, parent: Id, besides: Option<Id>)
    requires CanonicalTitles(folders)
    ensures TitleFree(folders, title, parent, besides) <==> !Taken(folders, title, parent, besides)
  {
    forall id | id in folders ensures TitleKey(folders[id].title) == Lower(folders[id].title) {
      CanonicalOnce(Title, folders[id].title);
    }
  }

  // ---- CREATE_FOLDER -------------------------------------------------------

  /** A client-minted id: "F-" and 32 upper-case hexadecimal digits. */
  predicate ClientId(id: Id) {
    |id| == 34 && id[0] == 'F' && id[1] == '-' && forall i :: 2 <= i < 34 ==> id[i] in "0123456789ABCDEF"
  }

  lemma {:induction false} ClientIdIs(id: Id)
    ensures ClientId(id) <==> Distributed(id)
  {
    if |id| == 34 { assert id[..2] == [id[0], id[1]]; }
    forall c: char ensures c in "0123456789ABCDEF" <==> '0' <= c <= '9' || 'A' <= c <= 'F' { HexDigits(c); }
  }

  lemma {:induction false} HexDigits(c: char)
    ensures c in "0123456789ABCDEF" <==> '0' <= c <= '9' || 'A' <= c <= 'F'
  {
    var digits := "0123456789ABCDEF";
    if '0' <= c <= '9' { assert digits[c as int - '0' as int] == c; }
    if 'A' <= c <= 'F' { assert digits[c as int - 'A' as int + 10] == c; }
  }

  ghost predicate CreateAnswer(
    c: Catalogue, id: Id, title: string, description: string, notes: string, parent: Id, c': Catalogue, reply: Reply)
  {
    if !ClientId(id) || !InLimits(title, description, notes, parent) then reply.code == InvalidEnvelope && c' == c
    else if id in c.folders then reply == Reply(Acknowledged, false, 0) && c' == c
    else if parent != "" && parent !in c.folders then reply.code == ParentNotFound && c' == c
    else if Taken(c.folders, title, parent, None) then reply.code == TitleTaken && c' == c
    else reply == Reply(Acknowledged, true, 0) && c' == c.(folders := c.folders[id := Folder(title, description, notes, parent)])
  }

  /** A creation is refused for its title if and only if a folder under that very parent
      has it; an accepted one stores each text of the payload in its own column. */
  lemma {:induction false} CreateExactly(
      c: Catalogue, id: Id, payload: Folder, title: string, description: string, notes: string, parent: Id)
    requires CanonicalTitles(c.folders)
    requires Says(Title, payload.title, title) && Says(Description, payload.description, description)
    requires Says(PrivateNotes, payload.notes, notes) && Says(Parent, payload.parent, parent)
    ensures CreateAnswer(c, id, title, description, notes, parent, ApplyCreate(c, id, payload).0, ApplyCreate(c, id, payload).1)
  {
    CanonicalIs(payload, title, description, notes, parent);
    LimitsAre(Canonical(payload));
    CleanExactly(c, id, payload, title, description, notes, parent);
  }

  lemma {:induction false} CanonicalIs(payload: Folder, title: string, description: string, notes: string, parent: Id)
    requires Says(Title, payload.title, title) && Says(Description, payload.description, description)
    requires Says(PrivateNotes, payload.notes, notes) && Says(Parent, payload.parent, parent)
    ensures Canonical(payload) == Folder(title, description, notes, parent)
  {
    SaysIs(Title, payload.title, title);
    SaysIs(Description, payload.description, description);
    SaysIs(PrivateNotes, payload.notes, notes);
    SaysIs(Parent, payload.parent, parent);
  }

  lemma {:induction false} LimitsAre(f: Folder)
    ensures AllFit(f) <==> InLimits(f.title, f.description, f.notes, f.parent)
  {
  }

  lemma {:induction false} CleanExactly(
      c: Catalogue, id: Id, payload: Folder, title: string, description: string, notes: string, parent: Id)
    requires CanonicalTitles(c.folders) && Canonical(payload) == Folder(title, description, notes, parent)
    requires InLimits(title, description, notes, parent) <==> AllFit(Canonical(payload))
    ensures CreateAnswer(c, id, title, description, notes, parent, ApplyCreate(c, id, payload).0, ApplyCreate(c, id, payload).1)
  {
    ClientIdIs(id);
    TakenIs(c.folders, title, parent, None);
  }

  // ---- SET_FOLDER_FIELD ----------------------------------------------------

  /** The columns of two folders agree, but for the one `field` names, which says `text`. */
  predicate OnlyColumn(field: Field, text: string, a: Folder, b: Folder) {
    && b.title == (if field == Title then text else a.title)
    && b.description == (if field == Description then text else a.description)
    && b.notes == (if field == PrivateNotes then text else a.notes)
    && b.parent == (if field == Parent then text else a.parent)
  }

  ghost predicate FieldAnswer(c: Catalogue, id: Id, field: Field, text: string, base: int, c': Catalogue, reply: Reply) {
    if Utf8Bytes(text) > (if field == Title || field == Parent then 200 else 4000) then reply.code == InvalidEnvelope && c' == c
    else BasedAnswer(c, id, field, text, base, c', reply)
  }

  ghost predicate BasedAnswer(c: Catalogue, id: Id, field: Field, text: string, base: int, c': Catalogue, reply: Reply) {
    var revision := if (id, field) in c.fieldRevisions then c.fieldRevisions[(id, field)] else 0;
    if id !in c.folders then reply.code == EntityNotFound && c' == c
    else if base > revision then reply.code == FutureRevision && c' == c
    else if base < revision && !OnlyColumn(field, text, c.folders[id], c.folders[id]) then
      reply.code == RevisionConflict && c' == c
    else WriteAnswer(c, id, field, text, c', reply)
  }

  ghost predicate WriteAnswer(c: Catalogue, id: Id, field: Field, text: string, c': Catalogue, reply: Reply)
    requires id in c.folders
  {
    var revision := if (id, field) in c.fieldRevisions then c.fieldRevisions[(id, field)] else 0;
    var f := c.folders[id];
    if OnlyColumn(field, text, f, f) then reply == Reply(Acknowledged, false, revision) && c' == c
    else if field == Parent && text != "" && (text == id || (text in c.folders && Below(ParentsOf(c.folders), id, text))) then
      reply.code == ParentCycle && c' == c
    else if field == Parent && text != "" && text !in c.folders then reply.code == ParentNotFound && c' == c
    else if (field == Title && Taken(c.folders, text, f.parent, Some(id)))
            || (field == Parent && Taken(c.folders, f.title, text, Some(id))) then
      reply.code == TitleTaken && c' == c
    else
      && reply == Reply(Acknowledged, true, revision + 1)
      && id in c'.folders && OnlyColumn(field, text, f, c'.folders[id])
      && c' == c.(folders := c.folders[id := c'.folders[id]], fieldRevisions := c.fieldRevisions[(id, field) := revision + 1])
  }

  /** The same for a rename, a move, or a write of another field: the folder itself does
      not count among its siblings, and only the named column changes. */
  lemma {:induction false} FieldExactly(c: Catalogue, id: Id, field: Field, raw: string, base: int, text: string)
    requires CanonicalTitles(c.folders) && Says(field, raw, text)
    ensures FieldAnswer(c, id, field, text, base, ApplyField(c, id, field, raw, base).0, ApplyField(c, id, field, raw, base).1)
  {
    SaysIs(field, raw, text);
    CanonicalOnce(field, raw);
    BasedExactly(c, id, field, base, text);
  }

  lemma {:induction false} BasedExactly(c: Catalogue, id: Id, field: Field, base: int, text: string)
    requires CanonicalTitles(c.folders) && CanonicalWire(field, text) == text
    ensures BasedAnswer(c, id, field, text, base, BasedField(c, id, field, text, base).0, BasedField(c, id, field, text, base).1)
  {
    if id in c.folders { WriteExactly(c, id, field, text); }
  }

  lemma {:induction false} ColumnIs(f: Folder, field: Field, text: string)
    ensures f.Get(field) == text <==> OnlyColumn(field, text, f, f)
    ensures OnlyColumn(field, text, f, f.With(field, text))
  {
  }

  lemma {:induction false} WriteExactly(c: Catalogue, id: Id, field: Field, text: string)
    requires CanonicalTitles(c.folders) && id in c.folders && CanonicalWire(field, text) == text
    ensures var f := c.folders[id];
      (c.folders[id].Get(field) == text <==> OnlyColumn(field, text, f, f)) &&
      WriteAnswer(c, id, field, text, WriteField(c, id, field, text).0, WriteField(c, id, field, text).1)
  {
    var f := c.folders[id].With(field, text);
    ColumnIs(c.folders[id], field, text);
    assert CanonicalWire(Title, c.folders[id].title) == c.folders[id].title;
    TakenIs(c.folders, f.title, f.parent, Some(id));
  }

  // ---- DELETE_FOLDER and SET_WORK_FOLDER -----------------------------------

  /** A folder goes if and only if no Work is filed in it and no folder is under it. */
  lemma {:induction false} DeleteExactly(c: Catalogue, id: Id)
    ensures var (c', reply) := ApplyDelete(c, id);
      if id !in c.folders then c' == c && reply == Reply(Acknowledged, false, 0)
      else if exists w :: (id, w) in c.filed then c' == c && reply.code == FolderNotEmpty
      else if exists child :: child in c.folders && c.folders[child].parent == id then c' == c && reply.code == FolderHasSubfolders
      else c' == c.(folders := c.folders - {id}) && reply == Reply(Acknowledged, true, 0)
  {
    if f: (Id, WorkId) :| f in c.filed && f.0 == id { assert (id, f.1) in c.filed; }
  }

  /** A Work is in the folder, or for "" in none. */
  ghost predicate In(filed: set<(Id, WorkId)>, w: WorkId, folder: Id) {
    if folder == "" then forall f :: (f, w) !in filed else (folder, w) in filed
  }

  ghost predicate FilingAnswer(c: Catalogue, w: WorkId, to: Id, base: int, c': Catalogue, reply: Reply) {
    var revision := if w in c.workRevisions then c.workRevisions[w] else 0;
    if !Bare(to) || |to| > 200 then reply.code == InvalidEnvelope && c' == c
    else if w !in c.works then reply.code == EntityNotFound && c' == c
    else if base > revision then reply.code == FutureRevision && c' == c
    else if In(c.filed, w, to) then reply == Reply(Acknowledged, false, revision) && c' == c
    else if base < revision then reply.code == RevisionConflict && c' == c
    else if to != "" && to !in c.folders then reply.code == FolderNotFound && c' == c
    else
      && reply == Reply(Acknowledged, true, revision + 1) && In(c'.filed, w, to)
      && (forall f, v :: (f, v) in c'.filed <==> if v == w then f == to != "" else (f, v) in c.filed)
      && c' == c.(filed := c'.filed, workRevisions := c.workRevisions[w := revision + 1])
  }

  /** A filing is accepted from the current revision, acknowledged where the Work
      already is, and moves that Work and no other. */
  lemma {:induction false} FilingExactly(c: Catalogue, w: WorkId, to: Id, base: int)
    requires OneFolderEach(c.filed) && "" !in c.folders
    requires forall f: (Id, WorkId) :: f in c.filed ==> f.0 in c.folders
    ensures FilingAnswer(c, w, to, base, ApplyWorkFolder(c, w, to, base).0, ApplyWorkFolder(c, w, to, base).1)
  {
    StripStrips(to);
    if Bare(to) { StripBare(to); }
    InIs(c.filed, w, to);
    if to != "" { assert (to, w) in Refiled(c.filed, w, to); }
  }

  lemma {:induction false} InIs(filed: set<(Id, WorkId)>, w: WorkId, to: Id)
    requires OneFolderEach(filed) && forall f: (Id, WorkId) :: f in filed ==> f.0 != ""
    ensures FolderOf(filed, w) == to <==> In(filed, w, to)
  {
    if f: (Id, WorkId) :| f in filed && f.1 == w {
      FolderOfIs(filed, f);
      assert (f.0, w) in filed;
    }
  }
}
