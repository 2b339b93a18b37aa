/** What an exported entry shows, column by column: each exported column under its own
    name, once, and the people of each role in their order. */
module BibColumns {
  import opened Common
  import opened Texts
  import opened BibEscape
  import opened BibEntry
  import opened BibFormat

  /** The values of the fields of one name, in order. */
  function Values(fs: seq<Field>, name: string): seq<string> {
    if fs == [] then []
    else
      var n := |fs| - 1;
      Values(fs[..n], name) + if fs[n].name == name then [fs[n].value] else []
  }

  function Unescaped(value: string): string { Unpercent(Unbrace(value)) }

  predicate Asked(profile: Profile, name: string) { name !in profile || profile[name] }

  /** The column is there once, and can be read off, or it is not there. */
  predicate Shows(fs: seq<Field>, shown: bool, name: string, value: string) {
    if shown then |Values(fs, name)| == 1 && Unescaped(Values(fs, name)[0]) == value else Values(fs, name) == []
  }

  predicate ShowsColumn(fs: seq<Field>, profile: Profile, name: string, value: string) {
    Shows(fs, value != "" && Asked(profile, name), name, value)
  }

  function Anded(parts: seq<string>): string {
    if parts == [] then "" else if |parts| == 1 then parts[0] else Anded(parts[..|parts| - 1]) + " and " + parts[|parts| - 1]
  }

  /** Names escaped one by one, with `and` between them. */
  ghost predicate Spells(value: string, people: seq<string>) {
    exists parts: seq<string> ::
      && |parts| == |people| && value == Anded(parts)
      && forall i :: 0 <= i < |parts| ==> Balanced(parts[i]) && Unescaped(parts[i]) == people[i]
  }

  /** The people are there once, in braces if they are one organization, or not at all. */
  ghost predicate ShowsPeople(fs: seq<Field>, profile: Profile, name: string, people: seq<string>, whole: bool) {
    if people == [] || !Asked(profile, name) then Values(fs, name) == []
    else exists value :: Spells(value, people) && Values(fs, name) == [if whole then "{" + value + "}" else value]
  }

  /** The texts that are not empty, in order. */
  ghost predicate Picks(shown: seq<string>, people: seq<string>) {
    exists at: seq<nat> ::
      && |at| == |people|
      && (forall m, n :: 0 <= m < n < |at| ==> at[m] < at[n])
      && (forall i: nat :: i in at <==> i < |shown| && shown[i] != "")
      && (forall m :: 0 <= m < |at| ==> at[m] < |shown| && people[m] == shown[at[m]])
  }

  function ShownName(r: Role): string {
    var credit, last, first := Strip(r.credit), Strip(r.last), Strip(r.first);
    if credit != "" then credit else if last == "" then first else if first == "" then last else last + ", " + first
  }

  ghost predicate PeopleOf(roles: seq<Role>, kind: RoleKind, people: seq<string>) {
    Picks(seq(|roles|, i requires 0 <= i < |roles| => if roles[i].kind == kind then ShownName(roles[i]) else ""), people)
  }

  function Glued(parts: seq<string>): string {
    if parts == [] then "" else if |parts| == 1 then parts[0] else parts[0] + ";" + Glued(parts[1..])
  }

  predicate SplitAt(text: string, parts: seq<string>) {
    parts != [] && Glued(parts) == text && forall i :: 0 <= i < |parts| ==> ';' !in parts[i]
  }

  /** The words of a text, which white space separates. */
  function Words(s: string): seq<string> {
    if s == "" then []
    else if Space(s[0]) then Words(s[1..])
    else if |s| == 1 || Space(s[1]) then [[s[0]]] + Words(s[1..])
    else
      var more := Words(s[1..]);
      if more == [] then [[s[0]]] else [[s[0]] + more[0]] + more[1..]
  }

  function Sentence(words: seq<string>): string {
    if words == [] then "" else if |words| == 1 then words[0] else words[0] + " " + Sentence(words[1..])
  }

  /** What lies between semicolons, without the white space around it. */
  ghost predicate TextNames(text: string, people: seq<string>) {
    exists parts :: SplitAt(Strip(text), parts) && Picks(seq(|parts|, i requires 0 <= i < |parts| => Strip(parts[i])), people)
  }

  /** The same, with single spaces between the words. */
  ghost predicate Places(text: string, places: seq<string>) {
    exists parts ::
      SplitAt(Strip(text), parts) && Picks(seq(|parts|, i requires 0 <= i < |parts| => Sentence(Words(parts[i]))), places)
  }

  /** The people of the author field: the linked authors, or for a video the text as one
      organization, or the names in the text. */
  ghost predicate Authors(w: Work, roles: seq<Role>, video: bool, people: seq<string>, whole: bool) {
    exists linked :: PeopleOf(roles, Author, linked) &&
      if linked != [] then people == linked && !whole
      else if video && Strip(w.authorText) != "" then people == [Strip(w.authorText)] && whole
      else TextNames(w.authorText, people) && !whole
  }

  function FirstFour(s: string): string { if |s| <= 4 then s else s[..4] }

  const NAMES: seq<string> := [
    "title", "author", "editor", "translator", "introduction", "foreword", "afterword",
    "year", "publisher", "location", "edition", "journal",
    "volume", "number", "pages", "isbn", "doi", "url", "urldate", "abstract"]

  ghost predicate ShowsAuthors(fs: seq<Field>, w: Work, roles: seq<Role>, profile: Profile, video: bool) {
    exists people, whole :: Authors(w, roles, video, people, whole) && ShowsPeople(fs, profile, "author", people, whole)
  }

  ghost predicate ShowsRole(fs: seq<Field>, roles: seq<Role>, profile: Profile, name: string, kind: RoleKind) {
    exists people :: PeopleOf(roles, kind, people) && ShowsPeople(fs, profile, name, people, false)
  }

  ghost predicate ShowsPlaces(fs: seq<Field>, w: Work, profile: Profile) {
    exists places :: Places(w.location, places) && ShowsColumn(fs, profile, "location", Anded(places))
  }

  /** The stored address, and the day of the last edit as it is stored. */
  predicate ShowsUrl(entryType: string, fs: seq<Field>, w: Work, profile: Profile) {
    var url, at := Strip(w.sourceUrl), Strip(w.updatedAt);
    && Shows(fs, Asked(profile, "url") && url != "", "url", url)
    && Values(fs, "urldate") ==
         if Asked(profile, "url") && (url != "" || entryType == "online") && |at| >= 10 then [at[..10]] else []
  }

  predicate TypeOf(entryType: string, w: Work) {
    && (w.docType != "" ==> entryType == w.docType)
    && (w.docType == "" && w.journal != "" ==> entryType == "article")
    && (w.docType == "" && w.journal == "" && w.publisher != "" ==> entryType == "book")
    && (w.docType == "" && w.journal == "" && w.publisher == "" ==> entryType == "misc")
  }

  ghost predicate ShowsCredits(fs: seq<Field>, w: Work, roles: seq<Role>, profile: Profile, video: bool) {
    && ShowsAuthors(fs, w, roles, profile, video)
    && ShowsRole(fs, roles, profile, "editor", Editor)
    && ShowsRole(fs, roles, profile, "translator", Translator)
    && ShowsRole(fs, roles, profile, "introduction", Introduction)
    && ShowsRole(fs, roles, profile, "foreword", Foreword)
    && ShowsRole(fs, roles, profile, "afterword", Afterword)
  }

  ghost predicate ShowsColumns(fs: seq<Field>, w: Work, profile: Profile) {
    && Shows(fs, true, "title", w.title)
    && ShowsColumn(fs, profile, "year", if w.year != "" then w.year else FirstFour(w.publishedDate))
    && ShowsColumn(fs, profile, "publisher", w.publisher)
    && ShowsPlaces(fs, w, profile)
    && ShowsColumn(fs, profile, "edition", w.edition)
    && ShowsColumn(fs, profile, "journal", w.journal)
    && ShowsColumn(fs, profile, "volume", w.volume)
    && ShowsColumn(fs, profile, "number", w.issue)
    && ShowsColumn(fs, profile, "pages", w.pages)
    && ShowsColumn(fs, profile, "isbn", w.isbn)
    && ShowsColumn(fs, profile, "doi", w.doi)
    && ShowsColumn(fs, profile, "abstract", w.abstractText)
  }

  /** The whole entry. */
  ghost predicate Exports(entryType: string, fs: seq<Field>, w: Work, roles: seq<Role>, profile: Profile, video: bool) {
    && TypeOf(entryType, w)
    && ShowsColumns(fs, w, profile)
    && ShowsCredits(fs, w, roles, profile, video)
    && ShowsUrl(entryType, fs, w, profile)
    && forall f: Field :: f in fs ==> f.name in NAMES
  }

  // ---- Fields added one by one ---------------------------------------------

  lemma {:induction false} OptValues(fs: seq<Field>, present: bool, name: string, value: string, other: string)
    ensures Values(Opt(fs, present, name, value), other) == Values(fs, other) + if present && name == other then [value] else []
  {
    if present { assert (fs + [Field(name, value)])[..|fs|] == fs; }
  }

  /** The length and the first letter tell the names apart. */
  function Mark(name: string): int
    requires name != ""
  {
    256 * |name| + name[0] as int
  }

  const MARKS: seq<int> := [
    256 * 5 + 't' as int, 256 * 6 + 'a' as int, 256 * 6 + 'e' as int, 256 * 10 + 't' as int, 256 * 12 + 'i' as int,
    256 * 8 + 'f' as int, 256 * 9 + 'a' as int, 256 * 4 + 'y' as int, 256 * 9 + 'p' as int, 256 * 8 + 'l' as int,
    256 * 7 + 'e' as int, 256 * 7 + 'j' as int, 256 * 6 + 'v' as int, 256 * 6 + 'n' as int, 256 * 5 + 'p' as int,
    256 * 4 + 'i' as int, 256 * 3 + 'd' as int, 256 * 3 + 'u' as int, 256 * 7 + 'u' as int, 256 * 8 + 'a' as int]

  lemma {:induction false} MarksDiffer()
    ensures |MARKS| == 20 && forall i, j :: 0 <= i < j < 20 ==> MARKS[i] != MARKS[j]
  {
  }

  lemma {:induction false} Marked(k: nat)
    requires k < 20
    ensures |NAMES| == 20 && NAMES[k] != "" && Mark(NAMES[k]) == MARKS[k]
  {
  }

  lemma {:induction false} NamesDiffer(j: nat, k: nat)
    requires j < 20 && k < 20 && j != k
    ensures |NAMES| == 20 && NAMES[j] != NAMES[k]
  {
    MarksDiffer();
    Marked(j);
    Marked(k);
  }

  /** The names at their places. */
  predicate At(k: nat, name: string) { k < 20 == |NAMES| && NAMES[k] == name }

  lemma {:induction false} NamesAt()
    ensures At(0, "title") && At(1, "author") && At(2, "editor") && At(3, "translator") && At(4, "introduction")
    ensures At(5, "foreword") && At(6, "afterword") && At(7, "year") && At(8, "publisher") && At(9, "location")
    ensures At(10, "edition") && At(11, "journal") && At(12, "volume") && At(13, "number") && At(14, "pages")
    ensures At(15, "isbn") && At(16, "doi") && At(17, "url") && At(18, "urldate") && At(19, "abstract")
  {
  }

  /** A column: whether it is there, and its text. */
  datatype Cell = Cell(present: bool, text: string)

  /** The fields made from cells, the names in their order. */
  function Build(cells: seq<Cell>): seq<Field>
    requires |cells| <= |NAMES|
  {
    if cells == [] then []
    else
      var n := |cells| - 1;
      Opt(Build(cells[..n]), cells[n].present, NAMES[n], cells[n].text)
  }

  lemma {:induction false} BuildNext(cells: seq<Cell>, cell: Cell, name: string) returns (more: seq<Cell>)
    requires At(|cells|, name)
    ensures more == cells + [cell] && |more| <= |NAMES| && Build(more) == Opt(Build(cells), cell.present, name, cell.text)
  {
    more := cells + [cell];
    assert more[..|cells|] == cells;
  }

  lemma {:induction false} BuildValues(cells: seq<Cell>, j: nat)
    requires |cells| <= 20 == |NAMES| && j < 20
    ensures Values(Build(cells), NAMES[j]) == if j < |cells| && cells[j].present then [cells[j].text] else []
  {
    if cells != [] {
      var n := |cells| - 1;
      BuildValues(cells[..n], j);
      CellAdds(Build(cells[..n]), cells[n], n, j);
    }
  }

  lemma {:induction false} CellAdds(fs: seq<Field>, cell: Cell, n: nat, j: nat)
    requires n < 20 && j < 20 == |NAMES|
    ensures Values(Opt(fs, cell.present, NAMES[n], cell.text), NAMES[j]) ==
              Values(fs, NAMES[j]) + if j == n && cell.present then [cell.text] else []
  {
    OptValues(fs, cell.present, NAMES[n], cell.text, NAMES[j]);
    if j != n { NamesDiffer(j, n); }
  }

  lemma {:induction false} BuildNames(cells: seq<Cell>)
    requires |cells| <= |NAMES|
    ensures forall f: Field :: f in Build(cells) ==> f.name in NAMES
  {
    if cells != [] { BuildNames(cells[..|cells| - 1]); }
  }

  function PlainCell(profile: Profile, name: string, value: string): Cell {
    Cell(value != "" && Export(profile, name), EscapeField(value))
  }

  function CreditCell(roles: seq<Role>, profile: Profile, name: string, kind: RoleKind): Cell {
    Cell(NamesFor(roles, kind) != [] && Export(profile, name), Names(NamesFor(roles, kind)))
  }

  function CreditCells(roles: seq<Role>, profile: Profile): seq<Cell> {
    [CreditCell(roles, profile, "editor", Editor), CreditCell(roles, profile, "translator", Translator),
     CreditCell(roles, profile, "introduction", Introduction), CreditCell(roles, profile, "foreword", Foreword),
     CreditCell(roles, profile, "afterword", Afterword)]
  }

  lemma {:induction false} CreditsBuilt(cells: seq<Cell>, roles: seq<Role>, profile: Profile)
    requires |cells| == 2
    ensures |NAMES| == 20 && CreditFields(Build(cells), roles, profile) == Build(cells + CreditCells(roles, profile))
  {
    NamesAt();
    var more := BuildNext(cells, CreditCell(roles, profile, "editor", Editor), "editor");
    more := BuildNext(more, CreditCell(roles, profile, "translator", Translator), "translator");
    more := BuildNext(more, CreditCell(roles, profile, "introduction", Introduction), "introduction");
    more := BuildNext(more, CreditCell(roles, profile, "foreword", Foreword), "foreword");
    more := BuildNext(more, CreditCell(roles, profile, "afterword", Afterword), "afterword");
    assert more == cells + CreditCells(roles, profile);
  }

  function PlaceCells(w: Work, profile: Profile): seq<Cell> {
    [PlainCell(profile, "year", Year(w)), PlainCell(profile, "publisher", w.publisher),
     PlainCell(profile, "location", Location(w.location)), PlainCell(profile, "edition", w.edition),
     PlainCell(profile, "journal", w.journal)]
  }

  lemma {:induction false} PlacesBuilt(cells: seq<Cell>, w: Work, profile: Profile)
    requires |cells| == 7
    ensures |NAMES| == 20 && PlaceFields(Build(cells), w, profile) == Build(cells + PlaceCells(w, profile))
  {
    NamesAt();
    var more := BuildNext(cells, PlainCell(profile, "year", Year(w)), "year");
    more := BuildNext(more, PlainCell(profile, "publisher", w.publisher), "publisher");
    more := BuildNext(more, PlainCell(profile, "location", Location(w.location)), "location");
    more := BuildNext(more, PlainCell(profile, "edition", w.edition), "edition");
    more := BuildNext(more, PlainCell(profile, "journal", w.journal), "journal");
    assert more == cells + PlaceCells(w, profile);
  }

  function NumberCells(w: Work, profile: Profile): seq<Cell> {
    [PlainCell(profile, "volume", w.volume), PlainCell(profile, "number", w.issue), PlainCell(profile, "pages", w.pages),
     PlainCell(profile, "isbn", w.isbn), PlainCell(profile, "doi", w.doi)]
  }

  lemma {:induction false} NumbersBuilt(cells: seq<Cell>, w: Work, profile: Profile)
    requires |cells| == 12
    ensures |NAMES| == 20 && NumberFields(Build(cells), w, profile) == Build(cells + NumberCells(w, profile))
  {
    NamesAt();
    var more := BuildNext(cells, PlainCell(profile, "volume", w.volume), "volume");
    more := BuildNext(more, PlainCell(profile, "number", w.issue), "number");
    more := BuildNext(more, PlainCell(profile, "pages", w.pages), "pages");
    more := BuildNext(more, PlainCell(profile, "isbn", w.isbn), "isbn");
    more := BuildNext(more, PlainCell(profile, "doi", w.doi), "doi");
    assert more == cells + NumberCells(w, profile);
  }

  function UrlCells(w: Work, profile: Profile): seq<Cell> {
    var url, asked := Strip(w.sourceUrl), Export(profile, "url");
    [Cell(asked && url != "", EscapeField(url)),
     Cell(asked && (url != "" || EntryType(w) == "online") && UrlDate(w) != "", UrlDate(w))]
  }

  lemma {:induction false} UrlsBuilt(cells: seq<Cell>, w: Work, profile: Profile)
    requires |cells| == 17
    ensures |NAMES| == 20 && UrlFields(Build(cells), w, profile) == Build(cells + UrlCells(w, profile))
  {
    NamesAt();
    var e := UrlCells(w, profile);
    var more := BuildNext(cells, e[0], "url");
    more := BuildNext(more, e[1], "urldate");
    assert more == cells + e;
  }

  function FirstCells(w: Work, roles: seq<Role>, profile: Profile, video: bool): seq<Cell> {
    var people := AuthorNames(w, roles, video);
    [Cell(true, EscapeField(w.title)),
     Cell(people != [] && Export(profile, "author"),
          if Corporate(w, roles, video) then "{" + Names(people) + "}" else Names(people))]
  }

  lemma {:induction false} FirstBuilt(w: Work, roles: seq<Role>, profile: Profile, video: bool)
    ensures |NAMES| == 20
    ensures AuthorField([Field("title", EscapeField(w.title))], w, roles, profile, video) == Build(FirstCells(w, roles, profile, video))
  {
    NamesAt();
    var e := FirstCells(w, roles, profile, video);
    var more := BuildNext([], e[0], "title");
    more := BuildNext(more, e[1], "author");
    assert more == e;
  }

  function Cells(w: Work, roles: seq<Role>, profile: Profile, video: bool): seq<Cell> {
    FirstCells(w, roles, profile, video) + CreditCells(roles, profile) + PlaceCells(w, profile) + NumberCells(w, profile)
    + UrlCells(w, profile) + [PlainCell(profile, "abstract", w.abstractText)]
  }

  lemma {:induction false} FieldsBuilt(w: Work, roles: seq<Role>, profile: Profile, video: bool)
    ensures |NAMES| == 20 && Fields(w, roles, profile, video) == Build(Cells(w, roles, profile, video))
  {
    NamesAt();
    var a := FirstCells(w, roles, profile, video);
    FirstBuilt(w, roles, profile, video);
    CreditsBuilt(a, roles, profile);
    var b := a + CreditCells(roles, profile);
    PlacesBuilt(b, w, profile);
    var c := b + PlaceCells(w, profile);
    NumbersBuilt(c, w, profile);
    var d := c + NumberCells(w, profile);
    UrlsBuilt(d, w, profile);
    var more := BuildNext(d + UrlCells(w, profile), PlainCell(profile, "abstract", w.abstractText), "abstract");
  }

  // ---- People --------------------------------------------------------------

  function Kept(shown: seq<string>): seq<string> {
    if shown == [] then [] else (if shown[0] != "" then [shown[0]] else []) + Kept(shown[1..])
  }

  ghost predicate PickedAt(shown: seq<string>, people: seq<string>, at: seq<nat>) {
    && |at| == |people|
    && (forall m, n :: 0 <= m < n < |at| ==> at[m] < at[n])
    && (forall i: nat :: i in at <==> i < |shown| && shown[i] != "")
    && (forall m :: 0 <= m < |at| ==> at[m] < |shown| && people[m] == shown[at[m]])
  }

  lemma {:induction false} KeptPicks(shown: seq<string>) returns (at: seq<nat>)
    ensures PickedAt(shown, Kept(shown), at) && Picks(shown, Kept(shown))
  {
    if shown == [] {
      at := [];
    } else {
      var rest := KeptPicks(shown[1..]);
      at := KeptOneMore(shown, rest);
    }
  }

  lemma {:induction false} KeptOneMore(shown: seq<string>, rest: seq<nat>) returns (at: seq<nat>)
    requires shown != [] && PickedAt(shown[1..], Kept(shown[1..]), rest)
    ensures PickedAt(shown, Kept(shown), at)
  {
    var up := Shifted(shown, rest);
    if shown[0] == "" {
      at := up;
    } else {
      at := [0] + up;
      ZeroFirst(shown, Kept(shown[1..]), up);
    }
  }

  /** The places `up` of the non-empty texts behind the first, and what is there. */
  ghost predicate PickedBehind(shown: seq<string>, people: seq<string>, up: seq<nat>) {
    && |up| == |people|
    && (forall m, n :: 0 <= m < n < |up| ==> up[m] < up[n])
    && (forall i: nat :: i in up <==> 0 < i < |shown| && shown[i] != "")
    && (forall m :: 0 <= m < |up| ==> 0 < up[m] < |shown| && people[m] == shown[up[m]])
  }

  lemma {:induction false} ZeroFirst(shown: seq<string>, people: seq<string>, up: seq<nat>)
    requires shown != [] && shown[0] != "" && PickedBehind(shown, people, up)
    ensures PickedAt(shown, [shown[0]] + people, [0] + up)
  {
    var at, all := [0] + up, [shown[0]] + people;
    assert forall m :: 1 <= m < |at| ==> at[m] == up[m - 1] && all[m] == people[m - 1];
    assert at[0] == 0 && all[0] == shown[0];
    forall m, n | 0 <= m < n < |at| ensures at[m] < at[n] { assert at[n] == up[n - 1]; }
    forall i: nat ensures i in at <==> i < |shown| && shown[i] != "" { assert i in at <==> i == 0 || i in up; }
  }

  lemma {:induction false} Shifted(shown: seq<string>, rest: seq<nat>) returns (up: seq<nat>)
    requires shown != [] && PickedAt(shown[1..], Kept(shown[1..]), rest)
    ensures PickedBehind(shown, Kept(shown[1..]), up)
  {
    up := seq(|rest|, m requires 0 <= m < |rest| => rest[m] + 1);
    forall i: nat ensures i in up <==> 0 < i < |shown| && shown[i] != "" {
      if 0 < i < |shown| && shown[i] != "" {
        assert shown[1..][i - 1] == shown[i] && (i - 1) as nat in rest;
        var m :| 0 <= m < |rest| && rest[m] == i - 1;
        assert up[m] == i;
      }
    }
  }

  lemma {:induction false} NamesForIs(roles: seq<Role>, kind: RoleKind)
    ensures PeopleOf(roles, kind, NamesFor(roles, kind))
  {
    var shown := seq(|roles|, i requires 0 <= i < |roles| => if roles[i].kind == kind then ShownName(roles[i]) else "");
    NamesForKept(roles, kind, shown);
    var at := KeptPicks(shown);
  }

  lemma {:induction false} NamesForKept(roles: seq<Role>, kind: RoleKind, shown: seq<string>)
    requires |shown| == |roles|
    requires forall i :: 0 <= i < |roles| ==> shown[i] == if roles[i].kind == kind then ShownName(roles[i]) else ""
    ensures NamesFor(roles, kind) == Kept(shown)
  {
    if roles != [] {
      assert RoleName(roles[0]) == ShownName(roles[0]);
      NamesForKept(roles[1..], kind, shown[1..]);
    }
  }

  lemma {:induction false} StrippedKept(parts: seq<string>, shown: seq<string>)
    requires |shown| == |parts| && forall i :: 0 <= i < |parts| ==> shown[i] == Strip(parts[i])
    ensures Stripped(parts) == Kept(shown)
  {
    if parts != [] { StrippedKept(parts[1..], shown[1..]); }
  }

  lemma {:induction false} CutSplits(text: string)
    ensures SplitAt(text, Cut(text))
  {
    if text != "" {
      var more := Cut(text[1..]);
      CutSplits(text[1..]);
      assert text == [text[0]] + text[1..];
      if text[0] == ';' {
        assert ([""] + more)[1..] == more;
        assert "" + ";" + Glued(more) == text;
      } else {
        GluedLonger(text[0], more);
      }
    }
  }

  lemma {:induction false} GluedLonger(c: char, more: seq<string>)
    requires more != []
    ensures Glued([[c] + more[0]] + more[1..]) == [c] + Glued(more)
  {
    var longer := [[c] + more[0]] + more[1..];
    assert longer[1..] == more[1..];
    if |more| > 1 { assert [c] + more[0] + ";" + Glued(more[1..]) == [c] + (more[0] + ";" + Glued(more[1..])); }
  }

  lemma {:induction false} TextNamesAre(text: string)
    ensures TextNames(text, Stripped(Cut(Strip(text))))
  {
    var parts := Cut(Strip(text));
    var shown := seq(|parts|, i requires 0 <= i < |parts| => Strip(parts[i]));
    CutSplits(Strip(text));
    StrippedKept(parts, shown);
    var at := KeptPicks(shown);
  }

  // ---- Words ---------------------------------------------------------------

  lemma {:induction false} WordsAfterSpaces(s: string)
    ensures Words(StripLeft(s)) == Words(s)
  {
    if s != "" && Space(s[0]) { WordsAfterSpaces(s[1..]); }
  }

  lemma {:induction false} WordsBeforeSpace(s: string)
    requires s != "" && Space(s[|s| - 1])
    ensures Words(s[..|s| - 1]) == Words(s)
  {
    var t := s[..|s| - 1];
    if |s| > 1 {
      assert t[1..] == s[1..][..|s| - 2] && t[0] == s[0];
      WordsBeforeSpace(s[1..]);
      if |s| == 2 && !Space(s[0]) {
        assert Words(s[1..]) == [] by { assert s[1..][1..] == ""; }
        assert Words(t[1..]) == [];
      } else if |s| > 2 {
        assert t[1] == s[1];
      }
    } else {
      assert s[1..] == "";
    }
  }

  lemma {:induction false} WordsBeforeSpaces(s: string)
    ensures Words(StripRight(s)) == Words(s)
  {
    if s != "" && Space(s[|s| - 1]) {
      WordsBeforeSpaces(s[..|s| - 1]);
      WordsBeforeSpace(s);
    }
  }

  /** Text that ends in a word, one space for each run of white space in it. */
  lemma {:induction false} SpacedIs(s: string)
    requires s != "" ==> !Space(s[|s| - 1])
    ensures Spaced(s) == (if s != "" && Space(s[0]) then " " else "") + Sentence(Words(s))
    ensures s != "" ==> Words(s) != []
  {
    if |s| == 1 {
      assert s[1..] == "" && s == [s[0]] && Words("") == [] && Spaced("") == "";
    } else if s != "" {
      SpacedIs(s[1..]);
      SpacedStep(s, s[1..]);
    }
  }

  lemma {:induction false} SpacedStep(s: string, rest: string)
    requires |s| > 1 && rest == s[1..] && Words(rest) != []
    requires Spaced(rest) == (if Space(s[1]) then " " else "") + Sentence(Words(rest))
    ensures Spaced(s) == (if Space(s[0]) then " " else "") + Sentence(Words(s)) && Words(s) != []
  {
    var c, more := s[0], Words(rest);
    if Space(c) {
      assert Words(s) == more;
      assert Spaced(s) == if Space(s[1]) then Spaced(rest) else " " + Spaced(rest);
    } else if Space(s[1]) {
      SentenceMore(c, more);
      assert Words(s) == [[c]] + more && Spaced(s) == [c] + Spaced(rest);
    } else {
      SentenceLonger(c, more);
      assert Words(s) == [[c] + more[0]] + more[1..] && Spaced(s) == [c] + Spaced(rest);
    }
  }

  lemma {:induction false} SentenceLonger(c: char, more: seq<string>)
    requires more != []
    ensures Sentence([[c] + more[0]] + more[1..]) == [c] + Sentence(more)
  {
    assert ([[c] + more[0]] + more[1..])[1..] == more[1..];
    if |more| > 1 { assert [c] + more[0] + " " + Sentence(more[1..]) == [c] + (more[0] + " " + Sentence(more[1..])); }
  }

  lemma {:induction false} SentenceMore(c: char, more: seq<string>)
    requires more != []
    ensures Sentence([[c]] + more) == [c] + (" " + Sentence(more))
  {
    assert ([[c]] + more)[1..] == more && [c] + " " + Sentence(more) == [c] + (" " + Sentence(more));
  }

  lemma {:induction false} SpacedStrip(p: string)
    ensures Spaced(Strip(p)) == Sentence(Words(p))
    ensures Strip(p) == "" <==> Sentence(Words(p)) == ""
  {
    StripIsBare(p);
    WordsAfterSpaces(p);
    WordsBeforeSpaces(StripLeft(p));
    SpacedIs(Strip(p));
    if Strip(p) != "" { SpacedSome(Strip(p)); }
  }

  lemma {:induction false} SpacedSome(s: string)
    requires s != ""
    ensures Spaced(s) != ""
  {
    if |s| > 1 && Space(s[0]) && Space(s[1]) { SpacedSome(s[1..]); }
  }

  lemma {:induction false} PlacesKept(parts: seq<string>, shown: seq<string>)
    requires |shown| == |parts| && forall i :: 0 <= i < |parts| ==> shown[i] == Sentence(Words(parts[i]))
    ensures SpacedAll(Stripped(parts)) == Kept(shown)
  {
    if parts != [] {
      PlacesKept(parts[1..], shown[1..]);
      SpacedStrip(parts[0]);
      if Strip(parts[0]) != "" {
        assert Stripped(parts)[1..] == Stripped(parts[1..]);
        assert SpacedAll(Stripped(parts)) == [Spaced(Strip(parts[0]))] + SpacedAll(Stripped(parts[1..]));
      }
    }
  }

  lemma {:induction false} PlacesAre(text: string)
    ensures Places(text, SpacedAll(Stripped(Cut(Strip(text)))))
  {
    var parts := Cut(Strip(text));
    var shown := seq(|parts|, i requires 0 <= i < |parts| => Sentence(Words(parts[i])));
    CutSplits(Strip(text));
    PlacesKept(parts, shown);
    var at := KeptPicks(shown);
  }

  // ---- Joined texts --------------------------------------------------------

  lemma {:induction false} AndedMore(first: string, parts: seq<string>)
    requires parts != []
    ensures Anded([first] + parts) == first + " and " + Anded(parts)
  {
    var all, n := [first] + parts, |parts| - 1;
    assert all[..|all| - 1] == [first] + parts[..n] && all[|all| - 1] == parts[n];
    if |parts| > 1 {
      AndedMore(first, parts[..n]);
      var x := Anded(parts[..n]);
      assert first + " and " + x + " and " + parts[n] == first + " and " + (x + " and " + parts[n]);
    } else {
      assert parts[..n] == [] && [first] + [] == [first];
    }
  }

  lemma {:induction false} JoinedIs(parts: seq<string>)
    ensures Joined(parts) == Anded(parts)
  {
    if |parts| > 1 {
      JoinedIs(parts[1..]);
      AndedMore(parts[0], parts[1..]);
      assert [parts[0]] + parts[1..] == parts;
    }
  }

  lemma {:induction false} NamesSpell(people: seq<string>)
    ensures Spells(Names(people), people)
  {
    var parts := EscapedAll(people);
    JoinedIs(parts);
    forall i | 0 <= i < |parts| ensures Balanced(parts[i]) && Unescaped(parts[i]) == people[i] {
      EscapedBalances(people[i]);
      EscapeLosesNothing(people[i]);
    }
  }

  // ---- The whole entry -----------------------------------------------------

  /** The values under each name are those of its cell. */
  ghost predicate Holds(fs: seq<Field>, name: string, cell: Cell) {
    Values(fs, name) == if cell.present then [cell.text] else []
  }

  lemma {:induction false} HoldsAt(w: Work, roles: seq<Role>, profile: Profile, video: bool, k: nat, name: string)
    requires At(k, name)
    ensures |Cells(w, roles, profile, video)| == 20
    ensures Holds(Fields(w, roles, profile, video), name, Cells(w, roles, profile, video)[k])
  {
    FieldsBuilt(w, roles, profile, video);
    BuildValues(Cells(w, roles, profile, video), k);
  }

  lemma {:induction false} PlainShown(fs: seq<Field>, profile: Profile, name: string, value: string)
    requires Holds(fs, name, PlainCell(profile, name, value))
    ensures ShowsColumn(fs, profile, name, value)
  {
    EscapeLosesNothing(value);
  }

  lemma {:induction false} PeopleShown(fs: seq<Field>, profile: Profile, name: string, people: seq<string>, whole: bool)
    requires Holds(fs, name, Cell(people != [] && Export(profile, name), if whole then "{" + Names(people) + "}" else Names(people)))
    ensures ShowsPeople(fs, profile, name, people, whole)
  {
    NamesSpell(people);
  }

  lemma {:induction false} CreditShown(
      w: Work, roles: seq<Role>, profile: Profile, video: bool, k: nat, name: string, kind: RoleKind)
    requires At(k, name) && |Cells(w, roles, profile, video)| == 20
    requires Cells(w, roles, profile, video)[k] == CreditCell(roles, profile, name, kind)
    ensures ShowsRole(Fields(w, roles, profile, video), roles, profile, name, kind)
  {
    HoldsAt(w, roles, profile, video, k, name);
    PeopleShown(Fields(w, roles, profile, video), profile, name, NamesFor(roles, kind), false);
    NamesForIs(roles, kind);
  }

  lemma {:induction false} CellsAre(w: Work, roles: seq<Role>, profile: Profile, video: bool)
    ensures var e := Cells(w, roles, profile, video);
      && |e| == 20 && e[0] == FirstCells(w, roles, profile, video)[0] && e[1] == FirstCells(w, roles, profile, video)[1]
      && (forall i :: 0 <= i < 5 ==> e[2 + i] == CreditCells(roles, profile)[i])
      && (forall i :: 0 <= i < 5 ==> e[7 + i] == PlaceCells(w, profile)[i])
      && (forall i :: 0 <= i < 5 ==> e[12 + i] == NumberCells(w, profile)[i])
      && e[17] == UrlCells(w, profile)[0] && e[18] == UrlCells(w, profile)[1]
      && e[19] == PlainCell(profile, "abstract", w.abstractText)
  {
    var a := FirstCells(w, roles, profile, video);
    var b := Placed(a, CreditCells(roles, profile));
    var c := Placed(b, PlaceCells(w, profile));
    var d := Placed(c, NumberCells(w, profile));
    var f := Placed(d, UrlCells(w, profile));
    var g := Placed(f, [PlainCell(profile, "abstract", w.abstractText)]);
    assert g[17] == UrlCells(w, profile)[0] && g[18] == UrlCells(w, profile)[1];
  }

  lemma {:induction false} Placed(before: seq<Cell>, more: seq<Cell>) returns (all: seq<Cell>)
    ensures all == before + more && |all| == |before| + |more|
    ensures (forall i :: 0 <= i < |before| ==> all[i] == before[i]) && (forall i :: 0 <= i < |more| ==> all[|before| + i] == more[i])
  {
    all := before + more;
  }

  lemma {:induction false} AuthorsShown(w: Work, roles: seq<Role>, profile: Profile, video: bool)
    ensures ShowsAuthors(Fields(w, roles, profile, video), w, roles, profile, video)
  {
    NamesAt();
    CellsAre(w, roles, profile, video);
    HoldsAt(w, roles, profile, video, 1, "author");
    var people, whole := AuthorNames(w, roles, video), Corporate(w, roles, video);
    PeopleShown(Fields(w, roles, profile, video), profile, "author", people, whole);
    NamesForIs(roles, Author);
    TextNamesAre(w.authorText);
    assert Authors(w, roles, video, people, whole);
  }

  lemma {:induction false} CreditsShown(w: Work, roles: seq<Role>, profile: Profile, video: bool)
    ensures ShowsCredits(Fields(w, roles, profile, video), w, roles, profile, video)
  {
    NamesAt();
    CellsAre(w, roles, profile, video);
    AuthorsShown(w, roles, profile, video);
    var c, e := CreditCells(roles, profile), Cells(w, roles, profile, video);
    assert e[2 + 0] == c[0] && e[2 + 1] == c[1] && e[2 + 2] == c[2] && e[2 + 3] == c[3] && e[2 + 4] == c[4];
    CreditShown(w, roles, profile, video, 2, "editor", Editor);
    CreditShown(w, roles, profile, video, 3, "translator", Translator);
    CreditShown(w, roles, profile, video, 4, "introduction", Introduction);
    CreditShown(w, roles, profile, video, 5, "foreword", Foreword);
    CreditShown(w, roles, profile, video, 6, "afterword", Afterword);
  }

  lemma {:induction false} ColumnShown(w: Work, roles: seq<Role>, profile: Profile, video: bool, k: nat, name: string, value: string)
    requires At(k, name) && |Cells(w, roles, profile, video)| == 20
    requires Cells(w, roles, profile, video)[k] == PlainCell(profile, name, value)
    ensures ShowsColumn(Fields(w, roles, profile, video), profile, name, value)
  {
    HoldsAt(w, roles, profile, video, k, name);
    PlainShown(Fields(w, roles, profile, video), profile, name, value);
  }

  lemma {:induction false} PlacesShown(w: Work, roles: seq<Role>, profile: Profile, video: bool)
    ensures ShowsPlaces(Fields(w, roles, profile, video), w, profile)
  {
    NamesAt();
    CellsAre(w, roles, profile, video);
    var e := Cells(w, roles, profile, video);
    assert e[7 + 2] == PlaceCells(w, profile)[2];
    ColumnShown(w, roles, profile, video, 9, "location", Location(w.location));
    PlacesAre(w.location);
    JoinedIs(SpacedAll(Stripped(Cut(Strip(w.location)))));
  }

  lemma {:induction false} NumbersShown(w: Work, roles: seq<Role>, profile: Profile, video: bool)
    ensures var fs := Fields(w, roles, profile, video);
      && ShowsColumn(fs, profile, "volume", w.volume) && ShowsColumn(fs, profile, "number", w.issue)
      && ShowsColumn(fs, profile, "pages", w.pages) && ShowsColumn(fs, profile, "isbn", w.isbn)
      && ShowsColumn(fs, profile, "doi", w.doi)
  {
    NamesAt();
    CellsAre(w, roles, profile, video);
    var e, n := Cells(w, roles, profile, video), NumberCells(w, profile);
    assert e[12 + 0] == n[0] && e[12 + 1] == n[1] && e[12 + 2] == n[2] && e[12 + 3] == n[3] && e[12 + 4] == n[4];
    ColumnShown(w, roles, profile, video, 12, "volume", w.volume);
    ColumnShown(w, roles, profile, video, 13, "number", w.issue);
    ColumnShown(w, roles, profile, video, 14, "pages", w.pages);
    ColumnShown(w, roles, profile, video, 15, "isbn", w.isbn);
    ColumnShown(w, roles, profile, video, 16, "doi", w.doi);
  }

  lemma {:induction false} ColumnsShown(w: Work, roles: seq<Role>, profile: Profile, video: bool)
    ensures ShowsColumns(Fields(w, roles, profile, video), w, profile)
  {
    NumbersShown(w, roles, profile, video);
    PlacesShown(w, roles, profile, video);
    EndsShown(w, roles, profile, video);
    ImprintShown(w, roles, profile, video);
  }

  lemma {:induction false} EndsShown(w: Work, roles: seq<Role>, profile: Profile, video: bool)
    ensures var fs := Fields(w, roles, profile, video);
      Shows(fs, true, "title", w.title) && ShowsColumn(fs, profile, "abstract", w.abstractText)
  {
    NamesAt();
    CellsAre(w, roles, profile, video);
    HoldsAt(w, roles, profile, video, 0, "title");
    EscapeLosesNothing(w.title);
    ColumnShown(w, roles, profile, video, 19, "abstract", w.abstractText);
  }

  lemma {:induction false} ImprintShown(w: Work, roles: seq<Role>, profile: Profile, video: bool)
    ensures var fs := Fields(w, roles, profile, video);
      && ShowsColumn(fs, profile, "year", if w.year != "" then w.year else FirstFour(w.publishedDate))
      && ShowsColumn(fs, profile, "publisher", w.publisher)
      && ShowsColumn(fs, profile, "edition", w.edition) && ShowsColumn(fs, profile, "journal", w.journal)
  {
    NamesAt();
    CellsAre(w, roles, profile, video);
    var e, p := Cells(w, roles, profile, video), PlaceCells(w, profile);
    assert e[7 + 0] == p[0] && e[7 + 1] == p[1] && e[7 + 3] == p[3] && e[7 + 4] == p[4];
    ColumnShown(w, roles, profile, video, 7, "year", if w.year != "" then w.year else FirstFour(w.publishedDate));
    ColumnShown(w, roles, profile, video, 8, "publisher", w.publisher);
    ColumnShown(w, roles, profile, video, 10, "edition", w.edition);
    ColumnShown(w, roles, profile, video, 11, "journal", w.journal);
  }

  lemma {:induction false} UrlHolds(w: Work, roles: seq<Role>, profile: Profile, video: bool)
    ensures var fs := Fields(w, roles, profile, video);
      Holds(fs, "url", UrlCells(w, profile)[0]) && Holds(fs, "urldate", UrlCells(w, profile)[1])
  {
    NamesAt();
    CellsAre(w, roles, profile, video);
    HoldsAt(w, roles, profile, video, 17, "url");
    HoldsAt(w, roles, profile, video, 18, "urldate");
  }

  lemma {:induction false} UrlShows(fs: seq<Field>, w: Work, profile: Profile)
    requires Holds(fs, "url", UrlCells(w, profile)[0]) && Holds(fs, "urldate", UrlCells(w, profile)[1])
    ensures ShowsUrl(EntryType(w), fs, w, profile)
  {
    EscapeLosesNothing(Strip(w.sourceUrl));
  }

  /** For every Work, credit list and export profile the fields are the exported columns:
      each once and under its own name, and nothing else. */
  lemma {:induction false} FieldsExport(w: Work, roles: seq<Role>, profile: Profile, video: bool)
    ensures Exports(EntryType(w), Fields(w, roles, profile, video), w, roles, profile, video)
  {
    ColumnsShown(w, roles, profile, video);
    CreditsShown(w, roles, profile, video);
    UrlHolds(w, roles, profile, video);
    UrlShows(Fields(w, roles, profile, video), w, profile);
    FieldsBuilt(w, roles, profile, video);
    CellsAre(w, roles, profile, video);
    BuildNames(Cells(w, roles, profile, video));
  }

  /** The exported text of a citation record, "" for none. Where the exported date
      balances, the reader finds every column under its name. */
  method GenerateBibtex(record: Option<Work>, roles: seq<Role>, profile: Profile, video: bool, key: string)
    returns (bibtex: string)
    requires ',' !in key && (record.Some? ==> '{' !in record.value.docType)
    ensures record.None? ==> bibtex == ""
    ensures record.Some? && (Dated(record.value, profile) ==> Balanced(UrlDate(record.value))) ==>
              exists entryType, fs ::
                && ReadEntry(bibtex) == Some((entryType, key, fs))
                && Exports(entryType, fs, record.value, roles, profile, video)
  {
    if record.None? { return ""; }
    FieldsExport(record.value, roles, profile, video);
    PlainType(record.value);
    FormattedReadsBack(record.value, roles, profile, video, key);
    bibtex := FormatBibtex(record.value, roles, profile, video, key);
  }

  lemma {:induction false} PlainType(w: Work)
    requires '{' !in w.docType
    ensures '{' !in EntryType(w)
  {
  }
}
