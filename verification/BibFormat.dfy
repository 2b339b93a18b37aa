/** From a citation record, its credits and the export profile to the entry. */
module BibFormat {
  import opened Common
  import opened Texts
  import opened BibEscape
  import opened BibEntry

  datatype RoleKind = Author | Editor | Translator | Introduction | Foreword | Afterword | OtherRole

  datatype Role = Role(kind: RoleKind, credit: string, last: string, first: string)

  /** Absent values are "". `docType` is a whitelisted entry type, or absent. */
  datatype Work = Work(
    title: string, year: string, publishedDate: string, authorText: string, docType: string,
    publisher: string, location: string, edition: string, journal: string, volume: string, issue: string,
    pages: string, isbn: string, doi: string, sourceUrl: string, updatedAt: string, abstractText: string)

  /** What the profile leaves out is exported. */
  type Profile = map<string, bool>

  predicate Export(profile: Profile, key: string) { if key in profile then profile[key] else true }

  // ---- Names ---------------------------------------------------------------

  function PersonName(last: string, first: string): string {
    var ln, fn := Strip(last), Strip(first);
    if ln != "" && fn != "" then ln + ", " + fn else ln + fn
  }

  function RoleName(r: Role): string {
    if Strip(r.credit) != "" then Strip(r.credit) else PersonName(r.last, r.first)
  }

  function NamesFor(roles: seq<Role>, kind: RoleKind): seq<string> {
    if roles == [] then []
    else (if roles[0].kind == kind && RoleName(roles[0]) != "" then [RoleName(roles[0])] else []) + NamesFor(roles[1..], kind)
  }

  /** The text cut at every `;`. */
  function Cut(text: string): seq<string> {
    if text == "" then [""]
    else
      var more := Cut(text[1..]);
      if text[0] == ';' then [""] + more
      else if more == [] then [[text[0]]] else [[text[0]] + more[0]] + more[1..]
  }

  function Stripped(parts: seq<string>): seq<string> {
    if parts == [] then []
    else (if Strip(parts[0]) != "" then [Strip(parts[0])] else []) + Stripped(parts[1..])
  }

  /** Each run of white space as one space. */
  function Spaced(s: string): string {
    if s == "" then ""
    else if Space(s[0]) && |s| > 1 && Space(s[1]) then Spaced(s[1..])
    else [if Space(s[0]) then ' ' else s[0]] + Spaced(s[1..])
  }

  function Joined(parts: seq<string>): string {
    if parts == [] then "" else if |parts| == 1 then parts[0] else parts[0] + " and " + Joined(parts[1..])
  }

  function SpacedAll(parts: seq<string>): seq<string> {
    seq(|parts|, i requires 0 <= i < |parts| => Spaced(parts[i]))
  }

  function Location(raw: string): string { Joined(SpacedAll(Stripped(Cut(Strip(raw))))) }

  function EscapedAll(parts: seq<string>): seq<string> {
    seq(|parts|, i requires 0 <= i < |parts| => EscapeField(parts[i]))
  }

  /** Each name is escaped on its own, so a brace in one cannot pair with a brace in
      the next. */
  function Names(people: seq<string>): string { Joined(EscapedAll(people)) }

  // ---- Fields --------------------------------------------------------------

  function Opt(fs: seq<Field>, present: bool, name: string, value: string): seq<Field> {
    if present then fs + [Field(name, value)] else fs
  }

  function Plain(fs: seq<Field>, profile: Profile, name: string, value: string): seq<Field> {
    Opt(fs, value != "" && Export(profile, name), name, EscapeField(value))
  }

  function Credit(fs: seq<Field>, profile: Profile, name: string, people: seq<string>): seq<Field> {
    Opt(fs, people != [] && Export(profile, name), name, Names(people))
  }

  /** A channel or organization, which must stay in one piece. */
  predicate Corporate(w: Work, roles: seq<Role>, video: bool) {
    Strip(w.authorText) != "" && NamesFor(roles, Author) == [] && video
  }

  function AuthorNames(w: Work, roles: seq<Role>, video: bool): seq<string> {
    var linked := NamesFor(roles, Author);
    if linked != [] then linked
    else if Corporate(w, roles, video) then [Strip(w.authorText)]
    else Stripped(Cut(Strip(w.authorText)))
  }

  function AuthorField(fs: seq<Field>, w: Work, roles: seq<Role>, profile: Profile, video: bool): seq<Field> {
    var people := AuthorNames(w, roles, video);
    var value := Names(people);
    Opt(fs, people != [] && Export(profile, "author"), "author", if Corporate(w, roles, video) then "{" + value + "}" else value)
  }

  function Year(w: Work): string {
    if w.year != "" then w.year else if |w.publishedDate| > 4 then w.publishedDate[..4] else w.publishedDate
  }

  function EntryType(w: Work): string {
    if w.docType != "" then w.docType
    else if w.journal != "" then "article"
    else if w.publisher != "" then "book"
    else "misc"
  }

  /** The day of the last edit, as it is stored: the one value that is not escaped. */
  function UrlDate(w: Work): string {
    var at := Strip(w.updatedAt);
    if |at| >= 10 then at[..10] else ""
  }

  function UrlFields(fs: seq<Field>, w: Work, profile: Profile): seq<Field> {
    var url := Strip(w.sourceUrl);
    if !Export(profile, "url") || (EntryType(w) != "online" && url == "") then fs
    else Opt(Opt(fs, url != "", "url", EscapeField(url)), UrlDate(w) != "", "urldate", UrlDate(w))
  }

  function CreditFields(fs: seq<Field>, roles: seq<Role>, profile: Profile): seq<Field> {
    var a := Credit(fs, profile, "editor", NamesFor(roles, Editor));
    var b := Credit(a, profile, "translator", NamesFor(roles, Translator));
    var c := Credit(b, profile, "introduction", NamesFor(roles, Introduction));
    var d := Credit(c, profile, "foreword", NamesFor(roles, Foreword));
    Credit(d, profile, "afterword", NamesFor(roles, Afterword))
  }

  function PlaceFields(fs: seq<Field>, w: Work, profile: Profile): seq<Field> {
    var a := Plain(fs, profile, "year", Year(w));
    var b := Plain(a, profile, "publisher", w.publisher);
    var c := Plain(b, profile, "location", Location(w.location));
    var d := Plain(c, profile, "edition", w.edition);
    Plain(d, profile, "journal", w.journal)
  }

  function NumberFields(fs: seq<Field>, w: Work, profile: Profile): seq<Field> {
    var a := Plain(fs, profile, "volume", w.volume);
    var b := Plain(a, profile, "number", w.issue);
    var c := Plain(b, profile, "pages", w.pages);
    var d := Plain(c, profile, "isbn", w.isbn);
    Plain(d, profile, "doi", w.doi)
  }

  function Fields(w: Work, roles: seq<Role>, profile: Profile, video: bool): seq<Field> {
    var a := AuthorField([Field("title", EscapeField(w.title))], w, roles, profile, video);
    var b := CreditFields(a, roles, profile);
    var c := NumberFields(PlaceFields(b, w, profile), w, profile);
    Plain(UrlFields(c, w, profile), profile, "abstract", w.abstractText)
  }

  // ---- Writing it out ------------------------------------------------------

  lemma {:induction false} WriteMore(fs: seq<Field>, f: Field)
    ensures WriteFields(fs + [f]) == WriteFields(fs) + WriteField(f)
  {
    if fs == [] {
      assert [f][1..] == [] && WriteFields([]) == "";
    } else {
      assert (fs + [f])[1..] == fs[1..] + [f];
      WriteMore(fs[1..], f);
    }
  }

  /** `text` is the head of an entry and the fields so far. */
  ghost predicate Written(text: string, head: string, fs: seq<Field>) { text == head + WriteFields(fs) }

  lemma WrittenMore(text: string, head: string, fs: seq<Field>, f: Field)
    requires Written(text, head, fs)
    ensures Written(text + WriteField(f), head, fs + [f])
  {
    WriteMore(fs, f);
  }

  method AddLine(text: string, present: bool, name: string, value: string, ghost head: string, ghost fs: seq<Field>)
    returns (longer: string)
    requires Written(text, head, fs)
    ensures Written(longer, head, Opt(fs, present, name, value))
  {
    longer := text;
    if present {
      WrittenMore(text, head, fs, Field(name, value));
      longer := longer + ("  " + name + " = {" + value + "},\n");
    }
  }

  method AddPlain(text: string, profile: Profile, name: string, value: string, ghost head: string, ghost fs: seq<Field>)
    returns (longer: string)
    requires Written(text, head, fs)
    ensures Written(longer, head, Plain(fs, profile, name, value))
  {
    var escaped := BibtexEscapeField(value);
    longer := AddLine(text, value != "" && Export(profile, name), name, escaped, head, fs);
  }

  method AddCredit(text: string, profile: Profile, name: string, people: seq<string>, ghost head: string, ghost fs: seq<Field>)
    returns (longer: string)
    requires Written(text, head, fs)
    ensures Written(longer, head, Credit(fs, profile, name, people))
  {
    longer := AddLine(text, people != [] && Export(profile, name), name, Names(people), head, fs);
  }

  method AddAuthor(text: string, w: Work, roles: seq<Role>, profile: Profile, video: bool, ghost head: string, ghost fs: seq<Field>)
    returns (longer: string)
    requires Written(text, head, fs)
    ensures Written(longer, head, AuthorField(fs, w, roles, profile, video))
  {
    var people := AuthorNames(w, roles, video);
    var author := Names(people);
    if Corporate(w, roles, video) { author := "{" + author + "}"; }
    longer := AddLine(text, people != [] && Export(profile, "author"), "author", author, head, fs);
  }

  method AddCredits(text: string, roles: seq<Role>, profile: Profile, ghost head: string, ghost fs: seq<Field>)
    returns (longer: string)
    requires Written(text, head, fs)
    ensures Written(longer, head, CreditFields(fs, roles, profile))
  {
    longer := AddCredit(text, profile, "editor", NamesFor(roles, Editor), head, fs);
    ghost var a := Credit(fs, profile, "editor", NamesFor(roles, Editor));
    longer := AddCredit(longer, profile, "translator", NamesFor(roles, Translator), head, a);
    ghost var b := Credit(a, profile, "translator", NamesFor(roles, Translator));
    longer := AddCredit(longer, profile, "introduction", NamesFor(roles, Introduction), head, b);
    ghost var c := Credit(b, profile, "introduction", NamesFor(roles, Introduction));
    longer := AddCredit(longer, profile, "foreword", NamesFor(roles, Foreword), head, c);
    ghost var d := Credit(c, profile, "foreword", NamesFor(roles, Foreword));
    longer := AddCredit(longer, profile, "afterword", NamesFor(roles, Afterword), head, d);
  }

  method AddPlaces(text: string, w: Work, profile: Profile, ghost head: string, ghost fs: seq<Field>)
    returns (longer: string)
    requires Written(text, head, fs)
    ensures Written(longer, head, PlaceFields(fs, w, profile))
  {
    longer := AddPlain(text, profile, "year", Year(w), head, fs);
    ghost var a := Plain(fs, profile, "year", Year(w));
    longer := AddPlain(longer, profile, "publisher", w.publisher, head, a);
    ghost var b := Plain(a, profile, "publisher", w.publisher);
    longer := AddPlain(longer, profile, "location", Location(w.location), head, b);
    ghost var c := Plain(b, profile, "location", Location(w.location));
    longer := AddPlain(longer, profile, "edition", w.edition, head, c);
    ghost var d := Plain(c, profile, "edition", w.edition);
    longer := AddPlain(longer, profile, "journal", w.journal, head, d);
  }

  method AddNumbers(text: string, w: Work, profile: Profile, ghost head: string, ghost fs: seq<Field>)
    returns (longer: string)
    requires Written(text, head, fs)
    ensures Written(longer, head, NumberFields(fs, w, profile))
  {
    longer := AddPlain(text, profile, "volume", w.volume, head, fs);
    ghost var a := Plain(fs, profile, "volume", w.volume);
    longer := AddPlain(longer, profile, "number", w.issue, head, a);
    ghost var b := Plain(a, profile, "number", w.issue);
    longer := AddPlain(longer, profile, "pages", w.pages, head, b);
    ghost var c := Plain(b, profile, "pages", w.pages);
    longer := AddPlain(longer, profile, "isbn", w.isbn, head, c);
    ghost var d := Plain(c, profile, "isbn", w.isbn);
    longer := AddPlain(longer, profile, "doi", w.doi, head, d);
  }

  method AddUrls(text: string, w: Work, profile: Profile, ghost head: string, ghost fs: seq<Field>)
    returns (longer: string)
    requires Written(text, head, fs)
    ensures Written(longer, head, UrlFields(fs, w, profile))
  {
    longer := text;
    var url := Strip(w.sourceUrl);
    if Export(profile, "url") && (EntryType(w) == "online" || url != "") {
      var escaped := BibtexEscapeField(url);
      longer := AddLine(longer, url != "", "url", escaped, head, fs);
      longer := AddLine(longer, UrlDate(w) != "", "urldate", UrlDate(w), head, Opt(fs, url != "", "url", escaped));
    }
  }

  /** `key` is the cite key. */
  method FormatBibtex(w: Work, roles: seq<Role>, profile: Profile, video: bool, key: string) returns (bibtex: string)
    ensures bibtex == WriteEntry(EntryType(w), key, Fields(w, roles, profile, video))
  {
    var title := BibtexEscapeField(w.title);
    bibtex := "@" + EntryType(w) + "{" + key + ",\n";
    ghost var head := Header(EntryType(w), key);
    assert Written(bibtex, head, []);
    bibtex := AddLine(bibtex, true, "title", title, head, []);
    assert Opt([], true, "title", title) == [Field("title", title)];
    bibtex := AddAuthor(bibtex, w, roles, profile, video, head, [Field("title", title)]);
    ghost var a := AuthorField([Field("title", title)], w, roles, profile, video);
    bibtex := AddCredits(bibtex, roles, profile, head, a);
    ghost var b := CreditFields(a, roles, profile);
    bibtex := AddPlaces(bibtex, w, profile, head, b);
    bibtex := AddNumbers(bibtex, w, profile, head, PlaceFields(b, w, profile));
    ghost var c := NumberFields(PlaceFields(b, w, profile), w, profile);
    bibtex := AddUrls(bibtex, w, profile, head, c);
    bibtex := AddPlain(bibtex, profile, "abstract", w.abstractText, head, UrlFields(c, w, profile));
    bibtex := bibtex + "}";
  }

  // ---- Every field ends where it was written -------------------------------

  ghost predicate Sound(fs: seq<Field>) { PlainNames(fs) && AllBalanced(fs) }

  lemma {:induction false} JoinedBalances(parts: seq<string>)
    requires forall i :: 0 <= i < |parts| ==> Balanced(parts[i])
    ensures Balanced(Joined(parts))
  {
    if |parts| > 1 {
      JoinedBalances(parts[1..]);
      DepthOfPlain(" and ", 0);
      BalancedJoin(parts[0], " and ");
      BalancedJoin(parts[0] + " and ", Joined(parts[1..]));
    }
  }

  lemma NamesBalance(people: seq<string>)
    ensures Balanced(Names(people))
  {
    forall i | 0 <= i < |people| ensures Balanced(EscapedAll(people)[i]) { EscapedBalances(people[i]); }
    JoinedBalances(EscapedAll(people));
  }

  lemma OptSound(fs: seq<Field>, present: bool, name: string, value: string)
    requires PlainNames(fs) && ' ' !in name
    ensures PlainNames(Opt(fs, present, name, value))
    ensures AllBalanced(Opt(fs, present, name, value)) <==> AllBalanced(fs) && (present ==> Balanced(value))
  {
    if present { assert Field(name, value) in fs + [Field(name, value)]; }
    forall f: Field | f in fs ensures f in Opt(fs, present, name, value) {}
  }

  lemma PlainSound(fs: seq<Field>, profile: Profile, name: string, value: string)
    requires Sound(fs) && ' ' !in name
    ensures Sound(Plain(fs, profile, name, value))
  {
    EscapedBalances(value);
    OptSound(fs, value != "" && Export(profile, name), name, EscapeField(value));
  }

  lemma CreditSound(fs: seq<Field>, profile: Profile, name: string, people: seq<string>)
    requires Sound(fs) && ' ' !in name
    ensures Sound(Credit(fs, profile, name, people))
  {
    NamesBalance(people);
    OptSound(fs, people != [] && Export(profile, name), name, Names(people));
  }

  lemma CreditsSound(fs: seq<Field>, roles: seq<Role>, profile: Profile)
    requires Sound(fs)
    ensures Sound(CreditFields(fs, roles, profile))
  {
    CreditSound(fs, profile, "editor", NamesFor(roles, Editor));
    var a := Credit(fs, profile, "editor", NamesFor(roles, Editor));
    CreditSound(a, profile, "translator", NamesFor(roles, Translator));
    var b := Credit(a, profile, "translator", NamesFor(roles, Translator));
    CreditSound(b, profile, "introduction", NamesFor(roles, Introduction));
    var c := Credit(b, profile, "introduction", NamesFor(roles, Introduction));
    CreditSound(c, profile, "foreword", NamesFor(roles, Foreword));
    var d := Credit(c, profile, "foreword", NamesFor(roles, Foreword));
    CreditSound(d, profile, "afterword", NamesFor(roles, Afterword));
  }

  lemma PlacesSound(fs: seq<Field>, w: Work, profile: Profile)
    requires Sound(fs)
    ensures Sound(PlaceFields(fs, w, profile))
  {
    PlainSound(fs, profile, "year", Year(w));
    var a := Plain(fs, profile, "year", Year(w));
    PlainSound(a, profile, "publisher", w.publisher);
    var b := Plain(a, profile, "publisher", w.publisher);
    PlainSound(b, profile, "location", Location(w.location));
    var c := Plain(b, profile, "location", Location(w.location));
    PlainSound(c, profile, "edition", w.edition);
    var d := Plain(c, profile, "edition", w.edition);
    PlainSound(d, profile, "journal", w.journal);
  }

  lemma NumbersSound(fs: seq<Field>, w: Work, profile: Profile)
    requires Sound(fs)
    ensures Sound(NumberFields(fs, w, profile))
  {
    PlainSound(fs, profile, "volume", w.volume);
    var a := Plain(fs, profile, "volume", w.volume);
    PlainSound(a, profile, "number", w.issue);
    var b := Plain(a, profile, "number", w.issue);
    PlainSound(b, profile, "pages", w.pages);
    var c := Plain(b, profile, "pages", w.pages);
    PlainSound(c, profile, "isbn", w.isbn);
    var d := Plain(c, profile, "isbn", w.isbn);
    PlainSound(d, profile, "doi", w.doi);
  }

  lemma AuthorSound(fs: seq<Field>, w: Work, roles: seq<Role>, profile: Profile, video: bool)
    requires Sound(fs)
    ensures Sound(AuthorField(fs, w, roles, profile, video))
  {
    var people := AuthorNames(w, roles, video);
    var value := Names(people);
    NamesBalance(people);
    BalancedInBraces(value);
    OptSound(fs, people != [] && Export(profile, "author"), "author", if Corporate(w, roles, video) then "{" + value + "}" else value);
  }

  /** The entry carries a date. */
  predicate Dated(w: Work, profile: Profile) {
    Export(profile, "url") && (EntryType(w) == "online" || Strip(w.sourceUrl) != "") && UrlDate(w) != ""
  }

  lemma UrlsSound(fs: seq<Field>, w: Work, profile: Profile)
    requires Sound(fs)
    ensures PlainNames(UrlFields(fs, w, profile))
    ensures AllBalanced(UrlFields(fs, w, profile)) <==> (Dated(w, profile) ==> Balanced(UrlDate(w)))
  {
    var url := Strip(w.sourceUrl);
    EscapedBalances(url);
    OptSound(fs, url != "", "url", EscapeField(url));
    OptSound(Opt(fs, url != "", "url", EscapeField(url)), UrlDate(w) != "", "urldate", UrlDate(w));
  }

  lemma FieldsSound(w: Work, roles: seq<Role>, profile: Profile, video: bool)
    ensures PlainNames(Fields(w, roles, profile, video))
    ensures AllBalanced(Fields(w, roles, profile, video)) <==> (Dated(w, profile) ==> Balanced(UrlDate(w)))
  {
    var title := [Field("title", EscapeField(w.title))];
    EscapedBalances(w.title);
    AuthorSound(title, w, roles, profile, video);
    AfterAuthorSound(AuthorField(title, w, roles, profile, video), w, roles, profile);
  }

  lemma AfterAuthorSound(a: seq<Field>, w: Work, roles: seq<Role>, profile: Profile)
    requires Sound(a)
    ensures var fs := Plain(UrlFields(NumberFields(PlaceFields(CreditFields(a, roles, profile), w, profile), w, profile), w, profile),
                            profile, "abstract", w.abstractText);
      PlainNames(fs) && (AllBalanced(fs) <==> (Dated(w, profile) ==> Balanced(UrlDate(w))))
  {
    CreditsSound(a, roles, profile);
    AfterCreditsSound(CreditFields(a, roles, profile), w, profile);
  }

  lemma AfterCreditsSound(b: seq<Field>, w: Work, profile: Profile)
    requires Sound(b)
    ensures var fs := Plain(UrlFields(NumberFields(PlaceFields(b, w, profile), w, profile), w, profile),
                            profile, "abstract", w.abstractText);
      PlainNames(fs) && (AllBalanced(fs) <==> (Dated(w, profile) ==> Balanced(UrlDate(w))))
  {
    PlacesSound(b, w, profile);
    NumbersSound(PlaceFields(b, w, profile), w, profile);
    var c := NumberFields(PlaceFields(b, w, profile), w, profile);
    UrlsSound(c, w, profile);
    LastSound(UrlFields(c, w, profile), profile, "abstract", w.abstractText);
  }

  lemma LastSound(fs: seq<Field>, profile: Profile, name: string, value: string)
    requires PlainNames(fs) && ' ' !in name
    ensures PlainNames(Plain(fs, profile, name, value))
    ensures AllBalanced(Plain(fs, profile, name, value)) <==> AllBalanced(fs)
  {
    EscapedBalances(value);
    OptSound(fs, value != "" && Export(profile, name), name, EscapeField(value));
  }

  /** For every Work, credit list and export profile, the entry is read back with every
      field ending at the brace written for it, if and only if the one value that is
      not escaped, the date, has balanced braces or is not exported. */
  lemma FormattedReadsBack(w: Work, roles: seq<Role>, profile: Profile, video: bool, key: string)
    requires '{' !in EntryType(w) && ',' !in key
    ensures var fs := Fields(w, roles, profile, video);
      ReadEntry(WriteEntry(EntryType(w), key, fs)) == Some((EntryType(w), key, fs)) <==>
        (Dated(w, profile) ==> Balanced(UrlDate(w)))
  {
    FieldsSound(w, roles, profile, video);
    EntryReadsBack(EntryType(w), key, Fields(w, roles, profile, video));
  }

  function DatedWork(at: string): Work {
    Work("", "", "", "", "online", "", "", "", "", "", "", "", "", "", "", at, "")
  }

  /** A stored time that begins with a closing brace ends its field early, and the entry
      is not read back as it was written. */
  lemma BraceInDateEndsField()
    ensures var w := DatedWork("}234567890");
      var fs := Fields(w, [], map[], false);
      && UrlDate(w) == "}234567890" && Field("urldate", UrlDate(w)) in fs
      && ReadEntry(WriteEntry("online", "key", fs)) != Some(("online", "key", fs))
  {
    EarlyEnd("}234567890", "key");
  }

  lemma {:induction false} EarlyEnd(at: string, key: string)
    requires |at| == 10 && Bare(at) && at[0] == '}' && ',' !in key
    ensures var w := DatedWork(at);
      var fs := Fields(w, [], map[], false);
      && UrlDate(w) == at && Field("urldate", at) in fs
      && ReadEntry(WriteEntry("online", key, fs)) != Some(("online", key, fs))
  {
    StripBare(at);
    assert at[..10] == at;
    var w := DatedWork(at);
    assert EntryType(w) == "online" && UrlDate(w) == at && !Balanced(at);
    DateListed(w);
    FormattedReadsBack(w, [], map[], false, key);
  }

  lemma {:induction false} DateListed(w: Work)
    requires EntryType(w) == "online" && UrlDate(w) != ""
    ensures Field("urldate", UrlDate(w)) in Fields(w, [], map[], false)
  {
    var a := AuthorField([Field("title", EscapeField(w.title))], w, [], map[], false);
    var c := NumberFields(PlaceFields(CreditFields(a, [], map[]), w, map[]), w, map[]);
    assert Field("urldate", UrlDate(w)) in UrlFields(c, w, map[]);
  }
}
