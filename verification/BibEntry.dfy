/** A whole entry as text, and a reader that takes it apart by its braces. */
module BibEntry {
  import opened Common
  import opened BibEscape

  datatype Field = Field(name: string, value: string)

  function WriteField(f: Field): string { "  " + f.name + " = {" + f.value + "},\n" }

  function WriteFields(fs: seq<Field>): string { if fs == [] then "" else WriteField(fs[0]) + WriteFields(fs[1..]) }

  function Header(entryType: string, key: string): string { "@" + entryType + "{" + key + ",\n" }

  function WriteEntry(entryType: string, key: string, fs: seq<Field>): string {
    Header(entryType, key) + WriteFields(fs) + "}"
  }

  // ---- The reader ----------------------------------------------------------

  /** What comes before the first `c`, and what comes after it. */
  function UpTo(text: string, c: char): Option<(string, string)> {
    if text == "" then None
    else if text[0] == c then Some(("", text[1..]))
    else
      match UpTo(text[1..], c)
      case None => None
      case Some(r) => Some(([text[0]] + r.0, r.1))
  }

  function After(text: string, prefix: string): Option<string> {
    if prefix <= text then Some(text[|prefix|..]) else None
  }

  function ReadField(text: string): Option<(Field, string)> {
    match After(text, "  ")
    case None => None
    case Some(line) =>
      match UpTo(line, ' ')
      case None => None
      case Some(name) =>
        match After(name.1, "= {")
        case None => None
        case Some(body) =>
          match ReadValue(body, 0)
          case None => None
          case Some(value) =>
            match After(value.1, ",\n")
            case None => None
            case Some(rest) => Some((Field(name.0, value.0), rest))
  }

  function ReadFields(text: string, fuel: nat): Option<seq<Field>>
    decreases fuel
  {
    if text == "}" then Some([])
    else if fuel == 0 then None
    else
      match ReadField(text)
      case None => None
      case Some(first) =>
        match ReadFields(first.1, fuel - 1)
        case None => None
        case Some(more) => Some([first.0] + more)
  }

  /** Type, key and fields of an entry; a text has fewer fields than characters. */
  function ReadEntry(text: string): Option<(string, string, seq<Field>)> {
    match After(text, "@")
    case None => None
    case Some(a) =>
      match UpTo(a, '{')
      case None => None
      case Some(entryType) =>
        match UpTo(entryType.1, ',')
        case None => None
        case Some(key) =>
          match After(key.1, "\n")
          case None => None
          case Some(body) =>
            match ReadFields(body, |text|)
            case None => None
            case Some(fs) => Some((entryType.0, key.0, fs))
  }

  // ---- Reading what was written --------------------------------------------

  lemma {:induction false} UpToIs(a: string, c: char, b: string)
    requires c !in a
    ensures UpTo(a + [c] + b, c) == Some((a, b))
  {
    if a == "" {
      assert a + [c] + b == [c] + b && ([c] + b)[1..] == b;
    } else {
      assert (a + [c] + b)[1..] == a[1..] + [c] + b;
      UpToIs(a[1..], c, b);
      assert [a[0]] + a[1..] == a;
    }
  }

  lemma AfterIs(prefix: string, b: string)
    ensures After(prefix + b, prefix) == Some(b)
  {
    assert (prefix + b)[|prefix|..] == b;
  }

  /** Whatever value is read, it was there. */
  lemma {:induction false} ReadValueIsThere(text: string, d: nat)
    ensures var r := ReadValue(text, d); r.Some? ==> text == r.value.0 + "}" + r.value.1
  {
    if text != "" && !(text[0] == '}' && d == 0) {
      var inner := if text[0] == '{' then d + 1 else if text[0] == '}' then d - 1 else d;
      ReadValueIsThere(text[1..], inner);
      assert text == [text[0]] + text[1..];
    }
  }

  /** A value is read as it was written if and only if it balances. */
  lemma {:induction false} ValueReadsBack(v: string, rest: string)
    ensures ReadValue(v + "}" + rest, 0).Some? && ReadValue(v + "}" + rest, 0).value.0 == v <==> Balanced(v)
    ensures Balanced(v) ==> ReadValue(v + "}" + rest, 0) == Some((v, rest))
  {
    var text := v + "}" + rest;
    ReadsBack(v, rest, 0);
    ReadValueIsThere(text, 0);
    var r := ReadValue(text, 0);
    if r.Some? && r.value.0 == v {
      assert text[|v| + 1..] == rest && (v + "}" + r.value.1)[|v| + 1..] == r.value.1;
    }
  }

  lemma LineIs(f: Field, rest: string)
    ensures WriteField(f) + rest == "  " + (f.name + [' '] + ("= {" + (f.value + "}" + (",\n" + rest))))
  {
  }

  lemma {:induction false} FieldReadsBack(f: Field, rest: string)
    requires ' ' !in f.name
    ensures ReadField(WriteField(f) + rest).Some? && ReadField(WriteField(f) + rest).value.0 == f ==> Balanced(f.value)
    ensures Balanced(f.value) ==> ReadField(WriteField(f) + rest) == Some((f, rest))
  {
    var body := f.value + "}" + (",\n" + rest);
    var line := f.name + [' '] + ("= {" + body);
    LineIs(f, rest);
    AfterIs("  ", line);
    UpToIs(f.name, ' ', "= {" + body);
    AfterIs("= {", body);
    ValueReadsBack(f.value, ",\n" + rest);
    AfterIs(",\n", rest);
  }

  ghost predicate PlainNames(fs: seq<Field>) { forall f: Field :: f in fs ==> ' ' !in f.name }

  ghost predicate AllBalanced(fs: seq<Field>) { forall f: Field :: f in fs ==> Balanced(f.value) }

  lemma {:induction false} FieldsReadBack(fs: seq<Field>, fuel: nat)
    requires PlainNames(fs) && fuel >= |fs|
    ensures ReadFields(WriteFields(fs) + "}", fuel) == Some(fs) <==> AllBalanced(fs)
  {
    if fs != [] {
      var rest := WriteFields(fs[1..]) + "}";
      assert WriteFields(fs) + "}" == WriteField(fs[0]) + rest;
      NotTheEnd(fs[0], rest);
      FieldReadsBack(fs[0], rest);
      FieldsReadBack(fs[1..], fuel - 1);
      FirstAndRest(WriteField(fs[0]) + rest, rest, fs, fuel);
    }
  }

  lemma {:induction false} FirstAndRest(text: string, rest: string, fs: seq<Field>, fuel: nat)
    requires fs != [] && fuel > 0 && text != "}"
    requires ReadField(text).Some? && ReadField(text).value.0 == fs[0] ==> Balanced(fs[0].value)
    requires Balanced(fs[0].value) ==> ReadField(text) == Some((fs[0], rest))
    requires ReadFields(rest, fuel - 1) == Some(fs[1..]) <==> AllBalanced(fs[1..])
    ensures ReadFields(text, fuel) == Some(fs) <==> AllBalanced(fs)
  {
    BalancedOneMore(fs);
    OneFieldRead(text, fs, fuel);
  }

  lemma NotTheEnd(f: Field, rest: string)
    ensures WriteField(f) + rest != "}"
  {
    assert (WriteField(f) + rest)[0] == ' ';
  }

  lemma BalancedOneMore(fs: seq<Field>)
    requires fs != []
    ensures AllBalanced(fs) <==> Balanced(fs[0].value) && AllBalanced(fs[1..])
  {
    assert fs == [fs[0]] + fs[1..];
  }

  lemma {:induction false} OneFieldRead(text: string, fs: seq<Field>, fuel: nat)
    requires fs != [] && fuel > 0 && text != "}"
    ensures ReadFields(text, fuel) == Some(fs) <==>
              ReadField(text).Some? && ReadField(text).value.0 == fs[0]
              && ReadFields(ReadField(text).value.1, fuel - 1) == Some(fs[1..])
  {
    assert fs == [fs[0]] + fs[1..];
    var first := ReadField(text);
    if first.Some? {
      var more := ReadFields(first.value.1, fuel - 1);
      if more.Some? { assert ([first.value.0] + more.value)[1..] == more.value; }
    }
  }

  lemma {:induction false} FewFields(fs: seq<Field>)
    ensures |fs| <= |WriteFields(fs)|
  {
    if fs != [] { FewFields(fs[1..]); }
  }

  /** A whole entry is read as it was written if and only if every value balances. */
  lemma {:induction false} EntryReadsBack(entryType: string, key: string, fs: seq<Field>)
    requires '{' !in entryType && ',' !in key && PlainNames(fs)
    ensures ReadEntry(WriteEntry(entryType, key, fs)) == Some((entryType, key, fs)) <==> AllBalanced(fs)
  {
    var text, body := WriteEntry(entryType, key, fs), WriteFields(fs) + "}";
    var afterKey := "\n" + body;
    var afterType := key + [','] + afterKey;
    assert text == "@" + (entryType + ['{'] + afterType);
    AfterIs("@", entryType + ['{'] + afterType);
    UpToIs(entryType, '{', afterType);
    UpToIs(key, ',', afterKey);
    AfterIs("\n", body);
    FewFields(fs);
    FieldsReadBack(fs, |text|);
  }
}
