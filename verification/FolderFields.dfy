/** The texts of folder fields: the spelling two devices agree on, and the key that
    sibling titles are compared by. */
module FolderFields {
  import opened Texts

  /** The database's own trim knows the plain space only. */
  function TrimLeft(s: string): string { if s != [] && s[0] == ' ' then TrimLeft(s[1..]) else s }
  function TrimRight(s: string): string { if s != [] && s[|s| - 1] == ' ' then TrimRight(s[..|s| - 1]) else s }
  function Trim(s: string): string { TrimRight(TrimLeft(s)) }

  function TitleKey(title: string): string { Lower(Trim(title)) }

  const DEFAULT_TITLE := "Untitled Folder"
  const MAX_TITLE_BYTES := 200
  const MAX_TEXT_BYTES := 4000

  datatype Field = Title | Description | PrivateNotes | Parent

  function CanonicalWire(field: Field, value: string): string {
    var text := Strip(value);
    if field == Title && text == "" then DEFAULT_TITLE else text
  }

  function CharBytes(c: char): nat {
    var n := c as int;
    if n < 0x80 then 1 else if n < 0x800 then 2 else if n < 0x10000 then 3 else 4
  }

  function Utf8Bytes(s: string): nat { if s == [] then 0 else CharBytes(s[0]) + Utf8Bytes(s[1..]) }

  predicate Fits(field: Field, text: string) {
    Utf8Bytes(text) <= if field == Title || field == Parent then MAX_TITLE_BYTES else MAX_TEXT_BYTES
  }

  // ---- Facts ---------------------------------------------------------------

  lemma BareStays(s: string)
    requires Bare(s)
    ensures Strip(s) == s && Trim(s) == s
  {
    StripBare(s);
    if s != [] { assert Space(' '); }
  }

  /** Writing the canonical spelling again changes nothing, and the check of a title
      against its siblings compares the very key the table is indexed by. */
  lemma CanonicalOnce(field: Field, value: string)
    ensures var text := CanonicalWire(field, value);
      && CanonicalWire(field, text) == text
      && Bare(text) && (field == Title ==> text != "")
      && Lower(text) == TitleKey(text)
  {
    StripIsBare(value);
    BareStays(CanonicalWire(field, value));
  }
}
