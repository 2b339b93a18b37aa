/** Texts as the language strips them and the database lower-cases them. */
module Texts {
  /** White space as the ordinary text methods see it. */
  predicate Space(c: char) {
    var n := c as int;
    || 0x09 <= n <= 0x0D || 0x1C <= n <= 0x20 || n == 0x85 || n == 0xA0 || n == 0x1680
    || 0x2000 <= n <= 0x200A || n == 0x2028 || n == 0x2029 || n == 0x202F || n == 0x205F || n == 0x3000
  }

  function StripLeft(s: string): string { if s != [] && Space(s[0]) then StripLeft(s[1..]) else s }
  function StripRight(s: string): string { if s != [] && Space(s[|s| - 1]) then StripRight(s[..|s| - 1]) else s }
  function Strip(s: string): string { StripRight(StripLeft(s)) }

  /** The database's own lower-casing knows ASCII only. */
  function Lower(s: string): string {
    seq(|s|, i requires 0 <= i < |s| => if 'A' <= s[i] <= 'Z' then s[i] - 'A' + 'a' else s[i])
  }

  /** No white space at either end. */
  predicate Bare(s: string) { s != [] ==> !Space(s[0]) && !Space(s[|s| - 1]) }

  lemma {:induction false} StripRightBare(s: string)
    requires s != [] ==> !Space(s[0])
    ensures Bare(StripRight(s))
  {
    if s != [] && Space(s[|s| - 1]) { StripRightBare(s[..|s| - 1]); }
  }

  lemma {:induction false} StripLeftBare(s: string)
    ensures StripLeft(s) != [] ==> !Space(StripLeft(s)[0])
  {
    if s != [] && Space(s[0]) { StripLeftBare(s[1..]); }
  }

  lemma StripIsBare(s: string)
    ensures Bare(Strip(s))
  {
    StripLeftBare(s);
    StripRightBare(StripLeft(s));
  }

  lemma StripBare(s: string)
    requires Bare(s)
    ensures Strip(s) == s
  {
  }
}
