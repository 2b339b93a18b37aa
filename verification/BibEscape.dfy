/** Escaping a field value so that a reader that counts every brace, whatever stands
    before it, finds the end of the field where it was written. */
module BibEscape {
  import opened Common

  // ---- Brace depth ---------------------------------------------------------

  /** The depth after `text`, starting at `d`; None once it falls below zero. */
  function Depth(text: string, d: nat): Option<nat> {
    if text == "" then Some(d)
    else if text[0] == '{' then Depth(text[1..], d + 1)
    else if text[0] == '}' then (if d == 0 then None else Depth(text[1..], d - 1))
    else Depth(text[1..], d)
  }

  predicate Balanced(text: string) { Depth(text, 0) == Some(0) }

  lemma {:induction false} DepthAppend(a: string, b: string, d: nat)
    ensures Depth(a + b, d) == match Depth(a, d) case None => None case Some(e) => Depth(b, e)
  {
    if a == "" {
      assert a + b == b;
    } else {
      assert (a + b)[1..] == a[1..] + b;
      if a[0] == '{' { DepthAppend(a[1..], b, d + 1); }
      else if a[0] == '}' { if d > 0 { DepthAppend(a[1..], b, d - 1); } }
      else { DepthAppend(a[1..], b, d); }
    }
  }

  predicate NoBraces(text: string) { '{' !in text && '}' !in text }

  lemma {:induction false} DepthOfPlain(text: string, d: nat)
    requires NoBraces(text)
    ensures Depth(text, d) == Some(d)
  {
    if text != "" { DepthOfPlain(text[1..], d); }
  }

  lemma {:induction false} DepthDeeper(text: string, d: nat, more: nat)
    requires Depth(text, d).Some?
    ensures Depth(text, d + more) == Some(Depth(text, d).value + more)
  {
    if text != "" {
      if text[0] == '{' { DepthDeeper(text[1..], d + 1, more); }
      else if text[0] == '}' { DepthDeeper(text[1..], d - 1, more); }
      else { DepthDeeper(text[1..], d, more); }
    }
  }

  lemma BalancedJoin(a: string, b: string)
    requires Balanced(a) && Balanced(b)
    ensures Balanced(a + b)
  {
    DepthAppend(a, b, 0);
  }

  lemma BalancedInBraces(v: string)
    requires Balanced(v)
    ensures Balanced("{" + v + "}")
  {
    DepthAppend("{", v + "}", 0);
    DepthAppend(v, "}", 1);
    DepthDeeper(v, 0, 1);
    assert "{" + v + "}" == "{" + (v + "}");
  }

  // ---- Reading a value -----------------------------------------------------

  /** A value that was opened, up to the brace that closes it, and what follows. */
  function ReadValue(text: string, d: nat): Option<(string, string)> {
    if text == "" then None
    else if text[0] == '}' && d == 0 then Some(("", text[1..]))
    else
      var inner := if text[0] == '{' then d + 1 else if text[0] == '}' then d - 1 else d;
      match ReadValue(text[1..], inner)
      case None => None
      case Some(r) => Some(([text[0]] + r.0, r.1))
  }

  /** A value ends at the brace written after it if and only if it balances. */
  lemma {:induction false} ReadsBack(v: string, rest: string, d: nat)
    ensures ReadValue(v + "}" + rest, d) == Some((v, rest)) <==> Depth(v, d) == Some(0)
  {
    if v == "" {
      assert v + "}" + rest == "}" + rest;
      assert (v + "}" + rest)[1..] == rest;
    } else {
      assert (v + "}" + rest)[1..] == v[1..] + "}" + rest;
      assert [v[0]] + v[1..] == v;
      if v[0] == '{' { ReadsBack(v[1..], rest, d + 1); }
      else if v[0] == '}' { if d > 0 { ReadsBack(v[1..], rest, d - 1); } }
      else { ReadsBack(v[1..], rest, d); }
    }
  }

  // ---- Pairing -------------------------------------------------------------

  /** The opening braces still open after the first `k` characters. */
  function Opened(s: string, k: nat): seq<nat>
    requires k <= |s|
  {
    if k == 0 then []
    else
      var before := Opened(s, k - 1);
      if s[k - 1] == '{' then before + [k - 1]
      else if s[k - 1] == '}' && before != [] then before[..|before| - 1]
      else before
  }

  /** A brace that never finds its partner. */
  predicate Unpaired(s: string, k: nat)
    requires k < |s|
  {
    (s[k] == '{' && k in Opened(s, |s|)) || (s[k] == '}' && Opened(s, k) == [])
  }

  const LONE_OPEN := "{\\textbraceleft}"
  const LONE_CLOSE := "{\\textbraceright}"

  function Piece(s: string, k: nat): string
    requires k < |s|
  {
    if s[k] != '{' && s[k] != '}' then [s[k]]
    else if Unpaired(s, k) then (if s[k] == '{' then LONE_OPEN else LONE_CLOSE)
    else "\\" + [s[k]]
  }

  function Pieces(s: string, k: nat): string
    requires k <= |s|
  {
    if k == 0 then "" else Pieces(s, k - 1) + Piece(s, k - 1)
  }

  /** Percent signs first, then braces. */
  function Percents(s: string): string {
    if s == "" then "" else (if s[0] == '%' then "\\%" else [s[0]]) + Percents(s[1..])
  }

  function EscapeField(value: string): string { Pieces(Percents(value), |Percents(value)|) }

  /** The places of the braces without a partner, found with a stack. */
  method FindUnpaired(s: string) returns (unpaired: set<nat>)
    ensures forall k :: k in unpaired <==> 0 <= k < |s| && Unpaired(s, k)
  {
    var stack: seq<nat> := [];
    unpaired := {};
    var k := 0;
    while k < |s|
      invariant 0 <= k <= |s| && stack == Opened(s, k)
      invariant forall i :: i in unpaired <==> 0 <= i < k && s[i] == '}' && Opened(s, i) == []
    {
      if s[k] == '{' {
        stack := stack + [k];
      } else if s[k] == '}' {
        if stack != [] { stack := stack[..|stack| - 1]; } else { unpaired := unpaired + {k}; }
      }
      k := k + 1;
    }
    OpenedAreOpening(s, |s|);
    unpaired := unpaired + set i | i in stack;
  }

  method BibtexEscapeField(value: string) returns (escaped: string)
    ensures escaped == EscapeField(value)
  {
    var s := Percents(value);
    var unpaired := FindUnpaired(s);
    escaped := "";
    var k := 0;
    while k < |s|
      invariant 0 <= k <= |s| && escaped == Pieces(s, k)
    {
      if s[k] != '{' && s[k] != '}' {
        escaped := escaped + [s[k]];
      } else if k in unpaired {
        escaped := escaped + if s[k] == '{' then LONE_OPEN else LONE_CLOSE;
      } else {
        escaped := escaped + ("\\" + [s[k]]);
      }
      k := k + 1;
    }
  }

  // ---- The paired braces balance -------------------------------------------

  lemma {:induction false} OpenedAreOpening(s: string, k: nat)
    requires k <= |s|
    ensures forall i :: i in Opened(s, k) ==> i < k && s[i] == '{'
    ensures forall i, j :: 0 <= i < j < |Opened(s, k)| ==> Opened(s, k)[i] < Opened(s, k)[j]
  {
    if k > 0 {
      OpenedAreOpening(s, k - 1);
      var before := Opened(s, k - 1);
      forall i | 0 <= i < |before| ensures before[i] < k - 1 { assert before[i] in before; }
    }
  }

  /** How many of the braces that stay open are among the first `k` characters. */
  function Lone(last: seq<nat>, k: nat): nat {
    if last == [] then 0
    else if last[|last| - 1] < k then |last|
    else Lone(last[..|last| - 1], k)
  }

  ghost predicate Rising(last: seq<nat>) { forall i, j :: 0 <= i < j < |last| ==> last[i] < last[j] }

  lemma {:induction false} LoneIs(last: seq<nat>, k: nat)
    requires Rising(last)
    ensures var m := Lone(last, k);
      && m <= |last|
      && (forall i :: 0 <= i < m ==> last[i] < k)
      && (forall i :: m <= i < |last| ==> last[i] >= k)
  {
    if last != [] && last[|last| - 1] >= k { LoneIs(last[..|last| - 1], k); }
  }

  /** The braces that stay open are at the bottom of every stack since they came. */
  lemma {:induction false} LoneAtBottom(s: string, k: nat)
    requires k <= |s|
    ensures var last := Opened(s, |s|); var m := Lone(last, k);
      m <= |last| && m <= |Opened(s, k)| && last[..m] == Opened(s, k)[..m]
    decreases |s| - k
  {
    var last := Opened(s, |s|);
    OpenedAreOpening(s, |s|);
    LoneIs(last, k);
    if k < |s| {
      LoneAtBottom(s, k + 1);
      LoneIs(last, k + 1);
      OpenedAreOpening(s, k);
      BottomBefore(s, k, last, Lone(last, k), Lone(last, k + 1));
    }
  }

  lemma BottomBefore(s: string, k: nat, last: seq<nat>, m: nat, n: nat)
    requires k < |s| && m <= |last| && n <= |last| && Rising(last)
    requires (forall i :: 0 <= i < m ==> last[i] < k) && (forall i :: m <= i < |last| ==> last[i] >= k)
    requires (forall i :: 0 <= i < n ==> last[i] < k + 1) && (forall i :: n <= i < |last| ==> last[i] >= k + 1)
    requires n <= |Opened(s, k + 1)| && last[..n] == Opened(s, k + 1)[..n]
    requires forall i :: i in Opened(s, k) ==> i < k
    ensures m <= |Opened(s, k)| && last[..m] == Opened(s, k)[..m]
  {
    if m > 0 {
      assert last[m - 1] < k;
      assert last[m - 1] == last[..n][m - 1] == Opened(s, k + 1)[m - 1];
    }
    assert last[..m] == last[..n][..m];
  }

  /** Open paired braces after `k` characters. */
  function Level(s: string, k: nat): int
    requires k <= |s|
  {
    |Opened(s, k)| - Lone(Opened(s, |s|), k)
  }

  lemma PieceDepth(s: string, k: nat, d: nat)
    requires k < |s|
    ensures Depth(Piece(s, k), d) ==
      if s[k] == '{' && !Unpaired(s, k) then Some(d + 1)
      else if s[k] == '}' && !Unpaired(s, k) then (if d == 0 then None else Some(d - 1))
      else Some(d)
  {
    PairedDepth(s[k], d);
    LoneDepth(d);
  }

  lemma LoneDepth(d: nat)
    ensures Depth(LONE_OPEN, d) == Some(d) && Depth(LONE_CLOSE, d) == Some(d)
  {
    SymbolDepth("\\textbraceleft", d);
    SymbolDepth("\\textbraceright", d);
    assert LONE_OPEN == "{" + "\\textbraceleft" + "}" && LONE_CLOSE == "{" + "\\textbraceright" + "}";
  }

  lemma PairedDepth(c: char, d: nat)
    ensures Depth([c], d) == if c == '{' then Some(d + 1) else if c == '}' then (if d == 0 then None else Some(d - 1)) else Some(d)
    ensures Depth("\\" + [c], d) == Depth([c], d)
  {
    assert [c][1..] == "";
    assert ("\\" + [c])[1..] == [c];
  }

  lemma SymbolDepth(word: string, d: nat)
    requires NoBraces(word)
    ensures Depth("{" + word + "}", d) == Some(d)
  {
    assert "{" + word + "}" == "{" + (word + "}");
    DepthAppend("{", word + "}", d);
    DepthAppend(word, "}", d + 1);
    DepthOfPlain(word, d + 1);
  }

  lemma {:induction false} LevelStep(s: string, k: nat)
    requires k < |s|
    ensures Level(s, k) >= 0
    ensures Level(s, k + 1) == Level(s, k) +
      if s[k] == '{' && !Unpaired(s, k) then 1 else if s[k] == '}' && !Unpaired(s, k) then -1 else 0
  {
    var last := Opened(s, |s|);
    LoneAtBottom(s, k);
    LoneAtBottom(s, k + 1);
    OpenedAreOpening(s, |s|);
    LoneIs(last, k);
    LoneIs(last, k + 1);
    LoneMoves(last, k, Lone(last, k), Lone(last, k + 1));
  }

  lemma LoneMoves(last: seq<nat>, k: nat, m: nat, n: nat)
    requires m <= |last| && n <= |last| && Rising(last)
    requires (forall i :: 0 <= i < m ==> last[i] < k) && (forall i :: m <= i < |last| ==> last[i] >= k)
    requires (forall i :: 0 <= i < n ==> last[i] < k + 1) && (forall i :: n <= i < |last| ==> last[i] >= k + 1)
    ensures n == m + if k in last then 1 else 0
  {
    if k in last {
      var i :| 0 <= i < |last| && last[i] == k;
      if i > 0 { assert last[i - 1] < k; }
      if i + 1 < |last| { assert last[i + 1] > k; }
    } else {
      if m > 0 { assert last[m - 1] < k; }
      if m < |last| { assert last[m] in last; }
    }
  }

  lemma {:induction false} PiecesDepth(s: string, k: nat)
    requires k <= |s|
    ensures Level(s, k) >= 0 && Depth(Pieces(s, k), 0) == Some(Level(s, k))
  {
    if k > 0 {
      PiecesDepth(s, k - 1);
      OnePieceMore(s, k - 1, Pieces(s, k - 1));
    } else {
      OpenedAreOpening(s, |s|);
      LoneIs(Opened(s, |s|), 0);
      LoneAtBottom(s, 0);
    }
  }

  lemma {:induction false} OnePieceMore(s: string, k: nat, before: string)
    requires k < |s| && Level(s, k) >= 0 && Depth(before, 0) == Some(Level(s, k))
    ensures Level(s, k + 1) >= 0 && Depth(before + Piece(s, k), 0) == Some(Level(s, k + 1))
  {
    var d: nat := Level(s, k);
    LoneAtBottom(s, k + 1);
    LevelStep(s, k);
    DepthAppend(before, Piece(s, k), 0);
    PieceDepth(s, k, d);
  }

  lemma AllLone(last: seq<nat>, k: nat)
    requires forall i :: i in last ==> i < k
    ensures Lone(last, k) == |last|
  {
    if last != [] { assert last[|last| - 1] in last; }
  }

  /** Every escaped field balances, counting every brace. */
  lemma EscapedBalances(value: string)
    ensures Balanced(EscapeField(value))
  {
    var s := Percents(value);
    PiecesDepth(s, |s|);
    OpenedAreOpening(s, |s|);
    AllLone(Opened(s, |s|), |s|);
  }

  // ---- Nothing is lost -----------------------------------------------------

  function Rest(s: string, k: nat): string
    requires k <= |s|
    decreases |s| - k
  {
    if k == |s| then "" else Piece(s, k) + Rest(s, k + 1)
  }

  lemma {:induction false} PiecesAndRest(s: string, k: nat)
    requires k <= |s|
    ensures Pieces(s, |s|) == Pieces(s, k) + Rest(s, k)
    decreases |s| - k
  {
    if k < |s| { PiecesAndRest(s, k + 1); }
  }

  predicate Symbol(text: string) { LONE_OPEN <= text || LONE_CLOSE <= text }

  function Unbrace(text: string): string {
    if text == "" then ""
    else if LONE_OPEN <= text then "{" + Unbrace(text[|LONE_OPEN|..])
    else if LONE_CLOSE <= text then "}" + Unbrace(text[|LONE_CLOSE|..])
    else if |text| > 1 && text[0] == '\\' && (text[1] == '}' || (text[1] == '{' && !Symbol(text[1..])))
    then [text[1]] + Unbrace(text[2..])
    else [text[0]] + Unbrace(text[1..])
  }

  function Unpercent(text: string): string {
    if text == "" then ""
    else if |text| > 1 && text[0] == '\\' && text[1] == '%' then "%" + Unpercent(text[2..])
    else [text[0]] + Unpercent(text[1..])
  }

  /** No escaped text begins with a word and a bare closing brace. */
  lemma {:induction false} NoWordAndClose(s: string, k: nat, word: string)
    requires k <= |s| && NoBraces(word) && (word != "" ==> word[|word| - 1] != '\\')
    ensures !(word + "}" <= Rest(s, k))
    decreases |word|
  {
    if k < |s| {
      var t := Rest(s, k);
      FirstIsPiece(s, k);
      if word == "" {
        assert (word + "}")[0] == '}';
      } else if s[k] == '{' || s[k] == '}' {
        assert (word + "}")[0] == word[0];
        assert |word| > 1 ==> (word + "}")[1] == word[1];
        assert |word| == 1 ==> (word + "}")[1] == '}' && word[0] != '\\';
      } else {
        assert t[1..] == Rest(s, k + 1);
        NoWordAndClose(s, k + 1, word[1..]);
        assert (word + "}")[1..] == word[1..] + "}";
      }
    }
  }

  lemma FirstIsPiece(s: string, k: nat)
    requires k < |s|
    ensures Piece(s, k) <= Rest(s, k) && Piece(s, k) != "" && Rest(s, k)[0] != '}'
    ensures s[k] == '{' || s[k] == '}' ==>
      Rest(s, k)[0] == '{' || (|Rest(s, k)| > 1 && Rest(s, k)[0] == '\\' && Rest(s, k)[1] == s[k])
  {
  }

  /** A paired opening brace is not taken for a symbol. */
  lemma NotSymbol(s: string, k: nat)
    requires k <= |s|
    ensures !Symbol("{" + Rest(s, k))
  {
    NoWordAndClose(s, k, "\\textbraceleft");
    NoWordAndClose(s, k, "\\textbraceright");
    var t := "{" + Rest(s, k);
    assert t[1..] == Rest(s, k);
    assert LONE_OPEN[1..] == "\\textbraceleft" + "}" && LONE_CLOSE[1..] == "\\textbraceright" + "}";
  }

  lemma {:induction false} UnbracePiece(s: string, k: nat)
    requires k < |s|
    ensures Unbrace(Rest(s, k)) == [s[k]] + Unbrace(Rest(s, k + 1))
  {
    var t := Rest(s, k + 1);
    if s[k] != '{' && s[k] != '}' {
      PlainPiece(s, k);
    } else if Unpaired(s, k) {
      LonePiece(t);
    } else {
      NotSymbol(s, k + 1);
      PairedPiece(s[k], t);
    }
  }

  lemma {:induction false} PairedPiece(c: char, t: string)
    requires c == '}' || (c == '{' && !Symbol("{" + t))
    ensures Unbrace("\\" + [c] + t) == [c] + Unbrace(t)
  {
    var whole := "\\" + [c] + t;
    assert whole[0] == '\\' && whole[1] == c && whole[1..] == [c] + t && whole[2..] == t;
    assert LONE_OPEN[0] == '{' && LONE_CLOSE[0] == '{';
  }

  lemma {:induction false} LonePiece(t: string)
    ensures Unbrace(LONE_OPEN + t) == "{" + Unbrace(t) && Unbrace(LONE_CLOSE + t) == "}" + Unbrace(t)
  {
    assert (LONE_OPEN + t)[|LONE_OPEN|..] == t && (LONE_CLOSE + t)[|LONE_CLOSE|..] == t;
    assert LONE_OPEN[12] != LONE_CLOSE[12];
    assert (LONE_CLOSE + t)[12] == LONE_CLOSE[12];
  }

  lemma {:induction false} PlainPiece(s: string, k: nat)
    requires k < |s| && s[k] != '{' && s[k] != '}'
    ensures Unbrace(Rest(s, k)) == [s[k]] + Unbrace(Rest(s, k + 1))
  {
    var t := Rest(s, k + 1);
    NoWordAndClose(s, k + 1, "");
    assert t != "" && t[0] == '}' ==> "" + "}" <= t;
    if t != "" && t[0] == '{' { OpensWithSymbol(s, k + 1); }
    PlainFirst(s[k], t);
  }

  lemma {:induction false} PlainFirst(c: char, t: string)
    requires c != '{' && c != '}' && (t != "" ==> t[0] != '}' && (t[0] == '{' ==> Symbol(t)))
    ensures Unbrace([c] + t) == [c] + Unbrace(t)
  {
    var whole := [c] + t;
    assert whole[0] == c && whole[1..] == t && (t != "" ==> whole[1] == t[0]);
    assert LONE_OPEN[0] == '{' && LONE_CLOSE[0] == '{';
  }

  lemma {:induction false} OpensWithSymbol(s: string, k: nat)
    requires k < |s| && Rest(s, k)[0] == '{'
    ensures Symbol(Rest(s, k))
  {
  }

  lemma {:induction false} UnbraceRest(s: string, k: nat)
    requires k <= |s|
    ensures Unbrace(Rest(s, k)) == s[k..]
    decreases |s| - k
  {
    if k < |s| {
      UnbracePiece(s, k);
      UnbraceRest(s, k + 1);
    }
  }

  lemma {:induction false} UnpercentPercents(value: string)
    ensures Unpercent(Percents(value)) == value
    ensures Percents(value) != "" ==> Percents(value)[0] != '%'
  {
    if value != "" {
      UnpercentPercents(value[1..]);
      UnpercentOne(value[0], Percents(value[1..]));
    }
  }

  lemma {:induction false} UnpercentOne(c: char, t: string)
    requires t != "" ==> t[0] != '%'
    ensures Unpercent((if c == '%' then "\\%" else [c]) + t) == [c] + Unpercent(t)
  {
    assert ("\\%" + t)[2..] == t && ("\\%" + t)[0] == '\\' && ("\\%" + t)[1] == '%';
    assert ([c] + t)[1..] == t && (t != "" ==> ([c] + t)[1] == t[0]);
  }

  /** The value can be read off the escaped field: no two values escape alike. */
  lemma EscapeLosesNothing(value: string)
    ensures Unpercent(Unbrace(EscapeField(value))) == value
  {
    var s := Percents(value);
    PiecesAndRest(s, 0);
    assert EscapeField(value) == Rest(s, 0);
    UnbraceRest(s, 0);
    UnpercentPercents(value);
  }

  /** The three ways a character is written: a brace without its partner as the symbol, a
      pair as escaped braces, and a percent sign escaped. */
  lemma {:induction false} EscapedSymbols()
    ensures EscapeField("}") == "{\\textbraceright}"
    ensures EscapeField("{") == "{\\textbraceleft}"
    ensures EscapeField("%") == "\\%"
    ensures EscapeField("{}") == "\\{\\}"
  {
    OneCharacter('}');
    OneCharacter('{');
    OneCharacter('%');
    TwoBraces();
  }

  lemma {:induction false} OneCharacter(c: char)
    ensures c != '%' ==> Percents([c]) == [c] && EscapeField([c]) == Piece([c], 0)
    ensures c == '%' ==> EscapeField([c]) == "\\%"
    ensures c == '{' ==> Piece([c], 0) == "{\\textbraceleft}"
    ensures c == '}' ==> Piece([c], 0) == "{\\textbraceright}"
  {
    assert [c][1..] == "" && Percents("") == "";
    if c == '%' {
      var s := Percents([c]);
      assert s == "\\%" && Piece(s, 0) == "\\" && Piece(s, 1) == "%" && Pieces(s, 1) == Pieces(s, 0) + Piece(s, 0);
      assert Pieces(s, 2) == Pieces(s, 1) + Piece(s, 1);
    } else {
      assert Pieces([c], 1) == Pieces([c], 0) + Piece([c], 0);
      assert Opened([c], 0) == [] && Opened([c], 1) == if c == '{' then [0] else [];
    }
  }

  lemma {:induction false} TwoBraces()
    ensures EscapeField("{}") == "\\{\\}"
  {
    var s := "{}";
    assert s[1..] == "}" && "}"[1..] == "" && Percents("}") == "}" && Percents(s) == s;
    assert Opened(s, 0) == [] && Opened(s, 1) == [0] && Opened(s, 2) == [];
    assert Piece(s, 0) == "\\{" && Piece(s, 1) == "\\}";
    assert Pieces(s, 1) == Pieces(s, 0) + Piece(s, 0) && Pieces(s, 2) == Pieces(s, 1) + Piece(s, 1);
  }
}
