/** Finding and rendering `[[target]]` markers in a note. */
module WikiLinks {
  import opened Common
  import opened Texts

  predicate TwoAt(text: string, c: char, k: int) { 0 <= k < |text| - 1 && text[k] == c && text[k + 1] == c }

  // ---- The reference: leftmost, shortest, no newline inside ----------------

  /** The shortest stretch from `e` on that is followed by `]]` and holds no newline;
      where it ends. */
  function Lazy(text: string, e: nat): Option<nat>
    decreases |text| - e
  {
    if TwoAt(text, ']', e) then Some(e)
    else if e < |text| && text[e] != '\n' then Lazy(text, e + 1)
    else None
  }

  /** The marker that opens at `k`, if one does. */
  function MarkerAt(text: string, k: nat): Option<nat> { if TwoAt(text, '[', k) then Lazy(text, k + 2) else None }

  datatype Span = Span(start: nat, end: nat)

  lemma {:induction false} LazyIsLater(text: string, e: nat)
    ensures var m := Lazy(text, e); m.Some? ==> e <= m.value < |text| - 1
    decreases |text| - e
  {
    if !TwoAt(text, ']', e) && e < |text| && text[e] != '\n' { LazyIsLater(text, e + 1); }
  }

  /** All markers from `k` on, trying every place from left to right and going on
      after each marker. */
  function Markers(text: string, k: nat, out: seq<Span>): seq<Span>
    decreases |text| - k
  {
    if k >= |text| then out
    else
      match MarkerAt(text, k)
      case None => Markers(text, k + 1, out)
      case Some(e) => LazyIsLater(text, k + 2); Markers(text, e + 2, out + [Span(k, e + 2)])
  }

  /** The first close at or after `e` is at `close`, with no newline before it. */
  ghost predicate Shortest(text: string, e: nat, close: nat) {
    TwoAt(text, ']', close) && forall j :: e <= j < close ==> !TwoAt(text, ']', j) && text[j] != '\n'
  }

  /** A marker from `k` to `close`: brackets on both sides, nothing between them that
      closes earlier, and no newline. */
  ghost predicate Marker(text: string, k: nat, close: nat) {
    TwoAt(text, '[', k) && k + 2 <= close && Shortest(text, k + 2, close)
  }

  lemma ShortestNext(text: string, e: nat, close: nat)
    requires e < close
    ensures Shortest(text, e, close) <==>
              Shortest(text, e + 1, close) && !TwoAt(text, ']', e) && text[e] != '\n'
  {
  }

  lemma {:induction false} LazyIs(text: string, e: nat, close: nat)
    requires e <= close
    ensures Lazy(text, e) == Some(close) <==> Shortest(text, e, close)
    decreases |text| - e
  {
    if e < close { ShortestNext(text, e, close); }
    if !TwoAt(text, ']', e) && e < |text| && text[e] != '\n' {
      LazyIsLater(text, e + 1);
      if e < close { LazyIs(text, e + 1, close); }
    }
  }

  lemma MarkerAtIs(text: string, k: nat, close: nat)
    ensures MarkerAt(text, k) == Some(close) <==> Marker(text, k, close)
  {
    LazyIsLater(text, k + 2);
    if k + 2 <= close { LazyIs(text, k + 2, close); }
  }

  ghost predicate Within(all: seq<Span>, from: nat, j: nat) {
    exists i :: from <= i < |all| && all[i].start <= j < all[i].end
  }

  /** From `k` on, the spans after `out` are markers, and every place a marker could
      open at is in one. */
  ghost predicate Complete(text: string, k: nat, out: seq<Span>, all: seq<Span>) {
    && out <= all
    && (forall i :: |out| <= i < |all| ==> all[i].end >= 2 && Marker(text, all[i].start, all[i].end - 2))
    && (forall j: nat, close: nat :: k <= j && Marker(text, j, close) ==> Within(all, |out|, j))
  }

  lemma CompleteSkip(text: string, k: nat, out: seq<Span>, all: seq<Span>)
    requires MarkerAt(text, k) == None && Complete(text, k + 1, out, all)
    ensures Complete(text, k, out, all)
  {
    forall close: nat ensures !Marker(text, k, close) { MarkerAtIs(text, k, close); }
  }

  lemma CompleteOne(text: string, k: nat, e: nat, out: seq<Span>, all: seq<Span>)
    requires Marker(text, k, e) && Complete(text, e + 2, out + [Span(k, e + 2)], all)
    ensures Complete(text, k, out, all)
  {
    assert all[|out|] == Span(k, e + 2);
    forall j: nat, close: nat | k <= j && Marker(text, j, close) ensures Within(all, |out|, j) {
      if j < e + 2 {
        assert all[|out|].start <= j < all[|out|].end;
      } else {
        assert Within(all, |out| + 1, j);
        var i :| |out| + 1 <= i < |all| && all[i].start <= j < all[i].end;
      }
    }
  }

  /** The spans found are the leftmost, shortest markers, and none is missed but those
      that begin inside another. */
  lemma {:induction false} MarkersAre(text: string, k: nat, out: seq<Span>)
    ensures Complete(text, k, out, Markers(text, k, out))
    decreases |text| - k
  {
    if k < |text| {
      match MarkerAt(text, k)
      case None =>
        MarkersAre(text, k + 1, out);
        CompleteSkip(text, k, out, Markers(text, k, out));
      case Some(e) =>
        LazyIsLater(text, k + 2);
        MarkerAtIs(text, k, e);
        MarkersAre(text, e + 2, out + [Span(k, e + 2)]);
        CompleteOne(text, k, e, out, Markers(text, k, out));
    }
  }

  // ---- The scan ------------------------------------------------------------

  /** The first place at or after `i` where `c` stands twice, -1 for none. */
  function FindTwo(text: string, c: char, i: nat): (k: int)
    ensures k == -1 || i <= k < |text| - 1
    decreases |text| - i
  {
    if i >= |text| then -1 else if TwoAt(text, c, i) then i else FindTwo(text, c, i + 1)
  }

  /** The first newline in a stretch, -1 for none. */
  function FindNewline(text: string, i: nat, to: nat): (k: int)
    requires i <= to <= |text|
    ensures k == -1 || i <= k < to
    decreases |text| - i
  {
    if i >= to then -1 else if text[i] == '\n' then i else FindNewline(text, i + 1, to)
  }

  ghost predicate NoTwo(text: string, c: char, from: nat, to: int) { forall j :: from <= j < to ==> !TwoAt(text, c, j) }

  lemma {:induction false} FindTwoIsFirst(text: string, c: char, i: nat)
    ensures var k := FindTwo(text, c, i);
      if k < 0 then NoTwo(text, c, i, |text|) else TwoAt(text, c, k) && NoTwo(text, c, i, k)
    decreases |text| - i
  {
    if i < |text| && !TwoAt(text, c, i) { FindTwoIsFirst(text, c, i + 1); }
  }

  lemma {:induction false} FindNewlineIsFirst(text: string, i: nat, to: nat)
    requires i <= to <= |text|
    ensures FindNewline(text, i, to) < 0 ==> forall j :: i <= j < to ==> text[j] != '\n'
    ensures FindNewline(text, i, to) >= 0 ==> text[FindNewline(text, i, to)] == '\n'
    decreases |text| - i
  {
    if i < to && text[i] != '\n' { FindNewlineIsFirst(text, i + 1, to); }
  }

  lemma {:induction false} LazyReaches(text: string, e: nat, close: nat)
    requires e <= close && TwoAt(text, ']', close) && NoTwo(text, ']', e, close)
    requires forall j :: e <= j < close ==> text[j] != '\n'
    ensures Lazy(text, e) == Some(close)
    decreases |text| - e
  {
    if e < close { LazyReaches(text, e + 1, close); }
  }

  lemma {:induction false} LazyStops(text: string, e: nat, newline: nat)
    requires e <= newline < |text| && text[newline] == '\n' && NoTwo(text, ']', e, newline)
    ensures Lazy(text, e) == None
    decreases |text| - e
  {
    if e < newline { LazyStops(text, e + 1, newline); }
  }

  lemma {:induction false} LazyFails(text: string, e: nat)
    requires NoTwo(text, ']', e, |text|)
    ensures Lazy(text, e) == None
    decreases |text| - e
  {
    if e < |text| && text[e] != '\n' { LazyFails(text, e + 1); }
  }

  lemma {:induction false} MarkersSkip(text: string, k: nat, to: nat, out: seq<Span>)
    requires k <= to <= |text| && forall j: nat :: k <= j < to ==> MarkerAt(text, j) == None
    ensures Markers(text, k, out) == Markers(text, to, out)
    decreases |text| - k
  {
    if k < to { MarkersSkip(text, k + 1, to, out); }
  }

  /** No marker at all is left. */
  lemma NoMore(text: string, pos: nat, start: int, out: seq<Span>)
    requires pos <= |text| && start == FindTwo(text, '[', pos)
    requires start >= 0 ==> NoTwo(text, ']', start + 2, |text|)
    ensures Markers(text, pos, out) == out
  {
    FindTwoIsFirst(text, '[', pos);
    forall j: nat | pos <= j < |text| ensures MarkerAt(text, j) == None {
      if TwoAt(text, '[', j) { LazyFails(text, j + 2); }
    }
    MarkersSkip(text, pos, |text|, out);
  }

  /** No marker opens up to a newline that comes before the next close. */
  lemma NoneBefore(text: string, pos: nat, start: nat, newline: nat, close: nat, out: seq<Span>)
    requires pos <= start && FindTwo(text, '[', pos) == start && start + 2 <= newline < close < |text| - 1
    requires text[newline] == '\n' && NoTwo(text, ']', start + 2, close)
    ensures Markers(text, pos, out) == Markers(text, newline + 1, out)
  {
    FindTwoIsFirst(text, '[', pos);
    forall j: nat | pos <= j < newline + 1 ensures MarkerAt(text, j) == None {
      if TwoAt(text, '[', j) { LazyStops(text, j + 2, newline); }
    }
    MarkersSkip(text, pos, newline + 1, out);
  }

  /** The next marker is the one that opens first and closes first. */
  lemma OneMarker(text: string, pos: nat, start: nat, close: nat, out: seq<Span>)
    requires pos <= start && FindTwo(text, '[', pos) == start && start + 2 <= close
    requires TwoAt(text, ']', close) && NoTwo(text, ']', start + 2, close)
    requires FindNewline(text, start + 2, close) < 0
    ensures Markers(text, pos, out) == Markers(text, close + 2, out + [Span(start, close + 2)])
  {
    FindTwoIsFirst(text, '[', pos);
    FindNewlineIsFirst(text, start + 2, close);
    MarkersSkip(text, pos, start, out);
    LazyReaches(text, start + 2, close);
  }

  /** Every marker, in one pass: no search looks at a place another search of its kind
      has looked at, so the places examined are at most three times the text. */
  method WikiLinkSpans(text: string) returns (out: seq<Span>, ghost examined: nat)
    ensures out == Markers(text, 0, [])
    ensures examined <= 3 * |text|
  {
    out, examined := [], 0;
    var pos, close := 0, -1;
    ghost var opens, closes, newlines := 0, 0, 0;
    while true
      invariant 0 <= pos <= |text| && -1 <= close
      invariant close >= 0 ==> TwoAt(text, ']', close) && NoTwo(text, ']', pos, close)
      invariant Markers(text, 0, []) == Markers(text, pos, out)
      invariant 0 <= opens <= pos && 0 <= newlines <= pos && 0 <= closes <= if close < 0 then 0 else close + 2
      invariant examined == opens + newlines + closes
      decreases |text| - pos
    {
      var start := FindTwo(text, '[', pos);
      opens := opens + (if start < 0 then |text| else start + 2) - pos;
      if start < 0 {
        examined := opens + newlines + closes;
        NoMore(text, pos, start, out);
        return;
      }
      if close < start + 2 {
        FindTwoIsFirst(text, '[', pos);
        NotInClose(text, start, close);
        close := FindTwo(text, ']', start + 2);
        FindTwoIsFirst(text, ']', start + 2);
        closes := closes + (if close < 0 then |text| else close + 2) - (start + 2);
        if close < 0 {
          examined := opens + newlines + closes;
          NoMore(text, pos, start, out);
          return;
        }
      }
      var newline := FindNewline(text, start + 2, close);
      FindNewlineIsFirst(text, start + 2, close);
      newlines := newlines + (if newline < 0 then close else newline + 1) - (start + 2);
      examined := opens + newlines + closes;
      if newline >= 0 {
        NoneBefore(text, pos, start, newline, close, out);
        pos := newline + 1;
        continue;
      }
      OneMarker(text, pos, start, close, out);
      out := out + [Span(start, close + 2)];
      pos := close + 2;
    }
  }

  /** An opening beyond a close is beyond all of it. */
  lemma NotInClose(text: string, start: nat, close: int)
    requires TwoAt(text, '[', start) && close < start + 2 && (close >= 0 ==> TwoAt(text, ']', close))
    ensures close >= 0 ==> close + 2 <= start + 2
  {
  }

  // ---- Rendering -----------------------------------------------------------

  datatype Hit = Hit(kind: string, id: string, name: string)

  /** Where the piece before span `i` starts. */
  function StartOf(spans: seq<Span>, i: nat): nat
    requires i <= |spans|
  {
    if i == 0 then 0 else spans[i - 1].end
  }

  /** Spans in order and apart, with room for their brackets. */
  ghost predicate Apart(text: string, spans: seq<Span>) {
    && (forall i :: 0 <= i < |spans| ==> spans[i].start + 4 <= spans[i].end <= |text|)
    && (forall i :: 0 < i < |spans| ==> StartOf(spans, i) <= spans[i].start)
  }

  lemma {:induction false} MarkersApart(text: string, k: nat, out: seq<Span>)
    requires Apart(text, out) && StartOf(out, |out|) <= k
    ensures Apart(text, Markers(text, k, out)) && out <= Markers(text, k, out)
    decreases |text| - k
  {
    if k < |text| {
      match MarkerAt(text, k)
      case None => MarkersApart(text, k + 1, out);
      case Some(e) =>
        LazyIsLater(text, k + 2);
        var more := out + [Span(k, e + 2)];
        OneMoreApart(text, out, Span(k, e + 2));
        MarkersApart(text, e + 2, more);
        assert out <= more <= Markers(text, e + 2, more);
    }
  }

  lemma OneMoreApart(text: string, spans: seq<Span>, s: Span)
    requires Apart(text, spans) && StartOf(spans, |spans|) <= s.start && s.start + 4 <= s.end <= |text|
    ensures Apart(text, spans + [s]) && StartOf(spans + [s], |spans| + 1) == s.end && spans <= spans + [s]
  {
    var more := spans + [s];
    forall i | 0 < i < |more| ensures StartOf(more, i) <= more[i].start {
      if i < |spans| { assert StartOf(spans, i) <= spans[i].start; }
    }
  }

  function Inner(text: string, s: Span): string
    requires s.start + 4 <= s.end <= |text|
  {
    text[s.start + 2..s.end - 2]
  }

  /** The text between the spans: one piece more than there are spans. */
  function Outside(text: string, spans: seq<Span>): seq<string>
    requires Apart(text, spans)
  {
    seq(|spans| + 1, i requires 0 <= i <= |spans| => Piece(text, spans, i))
  }

  function Piece(text: string, spans: seq<Span>, i: nat): string
    requires Apart(text, spans) && i <= |spans|
  {
    if i == |spans| then text[StartOf(spans, i)..] else text[StartOf(spans, i)..spans[i].start]
  }

  /** Pieces and fills in turn. */
  function Woven(pieces: seq<string>, fills: seq<string>): string
    requires |pieces| == |fills| + 1
  {
    if fills == [] then pieces[0]
    else Woven(pieces[..|fills|], fills[..|fills| - 1]) + fills[|fills| - 1] + pieces[|fills|]
  }

  /** Pieces and fills in turn, up to the end of the last fill. */
  function WovenTo(pieces: seq<string>, fills: seq<string>): string
    requires |pieces| >= |fills|
  {
    if fills == [] then "" else WovenTo(pieces, fills[..|fills| - 1]) + pieces[|fills| - 1] + fills[|fills| - 1]
  }

  lemma {:induction false} WovenIs(pieces: seq<string>, fills: seq<string>)
    requires |pieces| == |fills| + 1
    ensures Woven(pieces, fills) == WovenTo(pieces, fills) + pieces[|fills|]
  {
    if fills != [] {
      var n := |fills| - 1;
      WovenIs(pieces[..n + 1], fills[..n]);
      SamePieces(pieces[..n + 1], pieces, fills[..n]);
    }
  }

  lemma {:induction false} SamePieces(a: seq<string>, b: seq<string>, fills: seq<string>)
    requires |a| >= |fills| && |b| >= |fills| && forall i :: 0 <= i < |fills| ==> a[i] == b[i]
    ensures WovenTo(a, fills) == WovenTo(b, fills)
  {
    if fills != [] { SamePieces(a, b, fills[..|fills| - 1]); }
  }

  function Originals(text: string, spans: seq<Span>): seq<string>
    requires Apart(text, spans)
  {
    seq(|spans|, i requires 0 <= i < |spans| => text[spans[i].start..spans[i].end])
  }

  lemma WovenToNext(pieces: seq<string>, fills: seq<string>, i: nat)
    requires i < |fills| <= |pieces|
    ensures WovenTo(pieces, fills[..i + 1]) == WovenTo(pieces, fills[..i]) + pieces[i] + fills[i]
  {
    assert fills[..i + 1][..i] == fills[..i];
  }

  lemma {:induction false} OriginalsTo(text: string, spans: seq<Span>, n: nat)
    requires Apart(text, spans) && n <= |spans|
    ensures WovenTo(Outside(text, spans), Originals(text, spans)[..n]) == text[..StartOf(spans, n)]
  {
    if n > 0 {
      OriginalsTo(text, spans, n - 1);
      WovenToNext(Outside(text, spans), Originals(text, spans), n - 1);
      ThreeParts(text, StartOf(spans, n - 1), spans[n - 1].start, spans[n - 1].end);
    }
  }

  lemma ThreeParts(text: string, a: nat, b: nat, c: nat)
    requires a <= b <= c <= |text|
    ensures text[..a] + text[a..b] + text[b..c] == text[..c]
  {
  }

  /** The text is its outside woven with its own markers: so a rendering that weaves
      the outside with replacements leaves all text outside the markers as it was. */
  lemma TextIsWoven(text: string, spans: seq<Span>)
    requires Apart(text, spans)
    ensures Woven(Outside(text, spans), Originals(text, spans)) == text
  {
    var n := |spans|;
    OriginalsTo(text, spans, n);
    assert Originals(text, spans)[..n] == Originals(text, spans);
    WovenIs(Outside(text, spans), Originals(text, spans));
  }

  // ---- Replacements --------------------------------------------------------

  function EscapeChar(c: char): string {
    match c
    case '&' => "&amp;"
    case '<' => "&lt;"
    case '>' => "&gt;"
    case '"' => "&quot;"
    case '\'' => "&#x27;"
    case _ => [c]
  }

  function Escape(s: string): string { if s == [] then "" else EscapeChar(s[0]) + Escape(s[1..]) }

  const LINK := "<a href=\"#/"
  const LINK_STYLE := " class=\"wiki-link\"" + " style=\"color:var(--accent);" + " text-decoration:none;\""
  const UNRESOLVED := "<span" + " class=\"wiki-link-unresolved\"" + " style=\"color:#ef4444;\">"

  function Replacement(resolved: map<string, Hit>, inner: string): string {
    var raw := Strip(inner);
    if raw in resolved then
      var hit := resolved[raw];
      LINK + hit.kind + "/" + Escape(hit.id) + "\"" + LINK_STYLE + ">" + Escape(hit.name) + "</a>"
    else UNRESOLVED + "[[" + Escape(raw) + "]]</span>"
  }

  function Inners(text: string, spans: seq<Span>): seq<string>
    requires Apart(text, spans)
  {
    seq(|spans|, i requires 0 <= i < |spans| => Inner(text, spans[i]))
  }

  /** The trimmed targets, each once, in the order they first occur. */
  function Targets(inners: seq<string>): seq<string> {
    if inners == [] then []
    else
      var before, target := Targets(inners[..|inners| - 1]), Strip(inners[|inners| - 1]);
      if target in before then before else before + [target]
  }

  lemma {:induction false} TargetsAre(inners: seq<string>)
    ensures var ts := Targets(inners);
      && (forall i, j :: 0 <= i < j < |ts| ==> ts[i] != ts[j])
      && (forall inner :: inner in inners ==> Strip(inner) in ts)
      && (forall x :: x in ts ==> exists inner :: inner in inners && x == Strip(inner))
  {
    if inners != [] {
      var n := |inners| - 1;
      TargetsAre(inners[..n]);
      assert inners == inners[..n] + [inners[n]];
    }
  }

  /** Item `k` is the first whose trimmed inner is `target`. */
  predicate FirstItem(inners: seq<string>, k: nat, target: string) {
    k < |inners| && Strip(inners[k]) == target && forall m :: 0 <= m < k ==> Strip(inners[m]) != target
  }

  /** They come in the order they first occur. */
  lemma {:induction false} TargetsInOrder(inners: seq<string>) returns (at: seq<nat>)
    ensures |at| == |Targets(inners)| && forall i :: 0 <= i < |at| ==> FirstItem(inners, at[i], Targets(inners)[i])
    ensures forall i, j :: 0 <= i < j < |at| ==> at[i] < at[j]
  {
    at := [];
    if inners != [] {
      var n := |inners| - 1;
      at := TargetsInOrder(inners[..n]);
      TargetsAre(inners[..n]);
      var before, target := Targets(inners[..n]), Strip(inners[n]);
      forall i | 0 <= i < |at| ensures FirstItem(inners, at[i], before[i]) && at[i] < n {
        assert FirstItem(inners[..n], at[i], before[i]);
        forall m | 0 <= m <= at[i] ensures inners[..n][m] == inners[m] {}
      }
      if target !in before {
        forall m | 0 <= m < n ensures Strip(inners[m]) != target { assert inners[..n][m] in inners[..n]; }
        at := at + [n];
      }
    }
  }

  lemma {:induction false} TargetsNone(inners: seq<string>)
    ensures Targets(inners) == [] <==> inners == []
  {
    if inners != [] { TargetsNone(inners[..|inners| - 1]); }
  }

  method DistinctTargets(inners: seq<string>) returns (targets: seq<string>)
    ensures targets == Targets(inners)
  {
    targets := [];
    var i := 0;
    while i < |inners|
      invariant 0 <= i <= |inners| && targets == Targets(inners[..i])
    {
      assert inners[..i + 1][..i] == inners[..i];
      var target := Strip(inners[i]);
      if target !in targets { targets := targets + [target]; }
      i := i + 1;
    }
    assert inners[..i] == inners;
  }

  function Replacements(resolved: map<string, Hit>, inners: seq<string>): seq<string> {
    seq(|inners|, i requires 0 <= i < |inners| => Replacement(resolved, inners[i]))
  }

  method Weave(text: string, spans: seq<Span>, resolved: map<string, Hit>) returns (html: string)
    requires Apart(text, spans)
    ensures html == Woven(Outside(text, spans), Replacements(resolved, Inners(text, spans)))
  {
    ghost var pieces, fills := Outside(text, spans), Replacements(resolved, Inners(text, spans));
    html := "";
    var last, i := 0, 0;
    while i < |spans|
      invariant 0 <= i <= |spans| && last == StartOf(spans, i)
      invariant html == WovenTo(pieces, fills[..i])
    {
      WovenToNext(pieces, fills, i);
      html := html + text[last..spans[i].start];
      html := html + Replacement(resolved, Inner(text, spans[i]));
      last := spans[i].end;
      i := i + 1;
    }
    assert fills[..i] == fills;
    html := html + text[last..];
    WovenIs(pieces, fills);
  }

  /** Each distinct target is looked up once; each marker is replaced by what its
      target resolved to; everything else stays. */
  method RenderWikiLinks(text: string, resolve: seq<string> -> map<string, Hit>) returns (html: string)
    ensures var spans := Markers(text, 0, []);
      && Apart(text, spans)
      && html == Woven(Outside(text, spans),
                       Replacements(resolve(Targets(Inners(text, spans))), Inners(text, spans)))
  {
    MarkersApart(text, 0, []);
    if text == "" { return ""; }
    ghost var examined;
    var spans: seq<Span>;
    spans, examined := WikiLinkSpans(text);
    var targets := DistinctTargets(Inners(text, spans));
    if targets == [] {
      NoTargets(text, spans);
      return text;
    }
    html := Weave(text, spans, resolve(targets));
  }

  lemma NoTargets(text: string, spans: seq<Span>)
    requires Apart(text, spans) && Targets(Inners(text, spans)) == []
    ensures spans == [] && Outside(text, spans) == [text]
  {
    TargetsNone(Inners(text, spans));
    assert Outside(text, []) == [text];
  }
}
