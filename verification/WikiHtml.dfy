/** What a browser reads off a rendered marker: the escaping loses nothing and closes
    nothing, so the link goes where the target resolved to, under its name. */
module WikiHtml {
  import opened Common
  import opened Texts
  import opened WikiLinks

  predicate Harmless(c: char) { c != '<' && c != '>' && c != '"' && c != '\'' }

  /** The named characters read back. */
  function Unescape(s: string): string {
    if s == "" then ""
    else if "&amp;" <= s then "&" + Unescape(s[5..])
    else if "&lt;" <= s then "<" + Unescape(s[4..])
    else if "&gt;" <= s then ">" + Unescape(s[4..])
    else if "&quot;" <= s then "\"" + Unescape(s[6..])
    else if "&#x27;" <= s then "'" + Unescape(s[6..])
    else [s[0]] + Unescape(s[1..])
  }

  lemma {:induction false} OneBack(c: char, rest: string)
    ensures Unescape(EscapeChar(c) + rest) == [c] + Unescape(rest)
  {
    var s := EscapeChar(c) + rest;
    match c
    case '&' => assert s[5..] == rest;
    case '<' => assert s[4..] == rest && s[1] == 'l';
    case '>' => assert s[4..] == rest && s[1] == 'g';
    case '"' => assert s[6..] == rest && s[1] == 'q';
    case '\'' => assert s[6..] == rest && s[1] == '#';
    case _ => assert s[1..] == rest && s[0] != '&';
  }

  lemma {:induction false} EscapedReadsBack(s: string)
    ensures Unescape(Escape(s)) == s
  {
    if s != [] {
      EscapedReadsBack(s[1..]);
      OneBack(s[0], Escape(s[1..]));
    }
  }

  lemma {:induction false} EscapedIsHarmless(s: string)
    ensures forall c :: c in Escape(s) ==> Harmless(c)
  {
    if s != [] {
      EscapedIsHarmless(s[1..]);
      OneHarmless(s[0]);
    }
  }

  lemma {:induction false} OneHarmless(c: char)
    ensures forall d :: d in EscapeChar(c) ==> Harmless(d)
  {
  }

  /** What comes before the first `c`, and what comes after it. */
  function Until(text: string, c: char): Option<(string, string)> {
    if text == "" then None
    else if text[0] == c then Some(("", text[1..]))
    else
      match Until(text[1..], c)
      case None => None
      case Some(r) => Some(([text[0]] + r.0, r.1))
  }

  lemma {:induction false} UntilIs(text: string, before: string, c: char, rest: string)
    requires c !in before && text == before + ([c] + rest)
    ensures Until(text, c) == Some((before, rest))
  {
    if before != "" {
      assert text[0] == before[0] && text[0] in before;
      assert text[1..] == before[1..] + ([c] + rest) && before == [before[0]] + before[1..];
      UntilIs(text[1..], before[1..], c, rest);
    } else {
      assert text == [c] + rest && text[1..] == rest;
    }
  }

  /** Where a link leads and what it shows: the address behind `#/`, then the text. */
  function ReadLink(html: string): Option<(string, string)> {
    if !(LINK <= html) then None
    else
      match Until(html[|LINK|..], '"')
      case None => None
      case Some(address) =>
        match Until(address.1, '>')
        case None => None
        case Some(attributes) =>
          match Until(attributes.1, '<')
          case None => None
          case Some(shown) => Some((Unescape(address.0), Unescape(shown.0)))
  }

  lemma {:induction false} StyleStaysOpen()
    ensures '>' !in LINK_STYLE
  {
    assert '>' !in " class=\"wiki-link\"";
    assert '>' !in " style=\"color:var(--accent);";
    assert '>' !in " text-decoration:none;\"";
  }

  lemma {:induction false} LinkReads(html: string, address: string, style: string, shown: string, rest: string)
    requires '"' !in address && '>' !in style && '<' !in shown
    requires html == LINK + (address + (['"'] + (style + (['>'] + (shown + (['<'] + rest))))))
    ensures ReadLink(html) == Some((Unescape(address), Unescape(shown)))
  {
    var c := shown + (['<'] + rest);
    var b := style + (['>'] + c);
    var a := address + (['"'] + b);
    assert html[|LINK|..] == a;
    UntilIs(a, address, '"', b);
    UntilIs(b, style, '>', c);
    UntilIs(c, shown, '<', rest);
  }

  lemma {:induction false} UnescapePlain(s: string, rest: string)
    requires '&' !in s
    ensures Unescape(s + rest) == s + Unescape(rest)
  {
    if s != "" {
      assert (s + rest)[1..] == s[1..] + rest && (s + rest)[0] != '&';
      UnescapePlain(s[1..], rest);
    } else {
      assert s + rest == rest;
    }
  }

  /** A resolved marker is a link to the row's kind and id, which shows its name. */
  lemma {:induction false} ResolvedReads(resolved: map<string, Hit>, inner: string)
    requires Strip(inner) in resolved
    requires var kind := resolved[Strip(inner)].kind; '"' !in kind && '&' !in kind
    ensures var hit := resolved[Strip(inner)];
      ReadLink(Replacement(resolved, inner)) == Some((hit.kind + "/" + hit.id, hit.name))
  {
    var hit := resolved[Strip(inner)];
    EscapedReadsBack(hit.id);
    EscapedReadsBack(hit.name);
    EscapedIsHarmless(hit.id);
    EscapedIsHarmless(hit.name);
    var address, shown := hit.kind + "/" + Escape(hit.id), Escape(hit.name);
    UnescapePlain(hit.kind + "/", Escape(hit.id));
    StyleStaysOpen();
    LinkIs(LINK, hit.kind, Escape(hit.id), LINK_STYLE, shown);
    LinkReads(Replacement(resolved, inner), address, LINK_STYLE, shown, "/a>");
  }

  lemma {:induction false} LinkIs(link: string, kind: string, id: string, style: string, shown: string)
    ensures link + kind + "/" + id + "\"" + style + ">" + shown + "</a>" ==
              link + ((kind + "/" + id) + (['"'] + (style + (['>'] + (shown + (['<'] + "/a>"))))))
  {
    assert "</a>" == ['<'] + "/a>";
  }

  /** An unresolved marker shows its trimmed target in double brackets, and is no link. */
  lemma {:induction false} UnresolvedReads(resolved: map<string, Hit>, inner: string)
    requires Strip(inner) !in resolved
    ensures ReadLink(Replacement(resolved, inner)) == None
    ensures var html := Replacement(resolved, inner);
      && UNRESOLVED <= html && Until(html[|UNRESOLVED|..], '<').Some?
      && Unescape(Until(html[|UNRESOLVED|..], '<').value.0) == "[[" + Strip(inner) + "]]"
  {
    var raw := Strip(inner);
    var html, shown := Replacement(resolved, inner), "[[" + Escape(raw) + "]]";
    EscapedIsHarmless(raw);
    SpanIs(UNRESOLVED, Escape(raw));
    assert html[|UNRESOLVED|..] == shown + (['<'] + "/span>");
    UntilIs(html[|UNRESOLVED|..], shown, '<', "/span>");
    UnescapePlain("[[", Escape(raw) + "]]");
    assert shown == "[[" + (Escape(raw) + "]]");
    ReadsBackBefore(raw, "]]");
    assert "[[" + (raw + "]]") == "[[" + raw + "]]";
    NoLink(html, shown + (['<'] + "/span>"));
  }

  lemma {:induction false} NoLink(html: string, rest: string)
    requires html == UNRESOLVED + rest
    ensures ReadLink(html) == None
  {
    assert "<span"[1] == 's' && UNRESOLVED[1] == 's';
    assert LINK[1] == 'a' && html[1] == UNRESOLVED[1];
  }

  lemma {:induction false} SpanIs(opening: string, raw: string)
    ensures opening + "[[" + raw + "]]</span>" == opening + (("[[" + raw + "]]") + (['<'] + "/span>"))
  {
    assert "]]</span>" == "]]" + (['<'] + "/span>");
  }

  lemma {:induction false} ReadsBackBefore(s: string, rest: string)
    requires '&' !in rest
    ensures Unescape(Escape(s) + rest) == s + rest
  {
    if s == [] {
      Untouched(rest);
      assert Escape(s) + rest == rest && s + rest == rest;
    } else {
      ReadsBackBefore(s[1..], rest);
      OneMoreBack(s[0], Escape(s[1..]), rest, s[1..] + rest);
      FirstAndRest(s, rest);
    }
  }

  lemma {:induction false} FirstAndRest(s: string, rest: string)
    requires s != []
    ensures [s[0]] + (s[1..] + rest) == s + rest
  {
  }

  lemma {:induction false} Untouched(s: string)
    requires '&' !in s
    ensures Unescape(s) == s
  {
    UnescapePlain(s, "");
    assert s + "" == s;
  }

  lemma {:induction false} OneMoreBack(c: char, escaped: string, rest: string, t: string)
    requires Unescape(escaped + rest) == t
    ensures Unescape((EscapeChar(c) + escaped) + rest) == [c] + t
  {
    Regrouped(EscapeChar(c), escaped, rest);
    OneBack(c, escaped + rest);
  }

  lemma {:induction false} Regrouped(a: string, b: string, c: string)
    ensures (a + b) + c == a + (b + c)
  {
  }
}
