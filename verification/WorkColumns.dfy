/** What the mirror holds, said column by column from the raw columns of the Works:
    the meaning of parity, without the views. */
module WorkColumns {
  import opened Common
  import Texts
  import opened WorkViews
  import opened WorkTriggers

  predicate Blank(s: string) { forall i :: 0 <= i < |s| ==> Space(s[i]) }

  /** `word` in any case, with white space around it. */
  predicate Says(t: Text, word: string) {
    t.Some? && exists i, j :: 0 <= i <= j <= |t.value| && Blank(t.value[..i]) && Blank(t.value[j..])
                              && Texts.Lower(t.value[i..j]) == word
  }

  predicate Nonempty(t: Text) { t.Some? && t.value != "" }

  predicate Visible(t: Text) { t.Some? && !Blank(t.value) }

  /** An external stream: a video; or, unless it says PDF, a Work without a file whose
      URL has a provider or was found to be a video. */
  predicate Streams(w: Work, inferred: Option<string>) {
    || Says(w.sourceKind, "video")
    || (&& !Says(w.sourceKind, "pdf")
        && !Visible(w.filePath) && Visible(w.sourceUrl)
        && (Nonempty(w.provider) || Nonempty(w.providerId) || inferred == w.sourceUrl))
  }

  predicate Escape(s: string, i: int) { 0 <= i < |s| - 2 && s[i] == '%' && Hex(s[i + 1]) && Hex(s[i + 2]) }

  /** A file name under the managed directory, as it was stored. */
  predicate ManagedName(name: string) {
    && name != "" && name != "." && name != ".."
    && '/' !in name && '\\' !in name
    && !Space(name[0]) && !Space(name[|name| - 1])
    && forall i :: 0 <= i < |name| ==> !Escape(name, i)
  }

  predicate Managed(path: Text, name: string) { path == Some("/api/pdfs/" + name) && ManagedName(name) }

  /** The Asset holds what the columns of the Work say. */
  ghost predicate AssetHolds(a: AssetFields, w: Work, inferred: Option<string>) {
    && (a.kind == ExternalStream <==> Streams(w, inferred))
    && a.url == (if Streams(w, inferred) then w.sourceUrl else None)
    && (forall name :: a.storageLocator == Some(name) <==> !Streams(w, inferred) && Managed(w.filePath, name))
    && a.mediaType == (
         if Nonempty(w.sourceMime) then w.sourceMime
         else if a.storageLocator.Some? then Some("application/pdf") else None)
    && a.provider == w.provider && a.providerId == w.providerId
    && a.thumbPage == w.thumbPage && a.thumbUrl == w.thumbUrl
    && a.canonicalRevision == w.canonicalRevision && a.materializedRevision == w.materializedRevision
  }

  /** Some column of the Work has a value only an Asset can mirror. */
  predicate AssetWorthy(w: Work, inferred: Option<string>) {
    || Nonempty(w.filePath) || Nonempty(w.provider) || Nonempty(w.providerId)
    || Nonempty(w.sourceMime) || Nonempty(w.thumbUrl) || w.thumbPage.Some?
    || w.canonicalRevision != 0 || w.materializedRevision != 0
    || Streams(w, inferred)
  }

  /** The Manifestations and Assets that began with Work `w` and are still its own hold
      what its columns say, and an Asset is there if the columns need one. A Manifestation
      shows the URL of the Work unless such an Asset streams. */
  ghost predicate Mirrored(t: Tables, w: WorkId)
    requires w in t.works
  {
    var row, inferred := t.works[w], if w in t.inferred then Some(t.inferred[w]) else None;
    && (forall id :: id in t.assets && t.assets[id].origin == Some(w) && t.assets[id].work == w ==>
          AssetHolds(t.assets[id].fields, row, inferred))
    && (forall m :: m in t.manifestations && t.manifestations[m].origin == Some(w) && t.manifestations[m].work == w ==>
          && t.manifestations[m].biblio == row.biblio
          && t.manifestations[m].url ==
               if Streams(row, inferred) && (exists id :: id in t.assets && t.assets[id].origin == Some(w) && t.assets[id].work == w)
               then None else row.sourceUrl)
    && (AssetWorthy(row, inferred)
        && (exists m :: m in t.manifestations && t.manifestations[m].origin == Some(w) && t.manifestations[m].work == w) ==>
          exists id :: id in t.assets && t.assets[id].origin == Some(w))
  }

  // ---- Trimmed texts -------------------------------------------------------

  lemma {:induction false} TrimLeftIs(s: string) returns (i: nat)
    ensures i <= |s| && Blank(s[..i]) && TrimLeft(s) == s[i..] && (i < |s| ==> !Space(s[i]))
  {
    i := 0;
    if s != "" && Space(s[0]) {
      i := TrimLeftIs(s[1..]);
      i := i + 1;
      assert s[1..][i - 1..] == s[i..];
      forall k | 0 <= k < i ensures Space(s[k]) { if k > 0 { assert s[1..][..i - 1][k - 1] == s[k]; } }
    }
  }

  lemma {:induction false} TrimRightIs(s: string) returns (j: nat)
    ensures j <= |s| && Blank(s[j..]) && TrimRight(s) == s[..j] && (j > 0 ==> !Space(s[j - 1]))
  {
    j := |s|;
    if s != "" && Space(s[|s| - 1]) {
      var n := |s| - 1;
      j := TrimRightIs(s[..n]);
      assert s[..n][..j] == s[..j];
      forall k | 0 <= k < |s| - j ensures Space(s[j..][k]) { if k < n - j { assert s[..n][j..][k] == s[j + k]; } }
    }
  }

  lemma {:induction false} TrimIs(s: string) returns (i: nat, j: nat)
    ensures i <= j <= |s| && Blank(s[..i]) && Blank(s[j..]) && Trim(s) == s[i..j]
    ensures i < j ==> !Space(s[i]) && !Space(s[j - 1])
  {
    i := TrimLeftIs(s);
    j := TrimRightIs(s[i..]);
    assert s[i..][j..] == s[i + j..] && s[i..][..j] == s[i..i + j];
    if j > 0 { assert s[i..][j - 1] == s[i + j - 1]; assert j - 1 >= 0; assert i < |s|; }
    j := i + j;
  }

  lemma {:induction false} TrimBlank(s: string)
    ensures Trim(s) == "" <==> Blank(s)
  {
    var i, j := TrimIs(s);
    SpacesAround(s, i, j);
    assert i < j ==> !Space(s[i]);
  }

  lemma {:induction false} LowerSpace(s: string, k: nat)
    requires k < |s|
    ensures Space(Texts.Lower(s)[k]) <==> Space(s[k])
  {
  }

  lemma {:induction false} SpacesAround(s: string, i: nat, j: nat)
    requires i <= j <= |s| && Blank(s[..i]) && Blank(s[j..])
    ensures forall k :: 0 <= k < |s| && (k < i || j <= k) ==> Space(s[k])
  {
    forall k | 0 <= k < |s| && (k < i || j <= k) ensures Space(s[k]) {
      if k < i { assert s[..i][k] == s[k]; } else { assert s[j..][k - j] == s[k]; }
    }
  }

  /** A decomposition around a text without outer white space is the trimmed one. */
  lemma {:induction false} SameTrim(s: string, a: nat, b: nat, i: nat, j: nat)
    requires a < b <= |s| && Blank(s[..a]) && Blank(s[b..]) && !Space(s[a]) && !Space(s[b - 1])
    requires i <= j <= |s| && Blank(s[..i]) && Blank(s[j..]) && (i < j ==> !Space(s[i]) && !Space(s[j - 1]))
    ensures a == i && b == j
  {
    SpacesAround(s, a, b);
    SpacesAround(s, i, j);
  }

  lemma {:induction false} SaysIsNorm(w: Work, word: string)
    requires word != "" && !Space(word[0]) && !Space(word[|word| - 1])
    ensures Says(w.sourceKind, word) <==> KindNorm(w) == word
  {
    var s := Content(w.sourceKind);
    var i, j := TrimIs(s);
    if KindNorm(w) == word {
      assert w.sourceKind.Some?;
    }
    if Says(w.sourceKind, word) {
      var a, b :| 0 <= a <= b <= |s| && Blank(s[..a]) && Blank(s[b..]) && Texts.Lower(s[a..b]) == word;
      LowerSpace(s[a..b], 0);
      LowerSpace(s[a..b], b - a - 1);
      SameTrim(s, a, b, i, j);
    }
  }

  // ---- The views say the same ----------------------------------------------

  lemma {:induction false} StreamsIs(w: Work, inferred: Option<string>)
    ensures IsStream(w, inferred) <==> Streams(w, inferred)
    ensures KindNorm(w) == "video" ==> Streams(w, inferred)
  {
    SaysIsNorm(w, "video");
    SaysIsNorm(w, "pdf");
    TrimBlank(Content(w.filePath));
    TrimBlank(Content(w.sourceUrl));
  }

  lemma {:induction false} TrimBare(s: string)
    requires s != ""
    ensures s == Trim(s) <==> !Space(s[0]) && !Space(s[|s| - 1])
  {
    var i, j := TrimIs(s);
    if s == Trim(s) {
      assert |s| == j - i;
    } else if !Space(s[0]) && !Space(s[|s| - 1]) {
      assert s[..0] == "" && s[|s|..] == "" && s[0..|s|] == s;
      SameTrim(s, 0, |s|, i, j);
    }
  }

  lemma {:induction false} EscapesAre(s: string)
    ensures PercentEscaped(s) <==> exists i :: 0 <= i < |s| && Escape(s, i)
  {
    if i :| 0 <= i < |s| && Escape(s, i) { assert s[i] == '%' && Hex(s[i + 1]); }
    if PercentEscaped(s) {
      var i :| 0 <= i < |s| - 2 && s[i] == '%' && Hex(s[i + 1]) && Hex(s[i + 2]);
      assert Escape(s, i);
    }
  }

  lemma {:induction false} LocatorIs(w: Work, name: string)
    ensures Locator(w) == Some(name) <==> Managed(w.filePath, name)
  {
    if w.filePath.Some? {
      var p := w.filePath.value;
      if |p| > 10 && p[..10] == PDF_PREFIX {
        assert p == PDF_PREFIX + p[10..];
        TrimBare(p[10..]);
        EscapesAre(p[10..]);
      }
      if Managed(w.filePath, name) { assert p[..10] == PDF_PREFIX && p[10..] == name; }
    }
  }

  lemma {:induction false} ViewHolds(w: Work, inferred: Option<string>)
    ensures AssetHolds(AssetView(w, inferred), w, inferred)
    ensures HasAssetValue(w, inferred) <==> AssetWorthy(w, inferred)
  {
    StreamsIs(w, inferred);
    forall name ensures Locator(w) == Some(name) <==> Managed(w.filePath, name) { LocatorIs(w, name); }
  }

  /** Parity is what the columns say. */
  lemma {:induction false} ParityMirrors(t: Tables, w: WorkId)
    requires Parity(t) && w in t.works
    ensures Mirrored(t, w)
  {
    var row, inferred := t.works[w], Inferred(t, w);
    ViewHolds(row, inferred);
    forall id | id in t.assets && t.assets[id].origin == Some(w) && t.assets[id].work == w
      ensures AssetHolds(t.assets[id].fields, row, inferred)
    {
      assert AssetCurrent(t, id);
    }
    forall m | m in t.manifestations && t.manifestations[m].origin == Some(w) && t.manifestations[m].work == w
      ensures t.manifestations[m].biblio == row.biblio && t.manifestations[m].url == ManifestationUrl(t, w)
    {
      assert ManifestationCurrent(t, m);
    }
    if id :| id in t.assets && t.assets[id].origin == Some(w) && t.assets[id].work == w {
      StreamFromAsset(t, w, id);
    } else {
      assert !OwnsStream(t, w);
    }
    assert AssetPresent(t, w);
    if m :| m in t.manifestations && t.manifestations[m].origin == Some(w) && t.manifestations[m].work == w {
      assert OwnedManifestation(t, m, w);
    }
    if HasOriginAsset(t, w) {
      var id :| id in t.assets && OriginRow(t.assets[id].origin, w);
      assert t.assets[id].origin == Some(w);
    }
  }

  /** The two kinds a Work may state outright. */
  lemma {:induction false} VideoAndPdf(t: Tables, w: WorkId, a: RowId, m: RowId)
    requires Parity(t) && w in t.works && a in t.assets && m in t.manifestations
    requires t.assets[a].origin == Some(w) == t.manifestations[m].origin
    requires t.assets[a].work == w == t.manifestations[m].work
    ensures var row, fields := t.works[w], t.assets[a].fields;
      && (row.sourceKind == Some("video") ==>
            && fields.kind == ExternalStream && fields.url == row.sourceUrl && fields.storageLocator == None
            && t.manifestations[m].url == None)
      && (row.sourceKind == Some("pdf") ==>
            && fields.kind == ManagedFile && fields.url == None
            && t.manifestations[m].url == row.sourceUrl)
  {
    var kind := t.works[w].sourceKind;
    ParityMirrors(t, w);
    SaysIsNorm(t.works[w], "video");
    SaysIsNorm(t.works[w], "pdf");
    assert AssetHolds(t.assets[a].fields, t.works[w], if w in t.inferred then Some(t.inferred[w]) else None);
    LiteralKinds(t.works[w]);
  }

  lemma {:induction false} LiteralKinds(w: Work)
    ensures w.sourceKind == Some("video") ==> KindNorm(w) == "video"
    ensures w.sourceKind == Some("pdf") ==> KindNorm(w) == "pdf"
  {
    TrimBare("video");
    TrimBare("pdf");
  }
}
