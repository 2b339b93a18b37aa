/** Payloads between double brackets in a byte stream, read whole or in chunks. */
module ByteScan {
  newtype byte = x: int | 0 <= x < 256

  const OPEN: byte := 0x5B
  const CLOSE: byte := 0x5D

  // ---- Finding a doubled byte ----------------------------------------------

  predicate PairAt(d: seq<byte>, b: byte, k: int) { 0 <= k < |d| - 1 && d[k] == b && d[k + 1] == b }

  /** The first place at or after `i` where `b` stands twice, -1 for none. */
  function Find(d: seq<byte>, b: byte, i: nat): (k: int)
    ensures k == -1 || i <= k < |d| - 1
    decreases |d| - i
  {
    if i >= |d| then -1 else if PairAt(d, b, i) then i else Find(d, b, i + 1)
  }

  ghost predicate NoPairs(d: seq<byte>, b: byte, from: nat, to: int) {
    forall j :: from <= j < to ==> !PairAt(d, b, j)
  }

  lemma {:induction false} FindIsFirst(d: seq<byte>, b: byte, i: nat)
    ensures var k := Find(d, b, i);
      if k < 0 then NoPairs(d, b, i, |d|) else PairAt(d, b, k) && NoPairs(d, b, i, k)
    decreases |d| - i
  {
    if i < |d| && !PairAt(d, b, i) { FindIsFirst(d, b, i + 1); }
  }

  lemma {:induction false} FindSkips(d: seq<byte>, b: byte, i: nat, j: nat)
    requires i <= j && NoPairs(d, b, i, j)
    ensures Find(d, b, i) == Find(d, b, j)
    decreases j - i
  {
    if i < j { FindSkips(d, b, i + 1, j); }
  }

  // ---- The reference -------------------------------------------------------

  /** A payload worth reporting: short enough, and without brackets of its own. */
  predicate Kept(payload: seq<byte>, maxInner: int) {
    |payload| <= maxInner && OPEN !in payload && CLOSE !in payload
  }

  function Reported(out: seq<seq<byte>>, payload: seq<byte>, maxInner: int): seq<seq<byte>> {
    if Kept(payload, maxInner) then out + [payload] else out
  }

  /** `out`, and the payloads of `d` from place `i` on, outside a marker. */
  function Scan(d: seq<byte>, i: nat, maxInner: int, out: seq<seq<byte>>): seq<seq<byte>>
    decreases |d| - i
  {
    var start := Find(d, OPEN, i);
    if start < 0 then out else ScanInside(d, start + 2, maxInner, out)
  }

  /** `out`, and the payloads of `d` from place `i` on, where a payload starts. */
  function ScanInside(d: seq<byte>, i: nat, maxInner: int, out: seq<seq<byte>>): seq<seq<byte>>
    decreases |d| - i
  {
    var end := Find(d, CLOSE, i);
    if end < 0 then out else Scan(d, end + 2, maxInner, Reported(out, d[i..end], maxInner))
  }

  function Payloads(d: seq<byte>, maxInner: int): seq<seq<byte>> { Scan(d, 0, maxInner, []) }

  lemma {:induction false} NothingKept(d: seq<byte>, i: nat, maxInner: int, out: seq<seq<byte>>)
    requires d == [] || maxInner < 0
    ensures Scan(d, i, maxInner, out) == out
    decreases |d| - i
  {
    var start := Find(d, OPEN, i);
    if start >= 0 {
      var end := Find(d, CLOSE, start + 2);
      if end >= 0 { NothingKept(d, end + 2, maxInner, out); }
    }
  }

  // ---- What the reference reports ------------------------------------------

  /** The marker that opens at the first `[[` from `i` on closes at the first `]]`
      behind it. */
  ghost predicate MarkerFrom(d: seq<byte>, i: nat, start: nat, end: nat) {
    && i <= start && start + 2 <= end && PairAt(d, 0x5B, start) && NoPairs(d, 0x5B, i, start)
    && PairAt(d, 0x5D, end) && NoPairs(d, 0x5D, start + 2, end)
  }

  /** Nothing opens from `i` on, or what opens never closes. */
  ghost predicate NoMarkerFrom(d: seq<byte>, i: nat) {
    || NoPairs(d, 0x5B, i, |d|)
    || exists start :: i <= start && PairAt(d, 0x5B, start) && NoPairs(d, 0x5B, i, start) && NoPairs(d, 0x5D, start + 2, |d|)
  }

  /** All markers from `i` on, each looked for behind the one before. */
  ghost predicate MarkersFrom(d: seq<byte>, i: nat, spans: seq<(nat, nat)>)
    decreases |spans|
  {
    if spans == [] then NoMarkerFrom(d, i)
    else MarkerFrom(d, i, spans[0].0, spans[0].1) && MarkersFrom(d, spans[0].1 + 2, spans[1..])
  }

  /** The insides that are short enough and hold no bracket. */
  function Insides(d: seq<byte>, spans: seq<(nat, nat)>, maxInner: int): seq<seq<byte>> {
    if spans == [] then []
    else
      var (start, end) := spans[0];
      (if start + 2 <= end <= |d| && end - start - 2 <= maxInner && forall k :: start + 2 <= k < end ==> d[k] != 0x5B && d[k] != 0x5D
       then [d[start + 2..end]] else [])
      + Insides(d, spans[1..], maxInner)
  }

  lemma {:induction false} ScanIs(d: seq<byte>, i: nat, maxInner: int, out: seq<seq<byte>>) returns (spans: seq<(nat, nat)>)
    ensures MarkersFrom(d, i, spans) && Scan(d, i, maxInner, out) == out + Insides(d, spans, maxInner)
    decreases |d| - i
  {
    var start := Find(d, OPEN, i);
    var end := if start >= 0 then Find(d, CLOSE, start + 2) else -1;
    spans := [];
    FirstMarker(d, i);
    if end >= 0 {
      var rest := ScanIs(d, end + 2, maxInner, Reported(out, d[start + 2..end], maxInner));
      spans := [(start, end)] + rest;
      KeptIs(d, start, end, maxInner);
      assert spans[1..] == rest;
    }
  }

  lemma {:induction false} FirstMarker(d: seq<byte>, i: nat)
    ensures var start := Find(d, OPEN, i);
      if start >= 0 && Find(d, CLOSE, start + 2) >= 0 then MarkerFrom(d, i, start, Find(d, CLOSE, start + 2)) else NoMarkerFrom(d, i)
  {
    FindIsFirst(d, OPEN, i);
    var start := Find(d, OPEN, i);
    if start >= 0 { FindIsFirst(d, CLOSE, start + 2); }
  }

  lemma {:induction false} KeptIs(d: seq<byte>, start: nat, end: nat, maxInner: int)
    requires start + 2 <= end <= |d|
    ensures Kept(d[start + 2..end], maxInner) <==>
              end - start - 2 <= maxInner && forall k :: start + 2 <= k < end ==> d[k] != 0x5B && d[k] != 0x5D
  {
    var payload := d[start + 2..end];
    if Kept(payload, maxInner) {
      forall k | start + 2 <= k < end ensures d[k] != 0x5B && d[k] != 0x5D {
        assert payload[k - start - 2] == d[k] && payload[k - start - 2] in payload;
      }
    }
  }

  /** The payloads are the insides of the markers `[[` to `]]`, found one behind the
      other, without the long ones and those that hold a bracket. */
  lemma {:induction false} PayloadsAre(d: seq<byte>, maxInner: int) returns (spans: seq<(nat, nat)>)
    ensures MarkersFrom(d, 0, spans) && Payloads(d, maxInner) == Insides(d, spans, maxInner)
  {
    spans := ScanIs(d, 0, maxInner, []);
  }

  method WholeBuffer(data: seq<byte>, maxInner: int) returns (out: seq<seq<byte>>)
    ensures out == Payloads(data, maxInner)
  {
    out := [];
    if data == [] || maxInner < 0 {
      NothingKept(data, 0, maxInner, []);
      return;
    }
    var i, n := 0, |data|;
    while i < n
      invariant 0 <= i <= n == |data|
      invariant Payloads(data, maxInner) == Scan(data, i, maxInner, out)
    {
      var start := Find(data, OPEN, i);
      if start < 0 { return; }
      var innerStart := start + 2;
      var end := Find(data, CLOSE, innerStart);
      if end < 0 { return; }
      var inner := data[innerStart..end];
      i := end + 2;
      if |inner| > maxInner { continue; }
      if OPEN in inner || CLOSE in inner { continue; }
      out := out + [inner];
    }
  }

  // ---- Chunks --------------------------------------------------------------

  function Joined(chunks: seq<seq<byte>>): seq<byte> {
    if chunks == [] then [] else Joined(chunks[..|chunks| - 1]) + chunks[|chunks| - 1]
  }

  /** Where a buffer that is the stretch of `d` from `p` on has a pair, `d` has. */
  lemma FindInStretch(d: seq<byte>, p: nat, buf: seq<byte>, b: byte, i: nat)
    requires Stretch(d, p, buf)
    ensures Find(buf, b, i) >= 0 ==> Find(d, b, p + i) == p + Find(buf, b, i)
    ensures Find(buf, b, i) < 0 ==> NoPairs(d, b, p + i, p + |buf| - 1)
  {
    var k := Find(buf, b, i);
    FindIsFirst(buf, b, i);
    forall j | p + i <= j < p + |buf| - 1 && PairAt(d, b, j) ensures PairAt(buf, b, j - p) {}
    if k >= 0 {
      FindSkips(d, b, p + i, p + k);
      assert PairAt(d, b, p + k);
    }
  }

  /** Between two searches: inside a payload or not, what of it is kept, and the
      payloads found so far. */
  datatype Reader = Reader(inside: bool, inner: seq<byte>, oversized: bool, out: seq<seq<byte>>)

  /** How reading stands after the bytes of `d` up to `at`: outside a marker, or in a
      payload that started at `from` and has not been closed. In memory is the
      payload so far, or nothing once it is too long. */
  ghost predicate Standing(d: seq<byte>, at: nat, r: Reader, from: nat, maxInner: int) {
    && at <= |d| && |r.inner| <= maxInner
    && (r.inside ==>
          && from <= at && NoPairs(d, CLOSE, from, at)
          && (if r.oversized then at - from > maxInner && r.inner == [] else r.inner == d[from..at]))
  }

  /** What the whole scan will have found. */
  ghost function Ending(d: seq<byte>, at: nat, r: Reader, from: nat, maxInner: int): seq<seq<byte>> {
    if r.inside then ScanInside(d, from, maxInner, r.out) else Scan(d, at, maxInner, r.out)
  }

  /** On the way to `all`. */
  ghost predicate Reading(d: seq<byte>, at: nat, r: Reader, from: nat, maxInner: int, all: seq<seq<byte>>) {
    Standing(d, at, r, from, maxInner) && Ending(d, at, r, from, maxInner) == all
  }

  /** The bytes carried over: at most one, that may be half of a delimiter. */
  ghost predicate Carried(d: seq<byte>, at: nat, read: nat, carry: seq<byte>) {
    at <= read <= |d| && carry == d[at..read] && |carry| <= 1
  }

  /** Reading in chunks gives what reading the joined chunks gives; between chunks no
      more than `maxInner` payload bytes and one carried byte are held. */
  method Chunked(chunks: seq<seq<byte>>, maxInner: int) returns (out: seq<seq<byte>>)
    ensures out == Payloads(Joined(chunks), maxInner)
  {
    out := [];
    if maxInner < 0 {
      NothingKept(Joined(chunks), 0, maxInner, []);
      return;
    }
    ghost var d := Joined(chunks);
    var r := Reader(false, [], false, []);
    var carry: seq<byte> := [];
    ghost var at: nat, from: nat, read: nat := 0, 0, 0;
    var c := 0;
    while c < |chunks|
      invariant 0 <= c <= |chunks| && read == |Joined(chunks[..c])|
      invariant Reading(d, at, r, from, maxInner, Payloads(d, maxInner))
      invariant Carried(d, at, read, carry)
    {
      ChunkIsNext(chunks, c);
      if chunks[c] != [] {
        assert carry + chunks[c] == d[at..read + |chunks[c]|];
        r, carry, at, from := OneBuffer(carry + chunks[c], r, maxInner, d, at, from, Payloads(d, maxInner));
      }
      read := read + |chunks[c]|;
      c := c + 1;
    }
    assert chunks[..c] == chunks;
    AtTheEnd(d, at, r, from, maxInner);
    out := r.out;
  }

  lemma {:induction false} ChunkIsNext(chunks: seq<seq<byte>>, c: nat)
    requires c < |chunks|
    ensures var read := |Joined(chunks[..c])|;
      && read + |chunks[c]| == |Joined(chunks[..c + 1])| <= |Joined(chunks)|
      && Joined(chunks)[read..read + |chunks[c]|] == chunks[c]
  {
    assert chunks[..c + 1][..c] == chunks[..c];
    JoinedPrefix(chunks, c + 1);
  }

  lemma {:induction false} JoinedPrefix(chunks: seq<seq<byte>>, c: nat)
    requires c <= |chunks|
    ensures Joined(chunks[..c]) <= Joined(chunks)
    decreases |chunks| - c
  {
    if c == |chunks| {
      assert chunks[..c] == chunks;
    } else {
      assert chunks[..c + 1][..c] == chunks[..c];
      JoinedPrefix(chunks, c + 1);
    }
  }

  /** The stretch of `d` from `p` on. */
  ghost predicate Stretch(d: seq<byte>, p: nat, buf: seq<byte>) { p + |buf| <= |d| && buf == d[p..p + |buf|] }

  /** One chunk, with the byte carried into it: the bytes of `d` from `p` on. */
  method OneBuffer(buf: seq<byte>, r0: Reader, maxInner: int,
                   ghost d: seq<byte>, ghost p: nat, ghost from0: nat, ghost all: seq<seq<byte>>)
    returns (r: Reader, carry: seq<byte>, ghost at: nat, ghost from: nat)
    requires Stretch(d, p, buf) && Reading(d, p, r0, from0, maxInner, all)
    ensures Reading(d, at, r, from, maxInner, all) && Carried(d, at, p + |buf|, carry)
    ensures |r.inner| <= maxInner && |carry| <= 1
  {
    r, carry, from := r0, [], from0;
    var i := 0;
    while i < |buf|
      invariant 0 <= i <= |buf| && carry == []
      invariant Reading(d, p + i, r, from, maxInner, all)
    {
      var found;
      if !r.inside {
        found, r, carry, from := SeekOpening(buf, i, r, maxInner, d, p, from, all);
      } else {
        found, r, carry := SeekClosing(buf, i, r, maxInner, d, p, from, all);
      }
      if found < 0 {
        at := p + |buf| - |carry|;
        return;
      }
      i := found + 2;
    }
    at := p + |buf|;
  }

  /** The next opening, or what of the buffer may be half of one. */
  method SeekOpening(buf: seq<byte>, i: nat, r0: Reader, maxInner: int,
                     ghost d: seq<byte>, ghost p: nat, ghost from0: nat, ghost all: seq<seq<byte>>)
    returns (start: int, r: Reader, carry: seq<byte>, ghost from: nat)
    requires Stretch(d, p, buf) && i < |buf| && !r0.inside && Reading(d, p + i, r0, from0, maxInner, all)
    ensures start == Find(buf, OPEN, i) && |carry| <= |buf|
    ensures start < 0 ==> Reading(d, p + |buf| - |carry|, r, from, maxInner, all) && Carried(d, p + |buf| - |carry|, p + |buf|, carry)
    ensures start >= 0 ==> carry == [] && Reading(d, p + start + 2, r, from, maxInner, all)
  {
    start, r, carry, from := Find(buf, OPEN, i), r0, [], from0;
    if start < 0 {
      if buf[|buf| - 1] == OPEN { carry := [OPEN]; }
      NoOpening(d, p, buf, i, carry, maxInner, r.out);
    } else {
      Opening(d, p, buf, i, maxInner, r.out);
      r := Reader(true, [], false, r0.out);
      from := p + start + 2;
    }
  }

  /** The close of the current payload, or what of the buffer may be half of one. */
  method SeekClosing(buf: seq<byte>, i: nat, r0: Reader, maxInner: int,
                     ghost d: seq<byte>, ghost p: nat, ghost from: nat, ghost all: seq<seq<byte>>)
    returns (end: int, r: Reader, carry: seq<byte>)
    requires Stretch(d, p, buf) && i < |buf| && r0.inside && Reading(d, p + i, r0, from, maxInner, all)
    ensures end == Find(buf, CLOSE, i) && |carry| <= |buf|
    ensures end < 0 ==> Reading(d, p + |buf| - |carry|, r, from, maxInner, all) && Carried(d, p + |buf| - |carry|, p + |buf|, carry)
    ensures end >= 0 ==> carry == [] && Reading(d, p + end + 2, r, from, maxInner, all)
  {
    var stop;
    end, stop, r := TakePayload(buf, i, r0, maxInner, d, p, from);
    carry := buf[stop..];
    if end < 0 {
      LastCarried(d, p, buf, carry);
    } else {
      carry := [];
      ClosedReading(d, p, buf, i, from, r, maxInner, all);
      r := Closed(r);
    }
  }

  /** A payload is over: reported, unless it is too long or holds a bracket. */
  function Closed(r: Reader): Reader {
    r.(inside := false, out := if r.oversized || OPEN in r.inner || CLOSE in r.inner then r.out else r.out + [r.inner])
  }

  /** What the buffer has of the current payload. */
  method TakePayload(buf: seq<byte>, i: nat, r0: Reader, maxInner: int, ghost d: seq<byte>, ghost p: nat, ghost from: nat)
    returns (end: int, stop: nat, r: Reader)
    requires Stretch(d, p, buf) && i < |buf| && r0.inside && Standing(d, p + i, r0, from, maxInner)
    ensures end == Find(buf, CLOSE, i) && i <= stop <= |buf|
    ensures stop == if end >= 0 then end else if buf[|buf| - 1] == CLOSE then |buf| - 1 else |buf|
    ensures r.inside && r.out == r0.out && Standing(d, p + stop, r, from, maxInner)
    ensures Ending(d, p + stop, r, from, maxInner) == Ending(d, p + i, r0, from, maxInner)
  {
    end := Find(buf, CLOSE, i);
    stop := if end >= 0 then end else if buf[|buf| - 1] == CLOSE then |buf| - 1 else |buf|;
    Longer(d, p, buf, i, stop, from, r0, maxInner);
    var inner, oversized := Grow(r0.inner, r0.oversized, buf[i..stop], maxInner);
    r := Reader(true, inner, oversized, r0.out);
  }

  method Grow(inner: seq<byte>, oversized: bool, more: seq<byte>, maxInner: int) returns (inner': seq<byte>, oversized': bool)
    ensures (inner', oversized') == Grown(inner, oversized, more, maxInner)
  {
    inner', oversized' := inner, oversized;
    if !oversized' {
      inner' := inner' + more;
      if |inner'| > maxInner { oversized', inner' := true, []; }
    }
  }

  function Grown(inner: seq<byte>, oversized: bool, more: seq<byte>, maxInner: int): (seq<byte>, bool) {
    if oversized then (inner, true)
    else if |inner + more| > maxInner then ([], true)
    else (inner + more, false)
  }

  lemma LastCarried(d: seq<byte>, p: nat, buf: seq<byte>, carry: seq<byte>)
    requires Stretch(d, p, buf) && |carry| <= 1 && |carry| <= |buf| && carry == buf[|buf| - |carry|..]
    ensures Carried(d, p + |buf| - |carry|, p + |buf|, carry)
  {
  }

  lemma {:induction false} NoOpening(d: seq<byte>, p: nat, buf: seq<byte>, i: nat, carry: seq<byte>, maxInner: int, out: seq<seq<byte>>)
    requires Stretch(d, p, buf) && i < |buf|
    requires Find(buf, OPEN, i) < 0 && carry == if buf[|buf| - 1] == OPEN then [OPEN] else []
    ensures Scan(d, p + i, maxInner, out) == Scan(d, p + |buf| - |carry|, maxInner, out)
    ensures Carried(d, p + |buf| - |carry|, p + |buf|, carry)
  {
    var at := p + |buf| - |carry|;
    NoPairsTo(d, p, buf, i, at);
    FindSkips(d, OPEN, p + i, at);
    LastCarried(d, p, buf, carry);
  }

  lemma NoPairsTo(d: seq<byte>, p: nat, buf: seq<byte>, i: nat, at: nat)
    requires Stretch(d, p, buf) && i < |buf| && Find(buf, OPEN, i) < 0
    requires at == p + |buf| - if buf[|buf| - 1] == OPEN then 1 else 0
    ensures p + i <= at && NoPairs(d, OPEN, p + i, at)
  {
    FindInStretch(d, p, buf, OPEN, i);
    assert buf[|buf| - 1] == d[p + |buf| - 1];
  }

  lemma {:induction false} Opening(d: seq<byte>, p: nat, buf: seq<byte>, i: nat, maxInner: int, out: seq<seq<byte>>)
    requires Stretch(d, p, buf) && i < |buf| && Find(buf, OPEN, i) >= 0
    ensures Scan(d, p + i, maxInner, out) == ScanInside(d, p + Find(buf, OPEN, i) + 2, maxInner, out)
  {
    FindInStretch(d, p, buf, OPEN, i);
  }

  /** The payload grows by what the buffer has of it. */
  lemma {:induction false} Longer(d: seq<byte>, p: nat, buf: seq<byte>, i: nat, stop: nat, from: nat, r: Reader, maxInner: int)
    requires Stretch(d, p, buf) && i < |buf| && r.inside && Standing(d, p + i, r, from, maxInner)
    requires var end := Find(buf, CLOSE, i);
      stop == if end >= 0 then end else if buf[|buf| - 1] == CLOSE then |buf| - 1 else |buf|
    ensures i <= stop <= |buf|
    ensures var (inner', oversized') := Grown(r.inner, r.oversized, buf[i..stop], maxInner);
            Standing(d, p + stop, Reader(true, inner', oversized', r.out), from, maxInner)
  {
    FindInStretch(d, p, buf, CLOSE, i);
    FindIsFirst(d, CLOSE, p + i);
    StretchOfStretch(d, p, |buf|, i, stop);
    Glued(d, from, p + i, p + stop);
  }

  lemma Glued(d: seq<byte>, a: nat, b: nat, c: nat)
    requires a <= b <= c <= |d|
    ensures d[a..b] + d[b..c] == d[a..c]
  {
  }

  lemma StretchOfStretch(d: seq<byte>, p: nat, n: nat, i: nat, j: nat)
    requires i <= j <= n && p + n <= |d|
    ensures d[p..p + n][i..j] == d[p + i..p + j]
  {
    var a, b := d[p..p + n][i..j], d[p + i..p + j];
    forall k | 0 <= k < |a| ensures a[k] == b[k] {}
  }

  lemma {:induction false} Closing(d: seq<byte>, p: nat, buf: seq<byte>, i: nat, from: nat, r: Reader, maxInner: int)
    requires Stretch(d, p, buf) && i < |buf| && from <= p + i && Find(buf, CLOSE, i) >= 0
    requires r.inside && Standing(d, p + Find(buf, CLOSE, i), r, from, maxInner)
    ensures var end := Find(buf, CLOSE, i);
      ScanInside(d, from, maxInner, r.out) ==
        Scan(d, p + end + 2, maxInner, Closed(r).out)
  {
    FindInStretch(d, p, buf, CLOSE, i);
    FindSkips(d, CLOSE, from, p + i);
  }

  lemma {:induction false} ClosedReading(d: seq<byte>, p: nat, buf: seq<byte>, i: nat, from: nat, r: Reader, maxInner: int, all: seq<seq<byte>>)
    requires Stretch(d, p, buf) && i < |buf| && from <= p + i && Find(buf, CLOSE, i) >= 0
    requires r.inside && Standing(d, p + Find(buf, CLOSE, i), r, from, maxInner) && ScanInside(d, from, maxInner, r.out) == all
    ensures Reading(d, p + Find(buf, CLOSE, i) + 2, Closed(r), from, maxInner, all)
  {
    Closing(d, p, buf, i, from, r, maxInner);
  }

  lemma {:induction false} AtTheEnd(d: seq<byte>, at: nat, r: Reader, from: nat, maxInner: int)
    requires Standing(d, at, r, from, maxInner) && |d| - 1 <= at
    ensures Ending(d, at, r, from, maxInner) == r.out
  {
    FindIsFirst(d, OPEN, at);
    if r.inside { FindIsFirst(d, CLOSE, from); }
  }
}
