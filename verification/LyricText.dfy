/** Lyric text: Unicode characters, their UTF-8 bytes, trimming, and the cues left of spans after a trim. */
module LyricText {
  import opened Common
  import opened LyricsModel

  // ----- UTF-8

  function Encode(c: char): (r: Bytes)
    ensures 1 <= |r| <= 4
  {
    var n := c as int;
    if n < 0x80 then [n as byte]
    else if n < 0x800 then [(0xC0 + n / 64) as byte, (0x80 + n % 64) as byte]
    else if n < 0x10000 then [(0xE0 + n / 4096) as byte, (0x80 + n / 64 % 64) as byte, (0x80 + n % 64) as byte]
    else
      [(0xF0 + n / 262144) as byte, (0x80 + n / 4096 % 64) as byte, (0x80 + n / 64 % 64) as byte,
       (0x80 + n % 64) as byte]
  }

  function Utf8(s: string): Bytes {
    if s == [] then [] else Utf8(s[..|s| - 1]) + Encode(s[|s| - 1])
  }

  lemma EmptyText()
    ensures Utf8([]) == []
  {}

  lemma WordHasBytes(w: string)
    requires w != ""
    ensures |Utf8(w)| > 0
  {}

  lemma {:induction false} Utf8Append(a: string, b: string)
    ensures Utf8(a + b) == Utf8(a) + Utf8(b)
  {
    if b == [] {
      assert a + b == a;
    } else {
      var n := |b| - 1;
      assert (a + b)[..|a + b| - 1] == a + b[..n];
      Utf8Append(a, b[..n]);
    }
  }

  /** The low six bits of a continuation byte. */
  function Tail(b: Bytes, i: nat): int { if i < |b| then b[i] as int % 64 else 0 }

  /** The code point at the front of a text and the bytes it takes, read as section 3 of RFC 3629 lays them out. */
  function FirstCode(b: Bytes): (r: (int, nat))
    requires b != []
    ensures r.1 >= 1
  {
    var b0 := b[0] as int;
    if b0 < 128 then (b0, 1)
    else if b0 < 224 then (b0 % 32 * 64 + Tail(b, 1), 2)
    else if b0 < 240 then (b0 % 16 * 4096 + Tail(b, 1) * 64 + Tail(b, 2), 3)
    else (b0 % 8 * 262144 + Tail(b, 1) * 4096 + Tail(b, 2) * 64 + Tail(b, 3), 4)
  }

  function Decode(b: Bytes): seq<int>
    decreases |b|
  {
    if b == [] then []
    else
      var first := FirstCode(b);
      [first.0] + if first.1 <= |b| then Decode(b[first.1..]) else []
  }

  lemma TwoBytes(n: int, b0: int, b1: int)
    requires 0x80 <= n < 0x800 && b0 == 0xC0 + n / 64 && b1 == 0x80 + n % 64
    ensures 128 <= b0 < 224 && b0 % 32 * 64 + b1 % 64 == n
  {}

  lemma ThreeBytes(n: int, b0: int, b1: int, b2: int)
    requires 0x800 <= n < 0x10000 && b0 == 0xE0 + n / 4096 && b1 == 0x80 + n / 64 % 64 && b2 == 0x80 + n % 64
    ensures 224 <= b0 < 240 && b0 % 16 * 4096 + b1 % 64 * 64 + b2 % 64 == n
  {
    var m := n / 64;
    assert n == m * 64 + n % 64 && m / 64 == n / 4096;
  }

  lemma FourBytes(n: int, b0: int, b1: int, b2: int, b3: int)
    requires 0x10000 <= n < 0x110000 && b0 == 0xF0 + n / 262144 && b1 == 0x80 + n / 4096 % 64
    requires b2 == 0x80 + n / 64 % 64 && b3 == 0x80 + n % 64
    ensures 240 <= b0 && b0 % 8 * 262144 + b1 % 64 * 4096 + b2 % 64 * 64 + b3 % 64 == n
  {
    var m, k := n / 64, n / 4096;
    ThreeDigits(n, m, k);
    assert k / 64 == n / 262144 && k == k / 64 * 64 + k % 64;
    assert b0 % 8 == k / 64;
  }

  lemma ThreeDigits(n: nat, m: nat, k: nat)
    requires m == n / 64 && k == n / 4096
    ensures n == k * 4096 + m % 64 * 64 + n % 64
  {
    assert m / 64 == k;
  }

  lemma FirstCodeOf(c: char, rest: Bytes)
    ensures FirstCode(Encode(c) + rest) == (c as int, |Encode(c)|)
  {
    var n, e := c as int, Encode(c);
    var b := e + rest;
    assert forall i :: 0 <= i < |e| ==> b[i] == e[i];
    if n < 0x80 {
    } else if n < 0x800 {
      TwoBytes(n, b[0] as int, b[1] as int);
    } else if n < 0x10000 {
      ThreeBytes(n, b[0] as int, b[1] as int, b[2] as int);
    } else {
      FourBytes(n, b[0] as int, b[1] as int, b[2] as int, b[3] as int);
    }
  }

  lemma FrontBytes(s: string)
    requires s != []
    ensures Utf8(s) == Encode(s[0]) + Utf8(s[1..])
  {
    hide Utf8;
    assert s == [s[0]] + s[1..];
    Utf8Append([s[0]], s[1..]);
    OneChar(s[0]);
  }

  lemma OneChar(c: char)
    ensures Utf8([c]) == Encode(c)
  {
    hide Encode;
    EmptyText();
    assert [c][..0] == [];
    assert Utf8([c]) == Utf8([]) + Encode(c);
  }

  /** The bytes spell the text: decoding them gives back its characters, one by one. */
  lemma {:induction false} DecodeUtf8(s: string)
    ensures |Decode(Utf8(s))| == |s| && forall i :: 0 <= i < |s| ==> Decode(Utf8(s))[i] == s[i] as int
    decreases |s|
  {
    EmptyText();
    hide Utf8;
    hide Encode;
    hide FirstCode;
    if s != [] {
      FrontBytes(s);
      DecodeUtf8(s[1..]);
      FirstCodeOf(s[0], Utf8(s[1..]));
      var b, size := Utf8(s), |Encode(s[0])|;
      assert b[size..] == Utf8(s[1..]);
      assert Decode(b) == [s[0] as int] + Decode(b[size..]);
    }
  }

  // ----- trimming

  predicate IsSpace(c: char) {
    c in {'\t', '\n', '\U{b}', '\U{c}', '\r', ' ', '\U{85}', '\U{a0}', '\U{1680}', '\U{2028}', '\U{2029}', '\U{202f}',
          '\U{205f}', '\U{3000}'} || '\U{2000}' <= c <= '\U{200a}'
  }

  function TrimLeft(s: string): string {
    if s != [] && IsSpace(s[0]) then TrimLeft(s[1..]) else s
  }

  function TrimRight(s: string): string {
    if s != [] && IsSpace(s[|s| - 1]) then TrimRight(s[..|s| - 1]) else s
  }

  function TrimSpace(s: string): string { TrimRight(TrimLeft(s)) }

  lemma {:induction false} TrimLeftSuffix(s: string) returns (l: nat)
    ensures l <= |s| && TrimLeft(s) == s[l..]
    ensures forall i :: 0 <= i < l ==> IsSpace(s[i])
    ensures l < |s| ==> !IsSpace(s[l])
  {
    l := 0;
    if s != [] && IsSpace(s[0]) {
      var k := TrimLeftSuffix(s[1..]);
      l := k + 1;
    }
  }

  lemma {:induction false} TrimRightPrefix(s: string) returns (m: nat)
    ensures m <= |s| && TrimRight(s) == s[..m]
    ensures forall i :: m <= i < |s| ==> IsSpace(s[i])
    ensures m > 0 ==> !IsSpace(s[m - 1])
  {
    m := |s|;
    if s != [] && IsSpace(s[|s| - 1]) {
      m := TrimRightPrefix(s[..|s| - 1]);
    }
  }

  /** The bytes a left trim and a right trim take off, and where the trimmed text ends. */
  function LeftBytes(s: string): int { |Utf8(s)| - |Utf8(TrimLeft(s))| }

  function TrimmedEnd(s: string): int { Max(|Utf8(TrimRight(s))|, LeftBytes(s)) }

  lemma {:induction false} TrimRightAfter(s: string, l: nat, m: nat)
    requires l <= m <= |s| && (l == m || !IsSpace(s[m - 1]))
    requires forall i :: m <= i < |s| ==> IsSpace(s[i])
    ensures l < m ==> TrimRight(s[l..]) == s[l..m]
    ensures l == m ==> TrimRight(s[l..]) == []
    decreases |s| - m
  {
    if m < |s| {
      var t := s[..|s| - 1];
      TrimRightAfter(t, l, m);
      assert s[l..][..|s| - l - 1] == t[l..];
      assert t[l..m] == s[l..m];
    }
  }

  lemma NothingToTrim()
    ensures Utf8([]) == [] && TrimRight([]) == []
  {}

  /** Trimmed text is the bytes between the two cuts. */
  lemma TrimCut(s: string)
    ensures 0 <= LeftBytes(s) <= TrimmedEnd(s) <= |Utf8(s)|
    ensures Utf8(TrimSpace(s)) == Utf8(s)[LeftBytes(s)..TrimmedEnd(s)]
  {
    NothingToTrim();
    hide Utf8;
    hide IsSpace;
    hide TrimLeft;
    hide TrimRight;
    var l := TrimLeftSuffix(s);
    var m := TrimRightPrefix(s);
    LeftCut(s, l);
    if l == |s| {
      assert m == 0 && s[..m] == [] && s[..l] == s && s[l..] == [];
    } else {
      assert l < m;
      TrimRightAfter(s, l, m);
      MiddleBytes(s, l, m);
    }
  }

  lemma LeftCut(s: string, l: nat)
    requires l <= |s| && TrimLeft(s) == s[l..]
    ensures LeftBytes(s) == |Utf8(s[..l])|
  {
    hide Utf8;
    SplitBytes(s, l);
  }

  lemma MiddleBytes(s: string, l: nat, m: nat)
    requires l <= m <= |s|
    ensures |Utf8(s[..l])| <= |Utf8(s[..m])| <= |Utf8(s)|
    ensures Utf8(s[l..m]) == Utf8(s)[|Utf8(s[..l])|..|Utf8(s[..m])|]
  {
    hide Utf8;
    SplitBytes(s, m);
    SplitBytes(s[..m], l);
    assert s[..m][..l] == s[..l] && s[..m][l..] == s[l..m];
  }

  lemma SplitBytes(s: string, k: nat)
    requires k <= |s|
    ensures Utf8(s) == Utf8(s[..k]) + Utf8(s[k..])
  {
    hide Utf8;
    Utf8Append(s[..k], s[k..]);
    assert s == s[..k] + s[k..];
  }

  lemma PrefixBytes(s: string, a: nat, b: nat)
    requires a <= b <= |s|
    ensures |Utf8(s[..a])| <= |Utf8(s[..b])|
    ensures a < b ==> |Utf8(s[..a])| < |Utf8(s[..b])|
  {
    SplitBytes(s[..b], a);
    assert s[..b][..a] == s[..a];
    if a < b { WordHasBytes(s[..b][a..]); }
  }

  /** A character that is no white space lies between the cuts. */
  lemma TrimKeeps(s: string, p: nat)
    requires p < |s| && !IsSpace(s[p])
    ensures LeftBytes(s) <= |Utf8(s[..p])| < |Utf8(s[..p + 1])| <= TrimmedEnd(s)
  {
    hide Utf8;
    hide IsSpace;
    hide TrimLeft;
    hide TrimRight;
    var l := TrimLeftSuffix(s);
    var m := TrimRightPrefix(s);
    SplitBytes(s, l);
    PrefixBytes(s, l, p);
    PrefixBytes(s, p, p + 1);
    PrefixBytes(s, p + 1, m);
  }

  // ----- cues of a trimmed line

  /** A stretch of the untrimmed line, with the timing and agent its cue will have. */
  datatype Span = Span(from: nat, to: nat, info: Cue)

  /** What is left of a span between the cuts, if anything is. */
  function ClipOne(raw: Bytes, left: nat, end: nat, span: Span): seq<Cue>
    requires left <= end <= |raw|
  {
    var bs, be := Max(span.from, left), Min(span.to, end);
    if bs < be then [span.info.(value := raw[bs..be], byteStart := bs - left, byteEnd := be - left - 1)] else []
  }

  function Clipped(raw: Bytes, left: nat, end: nat, spans: seq<Span>): seq<Cue>
    requires left <= end <= |raw|
  {
    if spans == [] then []
    else Clipped(raw, left, end, spans[..|spans| - 1]) + ClipOne(raw, left, end, spans[|spans| - 1])
  }

  lemma ClippedSnoc(raw: Bytes, left: nat, end: nat, spans: seq<Span>, span: Span)
    requires left <= end <= |raw|
    ensures Clipped(raw, left, end, spans + [span]) == Clipped(raw, left, end, spans) + ClipOne(raw, left, end, span)
  {
    hide ClipOne;
    assert (spans + [span])[..|spans|] == spans;
  }

  lemma ClipOneCut(raw: Bytes, left: nat, end: nat, span: Span)
    requires left <= end <= |raw|
    ensures AllCut(raw[left..end], ClipOne(raw, left, end, span))
  {
    var bs, be := Max(span.from, left), Min(span.to, end);
    if bs < be {
      SliceOfSlice(raw, left, end, bs - left, be - left);
    }
  }

  /** Every cue cuts exactly its value out of the trimmed line. */
  lemma {:induction false} ClippedCut(raw: Bytes, left: nat, end: nat, spans: seq<Span>)
    requires left <= end <= |raw|
    ensures AllCut(raw[left..end], Clipped(raw, left, end, spans))
  {
    hide ClipOne;
    hide Cuts;
    if spans != [] {
      ClippedCut(raw, left, end, spans[..|spans| - 1]);
      ClipOneCut(raw, left, end, spans[|spans| - 1]);
    }
  }

  /** The part of the span between the cuts, with the span's own times and agent. */
  ghost predicate ClipOf(raw: Bytes, left: nat, end: nat, span: Span, c: Cue) {
    var bs, be := if span.from < left then left else span.from, if span.to > end then end else span.to;
    && left <= bs < be <= |raw|
    && c.start == span.info.start && c.end == span.info.end && c.agent == span.info.agent
    && c.value == raw[bs..be] && c.byteStart == bs - left && c.byteEnd == be - left - 1
  }

  /** The span has bytes between the cuts. */
  predicate Remains(left: nat, end: nat, span: Span) {
    span.from < span.to && span.from < end && left < span.to && left < end
  }

  lemma ClipOneMeans(raw: Bytes, left: nat, end: nat, span: Span)
    requires left <= end <= |raw|
    ensures var own := ClipOne(raw, left, end, span);
            && (own != [] <==> Remains(left, end, span))
            && (own != [] ==> |own| == 1 && ClipOf(raw, left, end, span, own[0]))
  {}

  /** The spans follow one another from 0 to `upTo`. */
  ghost predicate Contiguous(spans: seq<Span>, upTo: nat) {
    if spans == [] then upTo == 0
    else
      var n := |spans| - 1;
      spans[n].to == upTo && spans[n].from < upTo && Contiguous(spans[..n], spans[n].from)
  }

  /** The cues follow one another, without gap or overlap, from byte 0 to byte `upTo`. */
  ghost predicate Tiles(cues: seq<Cue>, upTo: int) {
    if cues == [] then upTo == 0
    else
      var n := |cues| - 1;
      cues[n].byteEnd + 1 == upTo && 0 <= cues[n].byteStart <= cues[n].byteEnd && Tiles(cues[..n], cues[n].byteStart)
  }

  lemma TilesSnoc(cues: seq<Cue>, c: Cue)
    requires Tiles(cues, c.byteStart) && 0 <= c.byteStart <= c.byteEnd
    ensures Tiles(cues + [c], c.byteEnd + 1)
  {
    var all := cues + [c];
    assert all[..|all| - 1] == cues;
  }

  lemma ClipOneTiles(raw: Bytes, left: nat, end: nat, span: Span, cues: seq<Cue>)
    requires left <= end <= |raw| && span.from < span.to && Tiles(cues, Max(0, Min(span.from, end) - left))
    ensures Tiles(cues + ClipOne(raw, left, end, span), Max(0, Min(span.to, end) - left))
  {
    var bs, be := Max(span.from, left), Min(span.to, end);
    if bs < be {
      assert Max(0, Min(span.from, end) - left) == bs - left;
      TilesSnoc(cues, ClipOne(raw, left, end, span)[0]);
    } else {
      assert cues + [] == cues;
      assert Max(0, Min(span.from, end) - left) == Max(0, Min(span.to, end) - left);
    }
  }

  /** The cues of contiguous spans tile the trimmed line. */
  lemma {:induction false} ClippedTiles(raw: Bytes, left: nat, end: nat, spans: seq<Span>, upTo: nat)
    requires left <= end <= |raw| && Contiguous(spans, upTo)
    ensures Tiles(Clipped(raw, left, end, spans), Max(0, Min(upTo, end) - left))
  {
    hide ClipOne;
    hide Tiles;
    if spans == [] {
      NoTiles();
    } else {
      var n := |spans| - 1;
      ClippedTiles(raw, left, end, spans[..n], spans[n].from);
      ClipOneTiles(raw, left, end, spans[n], Clipped(raw, left, end, spans[..n]));
    }
  }

  lemma NoTiles()
    ensures Tiles([], 0)
  {}

  /** `v` is the parts with the byte `sep` between neighbours. */
  ghost predicate JoinedBy(v: Bytes, parts: seq<Bytes>, sep: byte)
    decreases |parts|
  {
    if parts == [] then v == []
    else if |parts| == 1 then v == parts[0]
    else parts[0] + [sep] <= v && JoinedBy(v[|parts[0]| + 1..], parts[1..], sep)
  }

  lemma {:induction false} JoinedBySnoc(v: Bytes, parts: seq<Bytes>, sep: byte, x: Bytes)
    requires JoinedBy(v, parts, sep)
    ensures JoinedBy(if parts == [] then x else v + [sep] + x, parts + [x], sep)
    decreases |parts|
  {
    var all := parts + [x];
    if parts == [] {
      assert all == [x];
    } else if |parts| == 1 {
      var w := v + [sep] + x;
      assert all[0] == v && all[1..] == [x] && w[|v| + 1..] == x && v + [sep] <= w;
    } else {
      var w, head := v + [sep] + x, parts[0] + [sep];
      assert all[0] == parts[0] && all[1..] == parts[1..] + [x];
      JoinedBySnoc(v[|head|..], parts[1..], sep, x);
      assert w[|head|..] == v[|head|..] + [sep] + x && head <= w;
    }
  }

  /** A cue but for its place. */
  function Unplaced(c: Cue): Cue { c.(byteStart := 0, byteEnd := 0) }

  function UnplacedAll(cues: seq<Cue>): (r: seq<Cue>)
    ensures |r| == |cues| && forall i :: 0 <= i < |cues| ==> r[i] == Unplaced(cues[i])
  {
    seq(|cues|, i requires 0 <= i < |cues| => Unplaced(cues[i]))
  }

  lemma UnplacedAppend(a: seq<Cue>, b: seq<Cue>)
    ensures UnplacedAll(a + b) == UnplacedAll(a) + UnplacedAll(b)
  {}

  function Values(cues: seq<Cue>): Bytes {
    if cues == [] then [] else Values(cues[..|cues| - 1]) + cues[|cues| - 1].value
  }

  /** The values of cues that tile a line put the line back together. */
  lemma {:induction false} TilesRebuild(line: Bytes, cues: seq<Cue>, upTo: nat)
    requires upTo <= |line| && AllCut(line, cues) && Tiles(cues, upTo)
    ensures Values(cues) == line[..upTo]
  {
    if cues != [] {
      var n := |cues| - 1;
      assert cues[n] in cues;
      TilesRebuild(line, cues[..n], cues[n].byteStart);
      assert line[..upTo] == line[..cues[n].byteStart] + line[cues[n].byteStart..upTo];
    }
  }
}
