/**
 Enhanced LRC lines: the text after each inline time marker becomes a cue, and background lines are
 appended to the main one as a second layer of cues.
 */
module EnhancedLrc {
  import opened Common
  import opened LyricsModel
  import opened LyricText

  /** A time marker and the text up to the next one; `time` is None when the marker does not parse. */
  datatype Marker = Marker(time: Option<int>, word: string)

  /** A line: the text before its first marker, then its markers. */
  datatype Marked = Marked(prefix: string, markers: seq<Marker>)

  predicate Voiced(m: Marker) { m.time.Some? && m.word != "" }

  /** The text the cues are cut from: the words of the markers that parse. */
  function Spoken(ms: seq<Marker>): string {
    if ms == [] then []
    else Spoken(ms[..|ms| - 1]) + if Voiced(ms[|ms| - 1]) then ms[|ms| - 1].word else []
  }

  function StartingAt(time: int): Cue { Cue(Some(time), None, [], 0, 0, Unattributed) }

  function Segments(ms: seq<Marker>): seq<Span> {
    if ms == [] then []
    else
      var n := |ms| - 1;
      var from := |Utf8(Spoken(ms[..n]))|;
      Segments(ms[..n]) +
      if Voiced(ms[n]) then [Span(from, from + |Utf8(ms[n].word)|, StartingAt(ms[n].time.value))] else []
  }

  /** The line without its markers. */
  function Plain(line: Marked): string { line.prefix + Words(line.markers) }

  function Words(ms: seq<Marker>): string {
    if ms == [] then [] else Words(ms[..|ms| - 1]) + ms[|ms| - 1].word
  }

  /** A last marker with nothing after it ends the last cue. */
  function TrailingEnd(ms: seq<Marker>): Option<int> {
    if ms != [] && ms[|ms| - 1].word == "" then ms[|ms| - 1].time else None
  }

  function WithEnd(cues: seq<Cue>, end: Option<int>): seq<Cue> {
    if end.Some? && cues != [] then cues[|cues| - 1 := cues[|cues| - 1].(end := end)] else cues
  }

  function LineCues(ms: seq<Marker>): seq<Cue> {
    var s := Spoken(ms);
    TrimCut(s);
    WithEnd(Clipped(Utf8(s), LeftBytes(s), TrimmedEnd(s), Segments(ms)), TrailingEnd(ms))
  }

  lemma {:induction false} SegmentsContiguous(ms: seq<Marker>)
    ensures Contiguous(Segments(ms), |Utf8(Spoken(ms))|)
  {
    EmptyText();
    hide Utf8;
    if ms != [] {
      var n := |ms| - 1;
      SegmentsContiguous(ms[..n]);
      if Voiced(ms[n]) {
        Utf8Append(Spoken(ms[..n]), ms[n].word);
        WordHasBytes(ms[n].word);
        var all := Segments(ms);
        assert all[..|all| - 1] == Segments(ms[..n]);
      } else {
        assert Spoken(ms) == Spoken(ms[..n]) && Segments(ms) == Segments(ms[..n]);
      }
    }
  }

  lemma WithEndKeeps(line: Bytes, cues: seq<Cue>, end: Option<int>, upTo: int)
    requires AllCut(line, cues) && Tiles(cues, upTo)
    ensures AllCut(line, WithEnd(cues, end)) && Tiles(WithEnd(cues, end), upTo)
  {
    if end.Some? && cues != [] {
      var n := |cues| - 1;
      var r := WithEnd(cues, end);
      assert r[..n] == cues[..n];
      forall c | c in r ensures Cuts(line, c) {
        assert cues[n] in cues;
        if c != r[n] { assert c in cues; }
      }
    }
  }

  /** Every cue cuts exactly its value out of the line; the cues tile it in order with no gap, so they spell it. */
  lemma LineCuesTile(ms: seq<Marker>)
    ensures AllCut(Utf8(TrimSpace(Spoken(ms))), LineCues(ms))
    ensures Tiles(LineCues(ms), |Utf8(TrimSpace(Spoken(ms)))|)
    ensures Values(LineCues(ms)) == Utf8(TrimSpace(Spoken(ms)))
  {
    hide Utf8;
    var s := Spoken(ms);
    TrimCut(s);
    var raw, left, end := Utf8(s), LeftBytes(s), TrimmedEnd(s);
    var cues := Clipped(raw, left, end, Segments(ms));
    ClippedCut(raw, left, end, Segments(ms));
    SegmentsContiguous(ms);
    ClippedTiles(raw, left, end, Segments(ms), |raw|);
    var line := Utf8(TrimSpace(s));
    WithEndKeeps(line, cues, TrailingEnd(ms), |line|);
    TilesRebuild(line, LineCues(ms), |line|);
    assert line[..|line|] == line;
  }

  // ----- the texts in plain words

  function WordsOf(ms: seq<Marker>): (r: seq<string>)
    ensures |r| == |ms| && forall i :: 0 <= i < |ms| ==> r[i] == ms[i].word
  {
    seq(|ms|, i requires 0 <= i < |ms| => ms[i].word)
  }

  lemma WordsOfSnoc(ms: seq<Marker>, m: Marker)
    ensures WordsOf(ms + [m]) == WordsOf(ms) + [m.word]
  {}

  /** The spoken text is the words of the markers that have a time and a word, one after the other. */
  lemma {:induction false} SpokenMeans(ms: seq<Marker>)
    ensures Spoken(ms) == Concat(WordsOf(Filter(ms, (m: Marker) => m.time.Some? && m.word != "")))
  {
    var voiced := (m: Marker) => m.time.Some? && m.word != "";
    if ms != [] {
      var n := |ms| - 1;
      SpokenMeans(ms[..n]);
      assert ms == ms[..n] + [ms[n]];
      FilterSnoc(ms[..n], voiced, ms[n]);
      var rest := Filter(ms[..n], voiced);
      if voiced(ms[n]) {
        WordsOfSnoc(rest, ms[n]);
        ConcatSnoc(WordsOf(rest), ms[n].word);
      } else {
        assert rest + [] == rest;
      }
    }
  }

  /** The line without its markers is what stands before them and then every word. */
  lemma {:induction false} WordsMean(ms: seq<Marker>)
    ensures Words(ms) == Concat(WordsOf(ms))
  {
    if ms != [] {
      var n := |ms| - 1;
      WordsMean(ms[..n]);
      assert ms == ms[..n] + [ms[n]];
      WordsOfSnoc(ms[..n], ms[n]);
      ConcatSnoc(WordsOf(ms[..n]), ms[n].word);
    }
  }

  /** No marker has both a time and a word. */
  ghost predicate Unspoken(ms: seq<Marker>) { forall i :: 0 <= i < |ms| ==> ms[i].time.None? || ms[i].word == "" }

  lemma {:induction false} UnspokenMeans(ms: seq<Marker>)
    ensures Segments(ms) == [] <==> Unspoken(ms)
  {
    hide Utf8;
    if ms != [] {
      var n := |ms| - 1;
      UnspokenMeans(ms[..n]);
      assert Unspoken(ms) <==> Unspoken(ms[..n]) && (ms[n].time.None? || ms[n].word == "");
    }
  }

  /** A line without spoken words is its plain text; any other is what is spoken. */
  lemma ValueMeans(line: Marked)
    ensures Value(line) ==
            Utf8(TrimSpace(if Unspoken(line.markers) then line.prefix + Concat(WordsOf(line.markers))
                           else Concat(WordsOf(Filter(line.markers, (m: Marker) => m.time.Some? && m.word != "")))))
  {
    hide Utf8;
    hide TrimSpace;
    hide Segments;
    hide Spoken;
    hide Words;
    UnspokenMeans(line.markers);
    WordsMean(line.markers);
    SpokenMeans(line.markers);
  }

  // ----- which marker a cue comes from

  /** Where the marker's word is in the untrimmed line. */
  ghost function SpanOf(ms: seq<Marker>, i: nat): Span
    requires i < |ms| && Voiced(ms[i])
  {
    var from := |Utf8(Spoken(ms[..i]))|;
    Span(from, from + |Utf8(ms[i].word)|, StartingAt(ms[i].time.value))
  }

  ghost predicate Shown(ms: seq<Marker>, left: nat, end: nat, i: int) {
    0 <= i < |ms| && Voiced(ms[i]) && Remains(left, end, SpanOf(ms, i))
  }

  /** The markers whose words are not trimmed away. */
  ghost function ShownMarkers(ms: seq<Marker>, left: nat, end: nat, n: nat): seq<int> {
    Indexes(n, i => Shown(ms, left, end, i))
  }

  lemma SegmentsNext(ms: seq<Marker>, n: nat)
    requires n < |ms|
    ensures Segments(ms[..n + 1]) == Segments(ms[..n]) + if Voiced(ms[n]) then [SpanOf(ms, n)] else []
  {
    hide Utf8;
    assert ms[..n + 1][..n] == ms[..n];
  }

  /** Each cue starts at the time of its marker, and has no end yet. */
  ghost predicate TimedBy(ms: seq<Marker>, cues: seq<Cue>, idx: seq<int>) {
    && |cues| == |idx|
    && forall k :: 0 <= k < |idx| ==>
         && 0 <= idx[k] < |ms| && ms[idx[k]].time.Some? && ms[idx[k]].word != ""
         && cues[k].start == ms[idx[k]].time && cues[k].end == None && cues[k].agent == Unattributed
  }

  lemma TimedSnoc(ms: seq<Marker>, cues: seq<Cue>, idx: seq<int>, c: Cue, n: nat)
    requires TimedBy(ms, cues, idx) && n < |ms| && ms[n].time.Some? && ms[n].word != ""
    requires c.start == ms[n].time && c.end == None && c.agent == Unattributed
    ensures TimedBy(ms, cues + [c], idx + [n])
  {}

  lemma ShownNext(ms: seq<Marker>, left: nat, end: nat, n: nat)
    ensures ShownMarkers(ms, left, end, 0) == []
    ensures ShownMarkers(ms, left, end, n + 1) ==
            ShownMarkers(ms, left, end, n) + if Shown(ms, left, end, n) then [n] else []
  {
    hide Shown;
    var p := i => Shown(ms, left, end, i);
    assert Indexes(n + 1, p) == Indexes(n, p) + if p(n) then [n] else [];
  }

  lemma {:induction false} ClippedTimes(raw: Bytes, left: nat, end: nat, ms: seq<Marker>, n: nat)
    requires left <= end <= |raw| && n <= |ms|
    ensures TimedBy(ms, Clipped(raw, left, end, Segments(ms[..n])), ShownMarkers(ms, left, end, n))
  {
    hide ClipOne;
    hide SpanOf;
    hide ShownMarkers;
    hide Utf8;
    ShownNext(ms, left, end, if n == 0 then 0 else n - 1);
    if n > 0 {
      hide TimedBy;
      var m := n - 1;
      ClippedTimes(raw, left, end, ms, m);
      SegmentsNext(ms, m);
      var spans, idx := Segments(ms[..m]), ShownMarkers(ms, left, end, m);
      var cues := Clipped(raw, left, end, spans);
      hide Segments;
      if Voiced(ms[m]) {
        ClippedSnoc(raw, left, end, spans, SpanOf(ms, m));
        ClipOneMeans(raw, left, end, SpanOf(ms, m));
        hide Clipped;
        SpanTimes(ms, m);
        var own := ClipOne(raw, left, end, SpanOf(ms, m));
        if own == [] {
          assert cues + own == cues && idx + [] == idx;
        } else {
          assert own == [own[0]];
          TimedSnoc(ms, cues, idx, own[0], m);
        }
      } else {
        assert spans + [] == spans && idx + [] == idx;
      }
    }
  }

  lemma SpanTimes(ms: seq<Marker>, i: nat)
    requires i < |ms| && Voiced(ms[i])
    ensures SpanOf(ms, i).info.start == ms[i].time && SpanOf(ms, i).info.end == None
    ensures SpanOf(ms, i).info.agent == Unattributed
  {}

  /** The marker's word has a character that is no white space. */
  ghost predicate Visible(m: Marker) { exists q :: 0 <= q < |m.word| && !IsSpace(m.word[q]) }

  lemma {:induction false} SpokenPlace(ms: seq<Marker>, i: nat)
    requires i < |ms| && Voiced(ms[i])
    ensures Spoken(ms[..i]) + ms[i].word <= Spoken(ms)
    decreases |ms|
  {
    var n := |ms| - 1;
    if i < n {
      SpokenPlace(ms[..n], i);
      assert ms[..n][..i] == ms[..i];
    }
  }

  lemma WordPlace(ms: seq<Marker>, i: nat) returns (c0: nat)
    requires i < |ms| && Voiced(ms[i])
    ensures c0 + |ms[i].word| <= |Spoken(ms)|
    ensures |Utf8(Spoken(ms)[..c0])| == SpanOf(ms, i).from
    ensures |Utf8(Spoken(ms)[..c0 + |ms[i].word|])| == SpanOf(ms, i).to
    ensures forall q :: 0 <= q < |ms[i].word| ==> Spoken(ms)[c0 + q] == ms[i].word[q]
  {
    hide Utf8;
    var s, before := Spoken(ms), Spoken(ms[..i]);
    c0 := |before|;
    SpokenPlace(ms, i);
    assert s[..c0] == before && s[..c0 + |ms[i].word|] == before + ms[i].word;
    Utf8Append(before, ms[i].word);
  }

  /** A word with a visible character is never trimmed away. */
  lemma VisibleIsShown(ms: seq<Marker>, i: nat, left: nat, end: nat)
    requires i < |ms| && Voiced(ms[i]) && Visible(ms[i])
    requires left == LeftBytes(Spoken(ms)) && end == TrimmedEnd(Spoken(ms))
    ensures Shown(ms, left, end, i)
  {
    hide Utf8;
    hide IsSpace;
    hide LeftBytes;
    hide TrimmedEnd;
    hide SpanOf;
    hide Spoken;
    var s := Spoken(ms);
    var c0 := WordPlace(ms, i);
    var q :| 0 <= q < |ms[i].word| && !IsSpace(ms[i].word[q]);
    var p := c0 + q;
    TrimKeeps(s, p);
    PrefixBytes(s, c0, p);
    PrefixBytes(s, p + 1, c0 + |ms[i].word|);
  }

  lemma EndedCue(cues: seq<Cue>, end: Option<int>, k: nat)
    requires k < |cues| && cues[k].end == None
    ensures |WithEnd(cues, end)| == |cues|
    ensures WithEnd(cues, end)[k] == cues[k].(end := if k == |cues| - 1 then end else None)
  {}

  /** The cue of the k-th shown marker: its start is the marker's time, and only the last cue has an end. */
  ghost predicate CueOfMarker(ms: seq<Marker>, idx: seq<int>, k: nat, c: Cue)
    requires k < |idx|
  {
    && 0 <= idx[k] < |ms| && ms[idx[k]].time.Some? && ms[idx[k]].word != ""
    && c.start == ms[idx[k]].time && c.agent == Unattributed
    && c.end == if k == |idx| - 1 && ms[|ms| - 1].word == "" then ms[|ms| - 1].time else None
  }

  /**
   Each cue starts at the time of its marker, in order; every marker with visible text has one. Only the last
   cue has an end: the time of a last marker with nothing after it.
   */
  lemma CueTimes(ms: seq<Marker>) returns (idx: seq<int>)
    ensures |idx| == |LineCues(ms)| && forall k :: 0 <= k < |idx| ==> CueOfMarker(ms, idx, k, LineCues(ms)[k])
    ensures forall j, k :: 0 <= j < k < |idx| ==> idx[j] < idx[k]
    ensures forall i :: 0 <= i < |ms| && ms[i].time.Some? && Visible(ms[i]) ==> i in idx
  {
    hide Utf8;
    hide Spoken;
    hide Segments;
    hide Clipped;
    hide IsSpace;
    hide LeftBytes;
    hide TrimmedEnd;
    var s := Spoken(ms);
    TrimCut(s);
    var raw, left, end := Utf8(s), LeftBytes(s), TrimmedEnd(s);
    ClippedTimes(raw, left, end, ms, |ms|);
    assert ms[..|ms|] == ms;
    var shown := i => Shown(ms, left, end, i);
    idx := Indexes(|ms|, shown);
    assert idx == ShownMarkers(ms, left, end, |ms|);
    var cues := Clipped(raw, left, end, Segments(ms));
    forall k | 0 <= k < |cues| ensures |LineCues(ms)| == |cues| && CueOfMarker(ms, idx, k, LineCues(ms)[k]) {
      EndedCue(cues, TrailingEnd(ms), k);
    }
    if cues == [] { assert LineCues(ms) == []; }
    forall j, k | 0 <= j < k < |idx| ensures idx[j] < idx[k] { IndexesIncrease(|ms|, shown, j, k); }
    forall i | 0 <= i < |ms| && ms[i].time.Some? && Visible(ms[i]) ensures i in idx {
      VisibleIsShown(ms, i, left, end);
      InIndexes(|ms|, shown, i);
    }
  }

  /** The value and cues of a marked line; without any spoken word it is its plain text with no cues. */
  function Value(line: Marked): Bytes {
    Utf8(TrimSpace(if Segments(line.markers) == [] then Plain(line) else Spoken(line.markers)))
  }

  lemma {:induction false} NoSegments(ms: seq<Marker>)
    requires Segments(ms) == []
    ensures Spoken(ms) == []
  {
    if ms != [] {
      NoSegments(ms[..|ms| - 1]);
    }
  }

  method PlainText(line: Marked) returns (text: string)
    ensures text == Plain(line)
  {
    text := line.prefix;
    var ms := line.markers;
    for i := 0 to |ms|
      invariant text == line.prefix + Words(ms[..i])
    {
      assert ms[..i + 1][..i] == ms[..i];
      text := text + ms[i].word;
    }
    assert ms[..|ms|] == ms;
  }

  /** Gathers the segments: a marker that does not parse drops its text, an empty last one gives the trailing end. */
  method Scan(ms: seq<Marker>) returns (raw: string, segments: seq<Span>, trailing: Option<int>)
    ensures raw == Spoken(ms) && segments == Segments(ms) && trailing == TrailingEnd(ms)
  {
    hide Utf8;
    raw, segments, trailing := [], [], None;
    for i := 0 to |ms|
      invariant raw == Spoken(ms[..i]) && segments == Segments(ms[..i])
      invariant trailing == if i == |ms| then TrailingEnd(ms) else None
    {
      assert ms[..i + 1][..i] == ms[..i];
      if ms[i].time.None? { continue; }
      if ms[i].word == "" {
        if i == |ms| - 1 { trailing := ms[i].time; }
        continue;
      }
      Utf8Append(raw, ms[i].word);
      var rawStart := |Utf8(raw)|;
      raw := raw + ms[i].word;
      segments := segments + [Span(rawStart, |Utf8(raw)|, StartingAt(ms[i].time.value))];
    }
    assert ms[..|ms|] == ms;
  }

  method ClipSegments(raw: Bytes, left: nat, end: nat, segments: seq<Span>) returns (cues: seq<Cue>)
    requires left <= end <= |raw|
    ensures cues == Clipped(raw, left, end, segments)
  {
    hide ClipOne;
    cues := [];
    for i := 0 to |segments|
      invariant cues == Clipped(raw, left, end, segments[..i])
    {
      ClippedSnoc(raw, left, end, segments[..i], segments[i]);
      assert segments[..i + 1] == segments[..i] + [segments[i]];
      cues := cues + ClipOne(raw, left, end, segments[i]);
    }
    assert segments[..|segments|] == segments;
  }

  method ParseEnhancedLine(line: Marked) returns (value: Bytes, cues: seq<Cue>)
    ensures value == Value(line) && cues == LineCues(line.markers)
    ensures AllCut(value, cues)
    ensures cues != [] ==> Tiles(cues, |value|) && Values(cues) == value
  {
    hide Utf8;
    EmptyText();
    var ms := line.markers;
    if ms == [] {
      NothingSpoken(ms);
      assert Plain(line) == line.prefix;
      return Utf8(TrimSpace(line.prefix)), [];
    }
    var finalRaw, segments, trailing := Scan(ms);
    if segments == [] {
      NoSegments(ms);
      NothingSpoken(ms);
      var plain := PlainText(line);
      return Utf8(TrimSpace(plain)), [];
    }
    LineCuesTile(ms);
    TrimCut(finalRaw);
    cues := ClipSegments(Utf8(finalRaw), LeftBytes(finalRaw), TrimmedEnd(finalRaw), segments);
    cues := WithEnd(cues, trailing);
    value := Utf8(TrimSpace(finalRaw));
  }

  lemma NothingSpoken(ms: seq<Marker>)
    requires Spoken(ms) == [] && Segments(ms) == []
    ensures LineCues(ms) == []
  {}

  // ----- background layers

  const SPACE: byte := 32

  function Attributed(cues: seq<Cue>, offset: int): (r: seq<Cue>)
    ensures |r| == |cues|
    ensures forall i :: 0 <= i < |cues| ==> r[i] == Shift(cues[i], offset).(agent := Background)
  {
    seq(|cues|, i requires 0 <= i < |cues| => Shift(cues[i], offset).(agent := Background))
  }

  function Gap(value: Bytes): Bytes { if value == [] then [] else [SPACE] }

  /** A line and its cues after the background lines that have cues of their own are appended. */
  function MergedValue(value: Bytes, bgs: seq<Marked>): Bytes {
    if bgs == [] then value
    else
      var n := |bgs| - 1;
      var before := MergedValue(value, bgs[..n]);
      if LineCues(bgs[n].markers) == [] then before else before + Gap(before) + Value(bgs[n])
  }

  function MergedCues(value: Bytes, cues: seq<Cue>, bgs: seq<Marked>): seq<Cue> {
    if bgs == [] then cues
    else
      var n := |bgs| - 1;
      var before := MergedValue(value, bgs[..n]);
      var own := LineCues(bgs[n].markers);
      MergedCues(value, cues, bgs[..n]) + Attributed(own, |before| + |Gap(before)|)
  }

  lemma AttributedCut(left: Bytes, line: Bytes, cues: seq<Cue>)
    requires AllCut(line, cues)
    ensures AllCut(left + line, Attributed(cues, |left|))
  {
    forall c | c in Attributed(cues, |left|) ensures Cuts(left + line, c) {
      var i :| 0 <= i < |cues| && c == Shift(cues[i], |left|).(agent := Background);
      assert cues[i] in cues;
      CutsInside(left, line, [], cues[i]);
      assert left + line + [] == left + line;
    }
  }

  lemma BackgroundValue(line: Marked)
    requires LineCues(line.markers) != []
    ensures Value(line) == Utf8(TrimSpace(Spoken(line.markers)))
  {
    if Segments(line.markers) == [] {
      NoSegments(line.markers);
      NothingSpoken(line.markers);
    }
  }

  /** Merging background layers keeps every cue, main or background, on its text. */
  lemma {:induction false} MergedCut(value: Bytes, cues: seq<Cue>, bgs: seq<Marked>)
    requires AllCut(value, cues)
    ensures AllCut(MergedValue(value, bgs), MergedCues(value, cues, bgs))
  {
    hide Utf8;
    hide Cuts;
    hide LineCues;
    hide Value;
    hide TrimSpace;
    hide Spoken;
    if bgs != [] {
      var n := |bgs| - 1;
      MergedCut(value, cues, bgs[..n]);
      var before, own := MergedValue(value, bgs[..n]), LineCues(bgs[n].markers);
      if own != [] {
        LineCuesTile(bgs[n].markers);
        BackgroundValue(bgs[n]);
        var left := before + Gap(before);
        AttributedCut(left, Value(bgs[n]), own);
        AllCutExtended(before, Gap(before) + Value(bgs[n]), MergedCues(value, cues, bgs[..n]));
        assert before + (Gap(before) + Value(bgs[n])) == left + Value(bgs[n]);
      }
    }
  }

  // ----- what merging gives, in plain words

  function Layered(bg: Marked): bool { LineCues(bg.markers) != [] }

  ghost function ValuesOf(bgs: seq<Marked>): (r: seq<Bytes>)
    ensures |r| == |bgs| && forall i :: 0 <= i < |bgs| ==> r[i] == Value(bgs[i])
  {
    seq(|bgs|, i requires 0 <= i < |bgs| => Value(bgs[i]))
  }

  /** The texts that are put together: the line's own, if it has any, and those of the layers with cues. */
  ghost function Layers(value: Bytes, bgs: seq<Marked>): seq<Bytes> {
    (if value == [] then [] else [value]) + ValuesOf(Filter(bgs, Layered))
  }

  lemma LayerHasText(bg: Marked)
    requires Layered(bg)
    ensures Value(bg) != []
  {
    hide Utf8;
    LineCuesTile(bg.markers);
    BackgroundValue(bg);
  }

  lemma LayersNext(value: Bytes, bgs: seq<Marked>, n: nat)
    requires n < |bgs|
    ensures Layers(value, bgs[..n + 1]) == Layers(value, bgs[..n]) + if Layered(bgs[n]) then [Value(bgs[n])] else []
  {
    hide Value;
    hide Layered;
    assert bgs[..n + 1] == bgs[..n] + [bgs[n]];
    FilterSnoc(bgs[..n], Layered, bgs[n]);
    var rest := Filter(bgs[..n], Layered);
    assert ValuesOf(rest + [bgs[n]]) == ValuesOf(rest) + [Value(bgs[n])];
    assert rest + [] == rest;
  }

  /** `v` is the layers with a space between neighbours, and begins with the line's own text. */
  ghost predicate Layering(value: Bytes, v: Bytes, layers: seq<Bytes>) {
    JoinedBy(v, layers, SPACE) && (v == [] <==> layers == []) && value <= v
  }

  lemma LayeringStart(value: Bytes)
    ensures Layering(value, value, if value == [] then [] else [value])
  {}

  lemma LayeringStep(value: Bytes, v: Bytes, layers: seq<Bytes>, x: Bytes)
    requires Layering(value, v, layers) && x != []
    ensures Layering(value, v + Gap(v) + x, layers + [x])
  {
    JoinedBySnoc(v, layers, SPACE, x);
    hide JoinedBy;
    if v == [] { assert v + Gap(v) + x == x; }
  }

  lemma MergedNext(value: Bytes, bgs: seq<Marked>, n: nat)
    requires n < |bgs|
    ensures MergedValue(value, bgs[..n + 1]) ==
            var v := MergedValue(value, bgs[..n]); if Layered(bgs[n]) then v + Gap(v) + Value(bgs[n]) else v
  {
    hide Value;
    hide LineCues;
    assert bgs[..n + 1][..n] == bgs[..n];
  }

  lemma NoLayers(value: Bytes)
    ensures MergedValue(value, []) == value && Layers(value, []) == if value == [] then [] else [value]
  {
    assert Filter<Marked>([], Layered) == [] && ValuesOf([]) == [];
  }

  /** The merged line is its layers with a space between neighbours. */
  lemma {:induction false} MergedJoins(value: Bytes, bgs: seq<Marked>, n: nat)
    requires n <= |bgs|
    ensures Layering(value, MergedValue(value, bgs[..n]), Layers(value, bgs[..n]))
  {
    hide *;
    if n == 0 {
      assert bgs[..0] == [];
      NoLayers(value);
      LayeringStart(value);
    } else {
      var m := n - 1;
      MergedJoins(value, bgs, m);
      LayersNext(value, bgs, m);
      MergedNext(value, bgs, m);
      var v, layers := MergedValue(value, bgs[..m]), Layers(value, bgs[..m]);
      if Layered(bgs[m]) {
        LayerHasText(bgs[m]);
        LayeringStep(value, v, layers, Value(bgs[m]));
      } else {
        assert layers + [] == layers;
      }
    }
  }

  function InBackground(cues: seq<Cue>): (r: seq<Cue>)
    ensures |r| == |cues| && forall i :: 0 <= i < |cues| ==> r[i] == Unplaced(cues[i]).(agent := Background)
  {
    seq(|cues|, i requires 0 <= i < |cues| => Unplaced(cues[i]).(agent := Background))
  }

  ghost function BackgroundCues(bgs: seq<Marked>): (r: seq<seq<Cue>>)
    ensures |r| == |bgs| && forall i :: 0 <= i < |bgs| ==> r[i] == InBackground(LineCues(bgs[i].markers))
  {
    seq(|bgs|, i requires 0 <= i < |bgs| => InBackground(LineCues(bgs[i].markers)))
  }

  lemma UnplacedBackground(cues: seq<Cue>, offset: int)
    ensures UnplacedAll(Attributed(cues, offset)) == InBackground(cues)
  {}

  lemma BackgroundNext(bgs: seq<Marked>)
    requires bgs != []
    ensures var n := |bgs| - 1;
            BackgroundCues(bgs) == BackgroundCues(bgs[..n]) + [InBackground(LineCues(bgs[n].markers))]
  {
    hide LineCues;
    hide InBackground;
  }

  /** The merged cues are the line's own, then each layer's in turn, moved in place and told apart by their agent. */
  lemma {:induction false} MergedCuesMean(value: Bytes, cues: seq<Cue>, bgs: seq<Marked>)
    ensures UnplacedAll(MergedCues(value, cues, bgs)) == UnplacedAll(cues) + Concat(BackgroundCues(bgs))
  {
    hide LineCues;
    hide Attributed;
    hide UnplacedAll;
    hide InBackground;
    hide MergedValue;
    if bgs == [] {
      assert BackgroundCues(bgs) == [] && UnplacedAll(cues) + [] == UnplacedAll(cues);
    } else {
      var n := |bgs| - 1;
      MergedCuesMean(value, cues, bgs[..n]);
      BackgroundNext(bgs);
      hide BackgroundCues;
      var own, before := LineCues(bgs[n].markers), MergedValue(value, bgs[..n]);
      var moved := Attributed(own, |before| + |Gap(before)|);
      ConcatSnoc(BackgroundCues(bgs[..n]), InBackground(own));
      UnplacedBackground(own, |before| + |Gap(before)|);
      UnplacedAppend(MergedCues(value, cues, bgs[..n]), moved);
    }
  }

  method AppendLayers(value: Bytes, cues: seq<Cue>, bgs: seq<Marked>) returns (v: Bytes, cs: seq<Cue>, merged: bool)
    ensures v == MergedValue(value, bgs) && cs == MergedCues(value, cues, bgs) && cues <= cs
    ensures merged <==> exists bg :: bg in bgs && LineCues(bg.markers) != []
  {
    hide Utf8;
    hide LineCues;
    hide Value;
    hide AllCut;
    hide Tiles;
    hide Values;
    hide Attributed;
    v, cs, merged := value, cues, false;
    for i := 0 to |bgs|
      invariant v == MergedValue(value, bgs[..i]) && cs == MergedCues(value, cues, bgs[..i]) && cues <= cs
      invariant merged <==> exists j :: 0 <= j < i && LineCues(bgs[j].markers) != []
    {
      assert bgs[..i + 1][..i] == bgs[..i];
      var bgValue, bgCues := ParseEnhancedLine(bgs[i]);
      if |bgCues| == 0 { continue; }
      var offset := 0;
      if v != [] {
        offset := |v| + 1;
      }
      cs := cs + Attributed(bgCues, offset);
      v := v + Gap(v) + bgValue;
      merged := true;
    }
    assert bgs[..|bgs|] == bgs;
  }

  method MergeBgLayers(value: Bytes, cues: seq<Cue>, bgs: seq<Marked>) returns (v: Bytes, cs: seq<Cue>, merged: bool)
    ensures v == MergedValue(value, bgs) && cs == MergedCues(value, cues, bgs)
    ensures AllCut(value, cues) ==> AllCut(v, cs)
    ensures cues <= cs && Layering(value, v, Layers(value, bgs))
    ensures UnplacedAll(cs) == UnplacedAll(cues) + Concat(BackgroundCues(bgs))
    ensures merged <==> exists bg :: bg in bgs && LineCues(bg.markers) != []
  {
    hide *;
    v, cs, merged := AppendLayers(value, cues, bgs);
    if AllCut(value, cues) { MergedCut(value, cues, bgs); }
    MergedJoins(value, bgs, |bgs|);
    assert bgs[..|bgs|] == bgs;
    MergedCuesMean(value, cues, bgs);
  }

  /** The cues of a repeated line, moved to a later occurrence. */
  method ShiftCueTimes(cues: seq<Cue>, offset: int) returns (out: seq<Cue>)
    ensures |out| == |cues|
    ensures forall i :: 0 <= i < |cues| ==>
              && out[i] == cues[i].(start := out[i].start, end := out[i].end)
              && (cues[i].start.Some? ==> out[i].start == Some(cues[i].start.value + offset))
              && (cues[i].end.Some? ==> out[i].end == Some(cues[i].end.value + offset))
              && (cues[i].start.None? ==> out[i].start == None) && (cues[i].end.None? ==> out[i].end == None)
    ensures forall line :: AllCut(line, cues) ==> AllCut(line, out)
  {
    out := [];
    for i := 0 to |cues|
      invariant |out| == i
      invariant forall j :: 0 <= j < i ==> out[j] == Delayed(cues[j], offset)
    {
      out := out + [Delayed(cues[i], offset)];
    }
    forall line | AllCut(line, cues) ensures AllCut(line, out) {
      forall c | c in out ensures Cuts(line, c) {
        var i :| 0 <= i < |out| && out[i] == c;
        assert cues[i] in cues;
      }
    }
  }

  function Delayed(c: Cue, offset: int): Cue {
    c.(start := Later(c.start, offset), end := Later(c.end, offset))
  }

  function Later(t: Option<int>, offset: int): Option<int> {
    match t case None => None case Some(v) => Some(v + offset)
  }
}
