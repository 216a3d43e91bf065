/** Where the lines, texts and cues of a TTML paragraph come from, told from its pieces alone. */
module TtmlCues {
  import opened Common
  import opened LyricsModel
  import opened LyricText
  import opened TtmlText

  // ----- the texts between the breaks

  lemma {:induction false} RawsAppend(a: seq<Piece>, b: seq<Piece>)
    ensures Raws(a + b) == Raws(a) + Raws(b)
  {
    if b == [] {
      assert a + b == a;
    } else {
      var n := |b| - 1;
      assert (a + b)[..|a + b| - 1] == a + b[..n];
      RawsAppend(a, b[..n]);
    }
  }

  /** Pieces without a break are one line: their texts put together. */
  lemma {:induction false} OneLine(ps: seq<Piece>)
    requires forall p :: p in ps ==> !p.isBreak
    ensures LineTexts(ps) == [Raws(ps)]
  {
    if ps != [] {
      var n := |ps| - 1;
      assert ps[n] in ps;
      OneLine(ps[..n]);
    }
  }

  /** The lines with `x` put at the end of the last one. */
  function Grown(lines: seq<string>, x: string): seq<string>
    requires lines != []
  {
    lines[|lines| - 1 := lines[|lines| - 1] + x]
  }

  lemma LineTextsSnoc(ps: seq<Piece>, p: Piece)
    ensures LineTexts(ps + [p]) == if p.isBreak then LineTexts(ps) + [[]] else Grown(LineTexts(ps), p.raw)
  {
    assert (ps + [p])[..|ps|] == ps;
  }

  lemma GrownLast(a: seq<string>, b: seq<string>, x: string)
    requires b != []
    ensures Grown(a + b, x) == a + Grown(b, x)
  {}

  /** A break ends one line and begins the next. */
  lemma {:induction false} LinesAtBreak(a: seq<Piece>, b: Piece, c: seq<Piece>)
    requires b.isBreak
    ensures LineTexts(a + [b] + c) == LineTexts(a) + LineTexts(c)
  {
    if c == [] {
      assert a + [b] + c == a + [b];
      LineTextsSnoc(a, b);
    } else {
      var n := |c| - 1;
      LinesAtBreak(a, b, c[..n]);
      assert a + [b] + c == (a + [b] + c[..n]) + [c[n]] && c == c[..n] + [c[n]];
      LineTextsSnoc(a + [b] + c[..n], c[n]);
      LineTextsSnoc(c[..n], c[n]);
      hide LineTexts;
      if !c[n].isBreak { GrownLast(LineTexts(a), LineTexts(c[..n]), c[n].raw); }
    }
  }

  // ----- the joined cues

  ghost function LineCuesOf(fs: seq<FinalLine>): (r: seq<seq<Cue>>)
    ensures |r| == |fs| && forall i :: 0 <= i < |fs| ==> r[i] == UnplacedAll(fs[i].cues)
  {
    seq(|fs|, i requires 0 <= i < |fs| => UnplacedAll(fs[i].cues))
  }

  lemma UnplacedShift(cues: seq<Cue>, offset: int)
    ensures UnplacedAll(Shifted(cues, offset)) == UnplacedAll(cues)
  {}

  lemma LineCuesNext(fs: seq<FinalLine>)
    requires fs != []
    ensures LineCuesOf(fs) == LineCuesOf(fs[..|fs| - 1]) + [UnplacedAll(fs[|fs| - 1].cues)]
  {
    hide UnplacedAll;
  }

  /** The cues are those of the kept lines, line by line, moved in place. */
  lemma {:induction false} JoinedCuesMean(fs: seq<FinalLine>)
    ensures UnplacedAll(JoinedCues(fs)) == Concat(LineCuesOf(fs))
  {
    hide UnplacedAll;
    hide Shifted;
    if fs == [] {
      NothingUnplaced();
    } else {
      var n := |fs| - 1;
      JoinedCuesMean(fs[..n]);
      LineCuesNext(fs);
      hide LineCuesOf;
      ConcatSnoc(LineCuesOf(fs[..n]), UnplacedAll(fs[n].cues));
      var offset := if n == 0 then 0 else |Joined(fs[..n])| + 1;
      UnplacedShift(fs[n].cues, offset);
      UnplacedAppend(JoinedCues(fs[..n]), Shifted(fs[n].cues, offset));
    }
  }

  lemma NothingUnplaced()
    ensures UnplacedAll([]) == []
  {}

  // ----- the cues of one line

  ghost function PieceSpan(line: seq<Piece>, i: nat): Span
    requires i < |line| && line[i].cue.Some?
  {
    var from := |Utf8(Raws(line[..i]))|;
    Span(from, from + |Utf8(line[i].raw)|, line[i].cue.value)
  }

  ghost predicate PieceShown(line: seq<Piece>, left: nat, end: nat, i: int) {
    0 <= i < |line| && line[i].cue.Some? && Remains(left, end, PieceSpan(line, i))
  }

  ghost function ShownPieces(line: seq<Piece>, left: nat, end: nat, n: nat): seq<int> {
    Indexes(n, i => PieceShown(line, left, end, i))
  }

  /** Each cue has the times and the agent of its piece. */
  ghost predicate TimedAs(line: seq<Piece>, cues: seq<Cue>, idx: seq<int>) {
    && |cues| == |idx|
    && forall k :: 0 <= k < |idx| ==> 0 <= idx[k] < |line| && SameTiming(line[idx[k]], cues[k])
  }

  ghost predicate SameTiming(p: Piece, c: Cue) {
    p.cue.Some? && c.start == p.cue.value.start && c.end == p.cue.value.end && c.agent == p.cue.value.agent
  }

  lemma TimedAsSnoc(line: seq<Piece>, cues: seq<Cue>, idx: seq<int>, c: Cue, n: nat)
    requires TimedAs(line, cues, idx) && n < |line| && SameTiming(line[n], c)
    ensures TimedAs(line, cues + [c], idx + [n])
  {}

  lemma ShownPiecesNext(line: seq<Piece>, left: nat, end: nat, n: nat)
    ensures ShownPieces(line, left, end, 0) == []
    ensures ShownPieces(line, left, end, n + 1) ==
            ShownPieces(line, left, end, n) + if PieceShown(line, left, end, n) then [n] else []
  {
    hide PieceShown;
    var p := i => PieceShown(line, left, end, i);
    assert Indexes(n + 1, p) == Indexes(n, p) + if p(n) then [n] else [];
  }

  lemma PieceSpansNext(line: seq<Piece>, n: nat)
    requires n < |line|
    ensures PieceSpans(line[..n + 1]) == PieceSpans(line[..n]) + if line[n].cue.Some? then [PieceSpan(line, n)] else []
  {
    hide Utf8;
    SpansStep(line, n);
  }

  lemma PieceSpanTimes(line: seq<Piece>, i: nat)
    requires i < |line| && line[i].cue.Some?
    ensures PieceSpan(line, i).info == line[i].cue.value
  {}

  lemma {:induction false} ClippedPieceTimes(raw: Bytes, left: nat, end: nat, line: seq<Piece>, n: nat)
    requires left <= end <= |raw| && n <= |line|
    ensures TimedAs(line, Clipped(raw, left, end, PieceSpans(line[..n])), ShownPieces(line, left, end, n))
  {
    hide ClipOne;
    hide PieceSpan;
    hide ShownPieces;
    hide Utf8;
    ShownPiecesNext(line, left, end, if n == 0 then 0 else n - 1);
    if n > 0 {
      hide TimedAs;
      var m := n - 1;
      ClippedPieceTimes(raw, left, end, line, m);
      PieceSpansNext(line, m);
      var spans, idx := PieceSpans(line[..m]), ShownPieces(line, left, end, m);
      var cues := Clipped(raw, left, end, spans);
      hide PieceSpans;
      if line[m].cue.Some? {
        ClippedSnoc(raw, left, end, spans, PieceSpan(line, m));
        ClipOneMeans(raw, left, end, PieceSpan(line, m));
        hide Clipped;
        PieceSpanTimes(line, m);
        var own := ClipOne(raw, left, end, PieceSpan(line, m));
        if own == [] {
          assert cues + own == cues && idx + [] == idx;
        } else {
          assert own == [own[0]];
          TimedAsSnoc(line, cues, idx, own[0], m);
        }
      } else {
        assert spans + [] == spans && idx + [] == idx;
      }
    }
  }

  /** The piece has a character that is no white space at all. */
  ghost predicate Visible(p: Piece) { exists q :: 0 <= q < |p.raw| && !IsSpace(p.raw[q]) }

  lemma PiecePlace(line: seq<Piece>, i: nat) returns (c0: nat)
    requires i < |line| && line[i].cue.Some?
    ensures c0 + |line[i].raw| <= |Raws(line)|
    ensures |Utf8(Raws(line)[..c0])| == PieceSpan(line, i).from
    ensures |Utf8(Raws(line)[..c0 + |line[i].raw|])| == PieceSpan(line, i).to
    ensures forall q :: 0 <= q < |line[i].raw| ==> Raws(line)[c0 + q] == line[i].raw[q]
  {
    hide Utf8;
    var before, after := line[..i], line[i + 1..];
    assert line == before + [line[i]] + after;
    RawsSnoc(before, line[i]);
    RawsAppend(before + [line[i]], after);
    c0 := |Raws(before)|;
    assert Raws(line)[..c0] == Raws(before) && Raws(line)[..c0 + |line[i].raw|] == Raws(before) + line[i].raw;
    Utf8Append(Raws(before), line[i].raw);
  }

  lemma VisiblePieceShown(line: seq<Piece>, i: nat, left: nat, end: nat)
    requires i < |line| && line[i].cue.Some? && Visible(line[i])
    requires left == LeftBytes(Raws(line)) && end == TrimmedEnd(Raws(line))
    ensures PieceShown(line, left, end, i)
  {
    hide Utf8;
    hide IsSpace;
    hide LeftBytes;
    hide TrimmedEnd;
    hide PieceSpan;
    hide Raws;
    var s := Raws(line);
    var c0 := PiecePlace(line, i);
    var q :| 0 <= q < |line[i].raw| && !IsSpace(line[i].raw[q]);
    var p := c0 + q;
    TrimKeeps(s, p);
    PrefixBytes(s, c0, p);
    PrefixBytes(s, p + 1, c0 + |line[i].raw|);
  }

  /** The cues of a finished line have the times and agents of its pieces, in order; every visible timed one has one. */
  lemma FinalCueTimes(ps: seq<Piece>, l: nat) returns (idx: seq<int>)
    requires l < |SplitLines(ps)|
    ensures var line, cues := SplitLines(ps)[l], Final(SplitLines(ps)[l]).cues;
            && TimedAs(line, cues, idx) && (forall j, k :: 0 <= j < k < |idx| ==> idx[j] < idx[k])
            && (forall i :: 0 <= i < |line| && line[i].cue.Some? && Visible(line[i]) ==> i in idx)
  {
    var line := SplitLines(ps)[l];
    forall q | q in line ensures Collapse(q.raw, false) == q.raw { EmittedCollapsed(ps, l, q); }
    LineRawIsRaws(line);
    hide *;
    idx := LineCueTimes(line);
  }

  lemma LineCueTimes(line: seq<Piece>) returns (idx: seq<int>)
    requires LineRaw(line) == Raws(line)
    ensures TimedAs(line, Final(line).cues, idx) && (forall j, k :: 0 <= j < k < |idx| ==> idx[j] < idx[k])
    ensures forall i :: 0 <= i < |line| && line[i].cue.Some? && Visible(line[i]) ==> i in idx
  {
    hide Utf8;
    hide Raws;
    hide LineRaw;
    hide Clipped;
    hide IsSpace;
    hide LeftBytes;
    hide TrimmedEnd;
    hide TimedAs;
    hide Visible;
    var s := Raws(line);
    TrimCut(s);
    var raw, left, end := Utf8(s), LeftBytes(s), TrimmedEnd(s);
    ClippedPieceTimes(raw, left, end, line, |line|);
    assert line[..|line|] == line;
    var shown := i => PieceShown(line, left, end, i);
    idx := Indexes(|line|, shown);
    assert idx == ShownPieces(line, left, end, |line|);
    forall j, k | 0 <= j < k < |idx| ensures idx[j] < idx[k] { IndexesIncrease(|line|, shown, j, k); }
    forall i | 0 <= i < |line| && line[i].cue.Some? && Visible(line[i]) ensures i in idx {
      VisiblePieceShown(line, i, left, end);
      InIndexes(|line|, shown, i);
    }
  }

  // ----- the pieces of the lines

  ghost predicate Emits(ps: seq<Piece>, i: int) { 0 <= i < |ps| && !ps[i].isBreak && Emitted(ps, i) != [] }

  /** Each kept piece has its own cue, if any, and what is left of its text. */
  ghost predicate PiecesFrom(ps: seq<Piece>, kept: seq<Piece>, idx: seq<int>) {
    && |kept| == |idx|
    && forall k :: 0 <= k < |idx| ==>
         0 <= idx[k] < |ps| && !ps[idx[k]].isBreak && kept[k].cue == ps[idx[k]].cue
         && SolidOf(kept[k].raw) == SolidOf(ps[idx[k]].raw)
  }

  lemma PiecesFromSnoc(ps: seq<Piece>, kept: seq<Piece>, idx: seq<int>, p: Piece, n: nat)
    requires PiecesFrom(ps, kept, idx) && n < |ps| && !ps[n].isBreak && p.cue == ps[n].cue
    requires SolidOf(p.raw) == SolidOf(ps[n].raw)
    ensures PiecesFrom(ps, kept + [p], idx + [n])
  {}

  lemma {:induction false} ConcatGrown<T>(cs: seq<seq<T>>, x: T)
    requires cs != []
    ensures Concat(cs[|cs| - 1 := cs[|cs| - 1] + [x]]) == Concat(cs) + [x]
  {
    var n := |cs| - 1;
    ConcatSnoc(cs[..n], cs[n]);
    ConcatSnoc(cs[..n], cs[n] + [x]);
    assert cs == cs[..n] + [cs[n]] && cs[n := cs[n] + [x]] == cs[..n] + [cs[n] + [x]];
  }

  lemma SplitNext(ps: seq<Piece>, n: nat)
    requires n < |ps|
    ensures Concat(SplitLines(ps[..n + 1])) ==
            Concat(SplitLines(ps[..n])) + if Emits(ps, n) then [Piece(Emitted(ps, n), ps[n].cue, false)] else []
  {
    hide Collapse;
    var before, now := SplitLines(ps[..n]), ps[..n + 1];
    assert now[..n] == ps[..n] && now[n] == ps[n] && Emitted(now, n) == Emitted(ps, n);
    if ps[n].isBreak {
      ConcatSnoc(before, []);
    } else if Emitted(ps, n) != [] {
      ConcatGrown(before, Piece(Emitted(ps, n), ps[n].cue, false));
    }
  }

  lemma {:induction false} SplitPrefix(ps: seq<Piece>, p: int -> bool, n: nat)
    requires n <= |ps| && forall i :: 0 <= i < |ps| ==> p(i) == Emits(ps, i)
    ensures PiecesFrom(ps, Concat(SplitLines(ps[..n])), Indexes(n, p))
  {
    hide Collapse;
    hide Emitted;
    hide SolidOf;
    if n == 0 {
      assert SplitLines(ps[..0]) == [[]] && Concat<Piece>([[]]) == [];
    } else {
      var m := n - 1;
      SplitPrefix(ps, p, m);
      SplitNext(ps, m);
      hide SplitLines;
      hide PiecesFrom;
      var kept, idx := Concat(SplitLines(ps[..m])), Indexes(m, p);
      if Emits(ps, m) {
        EmittedSolid(ps, m);
        PiecesFromSnoc(ps, kept, idx, Piece(Emitted(ps, m), ps[m].cue, false), m);
      } else {
        assert kept + [] == kept && idx + [] == idx;
      }
    }
  }

  lemma EmittedSolid(ps: seq<Piece>, n: nat)
    requires n < |ps|
    ensures SolidOf(Emitted(ps, n)) == SolidOf(ps[n].raw)
  {
    CollapseKeepsSolid(ps[n].raw, EndsWithSpace(LastLine(ps[..n]), true));
  }

  /** The lines' pieces are the text pieces in order, each with its own cue; none with solid text is left out. */
  lemma SplitSource(ps: seq<Piece>) returns (idx: seq<int>)
    ensures PiecesFrom(ps, Concat(SplitLines(ps)), idx) && forall j, k :: 0 <= j < k < |idx| ==> idx[j] < idx[k]
    ensures forall i :: 0 <= i < |ps| && !ps[i].isBreak && SolidOf(ps[i].raw) != [] ==> i in idx
  {
    hide SplitLines;
    hide PiecesFrom;
    hide SolidOf;
    hide Emitted;
    var p := i => Emits(ps, i);
    SplitPrefix(ps, p, |ps|);
    assert ps[..|ps|] == ps;
    idx := Indexes(|ps|, p);
    forall j, k | 0 <= j < k < |idx| ensures idx[j] < idx[k] { IndexesIncrease(|ps|, p, j, k); }
    forall i | 0 <= i < |ps| && !ps[i].isBreak && SolidOf(ps[i].raw) != [] ensures i in idx {
      EmittedSolid(ps, i);
      NothingSolid();
      InIndexes(|ps|, p, i);
    }
  }

  lemma NothingSolid()
    ensures SolidOf([]) == []
  {}
}
