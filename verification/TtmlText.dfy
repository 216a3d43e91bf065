/**
 TTML lines: pieces of text are cut at line breaks, white space is collapsed across piece boundaries,
 each line is trimmed, and the lines are joined with their cues following along.
 */
module TtmlText {
  import opened Common
  import opened LyricsModel
  import opened LyricText

  /** A piece of inline content: a line break, or text that may carry a cue's timing and agent. */
  datatype Piece = Piece(raw: string, cue: Option<Cue>, isBreak: bool)

  // ----- white space

  /** The white space of XML: section 2.3 of XML 1.0. */
  predicate IsXmlSpace(c: char) { c == ' ' || c == '\t' || c == '\n' || c == '\r' }

  /** Collapses each run of white space to one space; `prev` says that the text so far ends with one. */
  function Collapse(s: string, prev: bool): string {
    if s == [] then []
    else
      var n := |s| - 1;
      var head := Collapse(s[..n], prev);
      if !IsXmlSpace(s[n]) then head + [s[n]]
      else if EndsWithSpace(s[..n], prev) then head
      else head + [' ']
  }

  predicate EndsWithSpace(s: string, prev: bool) {
    if s == [] then prev else IsXmlSpace(s[|s| - 1])
  }

  method CollapseWhitespace(raw: string) returns (r: string)
    ensures r == Collapse(raw, false)
  {
    r := [];
    var prevSpace := false;
    for i := 0 to |raw|
      invariant r == Collapse(raw[..i], false) && prevSpace == EndsWithSpace(raw[..i], false)
    {
      assert raw[..i + 1][..i] == raw[..i];
      if IsXmlSpace(raw[i]) {
        if !prevSpace {
          r := r + [' '];
          prevSpace := true;
        }
      } else {
        r := r + [raw[i]];
        prevSpace := false;
      }
    }
    assert raw[..|raw|] == raw;
  }

  /** Collapsing two texts in turn, carrying the flag, is collapsing them as one. */
  lemma {:induction false} CollapseAppend(a: string, b: string, prev: bool)
    ensures Collapse(a + b, prev) == Collapse(a, prev) + Collapse(b, EndsWithSpace(a, prev))
    ensures EndsWithSpace(a + b, prev) == EndsWithSpace(b, EndsWithSpace(a, prev))
  {
    if b == [] {
      assert a + b == a;
    } else {
      var n := |b| - 1;
      assert (a + b)[..|a + b| - 1] == a + b[..n];
      CollapseAppend(a, b[..n], prev);
    }
  }

  function DropSpace(s: string): string { if s != [] && s[0] == ' ' then s[1..] else s }

  /** Starting after a space only drops one leading space. */
  lemma {:induction false} CollapseAfterSpace(s: string)
    ensures Collapse(s, true) == DropSpace(Collapse(s, false))
    ensures s != [] && !IsXmlSpace(s[0]) ==> Collapse(s, false) != [] && Collapse(s, false)[0] == s[0]
    ensures s != [] && IsXmlSpace(s[0]) ==> Collapse(s, false) != [] && Collapse(s, false)[0] == ' '
  {
    if s != [] {
      var n := |s| - 1;
      CollapseAfterSpace(s[..n]);
    }
  }

  /** Collapsed text ends with a space exactly when the text did, or is empty after one. */
  lemma {:induction false} CollapseEnd(s: string, prev: bool)
    ensures var r := Collapse(s, prev);
            r != [] ==> (r[|r| - 1] == ' ' <==> EndsWithSpace(s, prev))
    ensures Collapse(s, prev) == [] ==> EndsWithSpace(s, prev) == prev
  {
    if s != [] {
      CollapseEnd(s[..|s| - 1], prev);
    }
  }

  /** Collapsed text stays as it is when collapsed again. */
  lemma {:induction false} CollapseIdempotent(s: string, prev: bool)
    ensures Collapse(Collapse(s, prev), false) == Collapse(s, prev)
  {
    if s != [] {
      var n := |s| - 1;
      var head := Collapse(s[..n], prev);
      CollapseIdempotent(s[..n], prev);
      CollapseEnd(s[..n], prev);
      var all := Collapse(s, prev);
      if all != head {
        assert all[..|all| - 1] == head;
        if head != [] { assert EndsWithSpace(head, false) == IsXmlSpace(head[|head| - 1]); }
      }
    }
  }

  predicate Solid(c: char) { c != ' ' && c != '\t' && c != '\n' && c != '\r' }

  /** The text has no white space but plain spaces, and never two of them in a row. */
  ghost predicate Tidy(s: string) {
    && (forall i :: 0 <= i < |s| ==> Solid(s[i]) || s[i] == ' ')
    && (forall i :: 0 <= i < |s| - 1 ==> !(s[i] == ' ' && s[i + 1] == ' '))
  }

  lemma TidySnoc(s: string, c: char)
    requires Tidy(s) && (Solid(c) || (c == ' ' && (s == [] || s[|s| - 1] != ' ')))
    ensures Tidy(s + [c])
  {}

  lemma {:induction false} CollapseTidy(s: string, prev: bool)
    ensures Tidy(Collapse(s, prev)) && (prev && Collapse(s, prev) != [] ==> Collapse(s, prev)[0] != ' ')
  {
    if s != [] {
      hide Tidy;
      var n := |s| - 1;
      CollapseTidy(s[..n], prev);
      CollapseEnd(s[..n], prev);
      var head := Collapse(s[..n], prev);
      if !IsXmlSpace(s[n]) {
        TidySnoc(head, s[n]);
      } else if !EndsWithSpace(s[..n], prev) {
        TidySnoc(head, ' ');
      }
    }
  }

  /** The characters of a text that are not XML white space. */
  function SolidOf(s: string): string {
    if s == [] then [] else SolidOf(s[..|s| - 1]) + if Solid(s[|s| - 1]) then [s[|s| - 1]] else []
  }

  lemma SolidSnoc(s: string, c: char)
    ensures SolidOf(s + [c]) == SolidOf(s) + if Solid(c) then [c] else []
  {
    assert (s + [c])[..|s|] == s;
  }

  /** Collapsing keeps all else as it is. */
  lemma {:induction false} CollapseKeepsSolid(s: string, prev: bool)
    ensures SolidOf(Collapse(s, prev)) == SolidOf(s)
  {
    if s != [] {
      var n := |s| - 1;
      CollapseKeepsSolid(s[..n], prev);
      var head := Collapse(s[..n], prev);
      SolidSnoc(head, s[n]);
      SolidSnoc(head, ' ');
      assert SolidOf(head) + [] == SolidOf(head);
    }
  }

  // ----- lines

  function Raws(ps: seq<Piece>): string {
    if ps == [] then [] else Raws(ps[..|ps| - 1]) + ps[|ps| - 1].raw
  }

  /** The text of the last line so far: the pieces after the last break. */
  function LastLine(ps: seq<Piece>): string {
    if ps == [] || ps[|ps| - 1].isBreak then [] else LastLine(ps[..|ps| - 1]) + ps[|ps| - 1].raw
  }

  /** The texts between the breaks. */
  function LineTexts(ps: seq<Piece>): (r: seq<string>)
    ensures |r| > 0 && r[|r| - 1] == LastLine(ps)
  {
    if ps == [] then [[]]
    else
      var n := |ps| - 1;
      var before := LineTexts(ps[..n]);
      if ps[n].isBreak then before + [[]] else before[|before| - 1 := before[|before| - 1] + ps[n].raw]
  }

  /** What a text piece contributes after the line so far. */
  function Emitted(ps: seq<Piece>, n: nat): string
    requires n < |ps|
  {
    Collapse(ps[n].raw, EndsWithSpace(LastLine(ps[..n]), true))
  }

  /** The pieces of each line with their collapsed text; a piece left with none is gone. */
  function SplitLines(ps: seq<Piece>): (r: seq<seq<Piece>>)
    ensures |r| > 0
  {
    if ps == [] then [[]]
    else
      var n := |ps| - 1;
      var before := SplitLines(ps[..n]);
      if ps[n].isBreak then before + [[]]
      else if Emitted(ps, n) == [] then before
      else before[|before| - 1 := before[|before| - 1] + [Piece(Emitted(ps, n), ps[n].cue, false)]]
  }

  lemma RawsSnoc(line: seq<Piece>, p: Piece)
    ensures Raws(line + [p]) == Raws(line) + p.raw
  {
    assert (line + [p])[..|line|] == line;
  }

  /** Each line of pieces makes up its text collapsed. */
  ghost predicate Collapses(lines: seq<seq<Piece>>, texts: seq<string>) {
    |lines| == |texts| && forall i :: 0 <= i < |lines| ==> Raws(lines[i]) == Collapse(texts[i], true)
  }

  lemma GrowLine(lines: seq<seq<Piece>>, texts: seq<string>, raw: string, cue: Option<Cue>)
    requires |lines| > 0 && Collapses(lines, texts)
    ensures var n, emitted := |lines| - 1, Collapse(raw, EndsWithSpace(texts[|texts| - 1], true));
            Collapses(if emitted == [] then lines else lines[n := lines[n] + [Piece(emitted, cue, false)]],
                      texts[n := texts[n] + raw])
  {
    hide Raws;
    hide Collapse;
    hide EndsWithSpace;
    var n := |lines| - 1;
    CollapseAppend(texts[n], raw, true);
    RawsSnoc(lines[n], Piece(Collapse(raw, EndsWithSpace(texts[n], true)), cue, false));
  }

  /**
   However the text is cut into pieces, the emitted pieces of a line make up the whole line's text
   collapsed, less a leading space.
   */
  lemma {:induction false} SplitCollapses(ps: seq<Piece>)
    ensures Collapses(SplitLines(ps), LineTexts(ps))
  {
    if ps != [] {
      var n := |ps| - 1;
      SplitCollapses(ps[..n]);
      if !ps[n].isBreak {
        GrowLine(SplitLines(ps[..n]), LineTexts(ps[..n]), ps[n].raw, ps[n].cue);
      }
    }
  }

  /** The same, in the code's terms: the line's text collapsed on its own, with one leading space dropped. */
  lemma SplitCollapsesLine(ps: seq<Piece>, i: nat)
    requires i < |LineTexts(ps)|
    ensures |SplitLines(ps)| == |LineTexts(ps)|
    ensures Raws(SplitLines(ps)[i]) == DropSpace(Collapse(LineTexts(ps)[i], false))
  {
    SplitCollapses(ps);
    CollapseAfterSpace(LineTexts(ps)[i]);
  }

  lemma {:induction false} EmittedCollapsed(ps: seq<Piece>, i: nat, q: Piece)
    requires i < |SplitLines(ps)| && q in SplitLines(ps)[i]
    ensures q.raw != [] && Collapse(q.raw, false) == q.raw && !q.isBreak
  {
    var n := |ps| - 1;
    if i < |SplitLines(ps[..n])| && q in SplitLines(ps[..n])[i] {
      EmittedCollapsed(ps[..n], i, q);
    } else {
      CollapseIdempotent(ps[n].raw, EndsWithSpace(LastLine(ps[..n]), true));
    }
  }

  method SplitByBreak(ps: seq<Piece>) returns (lines: seq<seq<Piece>>)
    ensures lines == SplitLines(ps)
  {
    lines := [[]];
    var prevEndedWithSpace := true;
    for i := 0 to |ps|
      invariant lines == SplitLines(ps[..i])
      invariant prevEndedWithSpace == EndsWithSpace(LastLine(ps[..i]), true)
    {
      assert ps[..i + 1][..i] == ps[..i];
      if ps[i].isBreak {
        lines := lines + [[]];
        prevEndedWithSpace := true;
      } else {
        var raw := CollapseWhitespace(ps[i].raw);
        CollapseAfterSpace(ps[i].raw);
        CollapseAppend(LastLine(ps[..i]), ps[i].raw, true);
        CollapseEnd(ps[i].raw, prevEndedWithSpace);
        if prevEndedWithSpace { raw := DropSpace(raw); }
        assert raw == Emitted(ps[..i + 1], i);
        if raw != [] {
          lines := lines[|lines| - 1 := lines[|lines| - 1] + [Piece(raw, ps[i].cue, false)]];
          prevEndedWithSpace := raw[|raw| - 1] == ' ';
        }
      }
    }
    assert ps[..|ps|] == ps;
  }

  // ----- cues

  /** The line's text as the finishing step reads it: every piece collapsed once more. */
  function LineRaw(line: seq<Piece>): string {
    if line == [] then [] else LineRaw(line[..|line| - 1]) + Collapse(line[|line| - 1].raw, false)
  }

  /** For the pieces of a split line, collapsing once more changes nothing. */
  lemma {:induction false} LineRawIsRaws(line: seq<Piece>)
    requires forall q :: q in line ==> Collapse(q.raw, false) == q.raw
    ensures LineRaw(line) == Raws(line)
  {
    if line != [] {
      assert line[|line| - 1] in line;
      LineRawIsRaws(line[..|line| - 1]);
    }
  }

  /** The stretches of the line its cue-bearing pieces take up. */
  function PieceSpans(line: seq<Piece>): seq<Span> {
    if line == [] then []
    else
      var n := |line| - 1;
      var from := |Utf8(Raws(line[..n]))|;
      PieceSpans(line[..n]) +
      if line[n].cue.Some? then [Span(from, from + |Utf8(line[n].raw)|, line[n].cue.value)] else []
  }

  datatype FinalLine = FinalLine(text: Bytes, cues: seq<Cue>)

  function Final(line: seq<Piece>): FinalLine {
    var raw := LineRaw(line);
    TrimCut(raw);
    FinalLine(Utf8(TrimSpace(raw)), Clipped(Utf8(raw), LeftBytes(raw), TrimmedEnd(raw), PieceSpans(line)))
  }

  lemma FinalCut(line: seq<Piece>)
    ensures AllCut(Final(line).text, Final(line).cues)
  {
    var raw := LineRaw(line);
    TrimCut(raw);
    ClippedCut(Utf8(raw), LeftBytes(raw), TrimmedEnd(raw), PieceSpans(line));
  }

  /** A finished line's text depends only on the text between its breaks, not on how that came in pieces. */
  lemma FinalText(ps: seq<Piece>, i: nat)
    requires i < |LineTexts(ps)|
    ensures |SplitLines(ps)| == |LineTexts(ps)|
    ensures Final(SplitLines(ps)[i]).text == Utf8(TrimSpace(DropSpace(Collapse(LineTexts(ps)[i], false))))
  {
    SplitCollapsesLine(ps, i);
    var line := SplitLines(ps)[i];
    forall q | q in line ensures Collapse(q.raw, false) == q.raw {
      EmittedCollapsed(ps, i, q);
    }
    LineRawIsRaws(line);
  }

  method LineRawText(line: seq<Piece>) returns (raw: string)
    ensures raw == LineRaw(line)
  {
    raw := [];
    for i := 0 to |line|
      invariant raw == LineRaw(line[..i])
    {
      assert line[..i + 1][..i] == line[..i];
      var piece := CollapseWhitespace(line[i].raw);
      raw := raw + piece;
    }
    assert line[..|line|] == line;
  }

  lemma {:induction false} NothingClipped(spans: seq<Span>)
    ensures Clipped([], 0, 0, spans) == []
  {
    if spans != [] { NothingClipped(spans[..|spans| - 1]); }
  }

  method FinalizeLogicalLine(line: seq<Piece>) returns (final: FinalLine)
    ensures final == Final(line)
  {
    var rawLine := LineRawText(line);
    if rawLine == [] {
      NothingClipped(PieceSpans(line));
      return FinalLine([], []);
    }
    TrimCut(rawLine);
    var raw, left, end := Utf8(rawLine), LeftBytes(rawLine), TrimmedEnd(rawLine);
    var cues := ClipPieces(line, raw, left, end);
    final := FinalLine(Utf8(TrimSpace(rawLine)), cues);
  }

  method ClipPieces(line: seq<Piece>, raw: Bytes, left: nat, end: nat) returns (cues: seq<Cue>)
    requires left <= end <= |raw|
    ensures cues == Clipped(raw, left, end, PieceSpans(line))
  {
    hide ClipOne;
    hide Utf8;
    cues := [];
    assert Raws(line[..0]) == [];
    EmptyText();
    var cursor := 0;
    for i := 0 to |line|
      invariant cursor == |Utf8(Raws(line[..i]))|
      invariant cues == Clipped(raw, left, end, PieceSpans(line[..i]))
    {
      assert line[..i + 1][..i] == line[..i];
      SpansStep(line, i);
      var pieceEnd := cursor + |Utf8(line[i].raw)|;
      if line[i].cue.Some? {
        ClippedSnoc(raw, left, end, PieceSpans(line[..i]), Span(cursor, pieceEnd, line[i].cue.value));
        cues := cues + ClipOne(raw, left, end, Span(cursor, pieceEnd, line[i].cue.value));
      }
      cursor := pieceEnd;
    }
    assert line[..|line|] == line;
  }

  lemma SpansStep(line: seq<Piece>, i: nat)
    requires i < |line|
    ensures var from, to := |Utf8(Raws(line[..i]))|, |Utf8(Raws(line[..i]))| + |Utf8(line[i].raw)|;
            && |Utf8(Raws(line[..i + 1]))| == to
            && PieceSpans(line[..i + 1]) ==
               (if line[i].cue.Some? then PieceSpans(line[..i]) + [Span(from, to, line[i].cue.value)]
                else PieceSpans(line[..i]))
  {
    hide Utf8;
    assert line[..i + 1][..i] == line[..i];
    Utf8Append(Raws(line[..i]), line[i].raw);
  }

  lemma {:induction false} TimedSpansContiguous(line: seq<Piece>)
    requires forall q :: q in line ==> q.cue.Some? && q.raw != []
    ensures Contiguous(PieceSpans(line), |Utf8(Raws(line))|)
  {
    EmptyText();
    hide Utf8;
    if line != [] {
      var n := |line| - 1;
      TimedSpansContiguous(line[..n]);
      SpansStep(line, n);
      assert line[..n + 1] == line && line[n] in line;
      WordHasBytes(line[n].raw);
      var all := PieceSpans(line);
      assert all[..|all| - 1] == PieceSpans(line[..n]);
    }
  }

  /** The cues of a line all of whose pieces are timed tile it in order with no gap, so they spell it. */
  lemma TimedLineTiles(ps: seq<Piece>, i: nat)
    requires i < |SplitLines(ps)| && forall q :: q in SplitLines(ps)[i] ==> q.cue.Some?
    ensures var f := Final(SplitLines(ps)[i]); Tiles(f.cues, |f.text|) && Values(f.cues) == f.text
  {
    hide Utf8;
    var line := SplitLines(ps)[i];
    forall q | q in line ensures Collapse(q.raw, false) == q.raw && q.raw != [] {
      EmittedCollapsed(ps, i, q);
    }
    LineRawIsRaws(line);
    TimedSpansContiguous(line);
    var s, f := LineRaw(line), Final(line);
    TrimCut(s);
    ClippedTiles(Utf8(s), LeftBytes(s), TrimmedEnd(s), PieceSpans(line), |Utf8(s)|);
    FinalCut(line);
    TilesRebuild(f.text, f.cues, |f.text|);
    assert f.text[..|f.text|] == f.text;
  }

  // ----- joining

  const NEWLINE: byte := 10

  predicate Blank(f: FinalLine) { f.text == [] && f.cues == [] }

  function DropLeadingBlank(fs: seq<FinalLine>): seq<FinalLine> {
    if fs != [] && Blank(fs[0]) then DropLeadingBlank(fs[1..]) else fs
  }

  function DropTrailingBlank(fs: seq<FinalLine>): seq<FinalLine> {
    if fs != [] && Blank(fs[|fs| - 1]) then DropTrailingBlank(fs[..|fs| - 1]) else fs
  }

  function Joined(fs: seq<FinalLine>): Bytes {
    if fs == [] then []
    else
      var n := |fs| - 1;
      if n == 0 then fs[0].text else Joined(fs[..n]) + [NEWLINE] + fs[n].text
  }

  function Shifted(cues: seq<Cue>, offset: int): (r: seq<Cue>)
    ensures |r| == |cues| && forall i :: 0 <= i < |cues| ==> r[i] == Shift(cues[i], offset)
  {
    seq(|cues|, i requires 0 <= i < |cues| => Shift(cues[i], offset))
  }

  function JoinedCues(fs: seq<FinalLine>): seq<Cue> {
    if fs == [] then []
    else
      var n := |fs| - 1;
      JoinedCues(fs[..n]) + Shifted(fs[n].cues, if n == 0 then 0 else |Joined(fs[..n])| + 1)
  }

  lemma ShiftedCut(left: Bytes, line: Bytes, cues: seq<Cue>)
    requires AllCut(line, cues)
    ensures AllCut(left + line, Shifted(cues, |left|))
  {
    forall c | c in Shifted(cues, |left|) ensures Cuts(left + line, c) {
      var i :| 0 <= i < |cues| && c == Shift(cues[i], |left|);
      assert cues[i] in cues;
      CutsInside(left, line, [], cues[i]);
      assert left + line + [] == left + line;
    }
  }

  /** Joining keeps every cue on its text. */
  lemma {:induction false} JoinedCut(fs: seq<FinalLine>)
    requires forall f :: f in fs ==> AllCut(f.text, f.cues)
    ensures AllCut(Joined(fs), JoinedCues(fs))
  {
    if fs != [] {
      var n := |fs| - 1;
      JoinedCut(fs[..n]);
      assert fs[n] in fs;
      if n == 0 {
        ShiftedCut([], fs[0].text, fs[0].cues);
        assert [] + fs[0].text == fs[0].text;
      } else {
        var left := Joined(fs[..n]) + [NEWLINE];
        ShiftedCut(left, fs[n].text, fs[n].cues);
        AllCutExtended(Joined(fs[..n]), [NEWLINE] + fs[n].text, JoinedCues(fs[..n]));
        assert Joined(fs[..n]) + ([NEWLINE] + fs[n].text) == left + fs[n].text;
      }
    }
  }

  function Finals(lines: seq<seq<Piece>>): (r: seq<FinalLine>)
    ensures |r| == |lines| && forall i :: 0 <= i < |lines| ==> r[i] == Final(lines[i])
  {
    Each(lines, Final)
  }

  lemma {:induction false} DroppedMembers(fs: seq<FinalLine>)
    ensures forall f :: f in DropLeadingBlank(fs) ==> f in fs
    ensures forall f :: f in DropTrailingBlank(fs) ==> f in fs
    decreases |fs|
  {
    if fs != [] {
      DroppedMembers(fs[1..]);
      DroppedMembers(fs[..|fs| - 1]);
    }
  }

  /** The value and cues of one paragraph. */
  function Built(ps: seq<Piece>): seq<FinalLine> {
    DropTrailingBlank(DropLeadingBlank(Finals(SplitLines(ps))))
  }

  /** Through splitting, trimming and joining, every cue's range cuts exactly its value out of the line. */
  lemma BuiltCut(ps: seq<Piece>)
    ensures AllCut(Joined(Built(ps)), JoinedCues(Built(ps)))
  {
    var all := Finals(SplitLines(ps));
    DroppedMembers(all);
    DroppedMembers(DropLeadingBlank(all));
    forall f | f in Built(ps) ensures AllCut(f.text, f.cues) {
      assert f in all;
      var i :| 0 <= i < |all| && all[i] == f;
      FinalCut(SplitLines(ps)[i]);
    }
    JoinedCut(Built(ps));
  }

  // ----- which lines stay

  lemma {:induction false} LeadingDropped(fs: seq<FinalLine>) returns (a: nat)
    ensures a <= |fs| && DropLeadingBlank(fs) == fs[a..]
    ensures forall i :: 0 <= i < a ==> fs[i].text == [] && fs[i].cues == []
    ensures a < |fs| ==> fs[a].text != [] || fs[a].cues != []
  {
    a := 0;
    if fs != [] && Blank(fs[0]) {
      var k := LeadingDropped(fs[1..]);
      a := k + 1;
    }
  }

  lemma {:induction false} TrailingDropped(fs: seq<FinalLine>) returns (b: nat)
    ensures b <= |fs| && DropTrailingBlank(fs) == fs[..b]
    ensures forall i :: b <= i < |fs| ==> fs[i].text == [] && fs[i].cues == []
    ensures b > 0 ==> fs[b - 1].text != [] || fs[b - 1].cues != []
  {
    b := |fs|;
    if fs != [] && Blank(fs[|fs| - 1]) { b := TrailingDropped(fs[..|fs| - 1]); }
  }

  /** The kept lines are those from `a` to `b`: all between, and at both ends, the first with text or cues. */
  ghost predicate KeptLines(all: seq<FinalLine>, kept: seq<FinalLine>, a: nat, b: nat) {
    && a <= b <= |all| && kept == all[a..b]
    && (forall i :: 0 <= i < |all| && !(a <= i < b) ==> all[i].text == [] && all[i].cues == [])
    && (a < b ==> (all[a].text != [] || all[a].cues != []) && (all[b - 1].text != [] || all[b - 1].cues != []))
  }

  lemma DroppedKeeps(all: seq<FinalLine>) returns (a: nat, b: nat)
    ensures KeptLines(all, DropTrailingBlank(DropLeadingBlank(all)), a, b)
  {
    a := LeadingDropped(all);
    var rest := all[a..];
    var k := TrailingDropped(rest);
    b := a + k;
    assert rest[..k] == all[a..b];
    hide DropTrailingBlank;
    hide DropLeadingBlank;
    assert forall i :: a <= i < |all| ==> all[i] == rest[i - a];
  }

  lemma BuiltKeeps(ps: seq<Piece>) returns (a: nat, b: nat)
    ensures KeptLines(Finals(SplitLines(ps)), Built(ps), a, b)
  {
    hide KeptLines;
    hide Finals;
    hide SplitLines;
    a, b := DroppedKeeps(Finals(SplitLines(ps)));
  }

  // ----- the joined text

  ghost function TextsOf(fs: seq<FinalLine>): (r: seq<Bytes>)
    ensures |r| == |fs| && forall i :: 0 <= i < |fs| ==> r[i] == fs[i].text
  {
    seq(|fs|, i requires 0 <= i < |fs| => fs[i].text)
  }

  /** The value is the kept lines' texts with a newline between neighbours. */
  lemma {:induction false} JoinedMeans(fs: seq<FinalLine>)
    ensures JoinedBy(Joined(fs), TextsOf(fs), 10)
  {
    if |fs| > 1 {
      var n := |fs| - 1;
      JoinedMeans(fs[..n]);
      JoinedBySnoc(Joined(fs[..n]), TextsOf(fs[..n]), 10, fs[n].text);
      hide JoinedBy;
      assert TextsOf(fs) == TextsOf(fs[..n]) + [fs[n].text];
    }
  }

  method BuildLineFromPieces(ps: seq<Piece>) returns (value: Bytes, cues: seq<Cue>)
    ensures value == Joined(Built(ps)) && cues == JoinedCues(Built(ps))
    ensures AllCut(value, cues)
    ensures exists a, b :: KeptLines(Finals(SplitLines(ps)), Built(ps), a, b)
    ensures JoinedBy(value, TextsOf(Built(ps)), 10)
  {
    var lines := SplitByBreak(ps);
    var finals := FinalizeLines(lines);
    finals := StripBlank(finals);
    value, cues := JoinFinals(finals);
    BuiltCut(ps);
    var a, b := BuiltKeeps(ps);
    JoinedMeans(Built(ps));
  }

  method FinalizeLines(lines: seq<seq<Piece>>) returns (finals: seq<FinalLine>)
    ensures finals == Finals(lines)
  {
    hide Final;
    finals := [];
    for i := 0 to |lines|
      invariant |finals| == i && forall j :: 0 <= j < i ==> finals[j] == Final(lines[j])
    {
      var f := FinalizeLogicalLine(lines[i]);
      finals := finals + [f];
    }
  }

  method StripBlank(finals: seq<FinalLine>) returns (r: seq<FinalLine>)
    ensures r == DropTrailingBlank(DropLeadingBlank(finals))
  {
    r := finals;
    while |r| > 0 && Blank(r[0])
      invariant DropLeadingBlank(r) == DropLeadingBlank(finals)
    {
      r := r[1..];
    }
    while |r| > 0 && Blank(r[|r| - 1])
      invariant DropTrailingBlank(r) == DropTrailingBlank(DropLeadingBlank(finals))
    {
      r := r[..|r| - 1];
    }
  }

  method JoinFinals(finals: seq<FinalLine>) returns (value: Bytes, cues: seq<Cue>)
    ensures value == Joined(finals) && cues == JoinedCues(finals)
  {
    value, cues := [], [];
    var byteOffset := 0;
    for i := 0 to |finals|
      invariant value == Joined(finals[..i]) && cues == JoinedCues(finals[..i]) && byteOffset == |value|
    {
      assert finals[..i + 1][..i] == finals[..i];
      if i > 0 {
        value := value + [NEWLINE];
        byteOffset := byteOffset + 1;
      }
      value := value + finals[i].text;
      ghost var before := cues;
      var own := finals[i].cues;
      for j := 0 to |own|
        invariant cues == before + Shifted(own, byteOffset)[..j]
      {
        cues := cues + [Shift(own[j], byteOffset)];
      }
      byteOffset := byteOffset + |finals[i].text|;
    }
    assert finals[..|finals|] == finals;
  }
}
