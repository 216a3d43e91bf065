/**
 Lyricsfile lines: overlapping lines are given voices, each line taking the lowest voice no line still
 active holds, and a line's words become cues over the line rebuilt from them.
 */
module VoiceAssignment {
  import opened Common
  import opened LyricsModel

  datatype Word = Word(text: Bytes, startMs: int, endMs: Option<int>)

  datatype Entry = Entry(text: Bytes, startMs: int, endMs: Option<int>, words: seq<Word>)

  /** A line's end: its own, its last word's, else the next line's start. */
  function LineEnd(e: Entry, nextStart: Option<int>): Option<int> {
    if e.endMs.Some? then e.endMs
    else if e.words != [] && e.words[|e.words| - 1].endMs.Some? then e.words[|e.words| - 1].endMs
    else nextStart
  }

  function EndOf(es: seq<Entry>, i: nat): Option<int>
    requires i < |es|
  {
    LineEnd(es[i], if i + 1 < |es| then Some(es[i + 1].startMs) else None)
  }

  /** Until when the line holds its voice; a line without an end holds it for no time. */
  function Until(es: seq<Entry>, i: nat): int
    requires i < |es|
  {
    match EndOf(es, i) case Some(e) => e case None => es[i].startMs
  }

  /** The end a line has, from the entries alone. */
  ghost predicate EndsAt(es: seq<Entry>, i: nat, end: Option<int>)
    requires i < |es|
  {
    var own, last := es[i].endMs, if es[i].words == [] then None else es[i].words[|es[i].words| - 1].endMs;
    && (own.Some? ==> end == own)
    && (own.None? && last.Some? ==> end == last)
    && (own.None? && last.None? && i + 1 < |es| ==> end == Some(es[i + 1].startMs))
    && (own.None? && last.None? && i + 1 == |es| ==> end == None)
  }

  lemma EndMeans(es: seq<Entry>, i: nat)
    requires i < |es|
    ensures EndsAt(es, i, EndOf(es, i))
  {}

  ghost predicate StartOrdered(es: seq<Entry>) {
    forall i, j :: 0 <= i < j < |es| ==> es[i].startMs <= es[j].startMs
  }

  // ----- interval partitioning

  /** The earlier lines still active when line `i` starts. */
  function Live(es: seq<Entry>, i: nat): set<nat>
    requires i < |es|
  {
    set j: nat | j < i && Until(es, j) > es[i].startMs
  }

  /** A line is still active at a later start exactly when it has an end, and that lies after the start. */
  lemma LiveMeans(es: seq<Entry>, i: nat, j: nat)
    requires i < |es| && StartOrdered(es)
    ensures j in Live(es, i) <==> j < i && exists end :: EndsAt(es, j, Some(end)) && end > es[i].startMs
  {
    if j < i {
      EndMeans(es, j);
      if EndOf(es, j).Some? { assert EndsAt(es, j, Some(EndOf(es, j).value)); }
    }
  }

  function LiveVoices(es: seq<Entry>, voices: seq<nat>, i: nat): set<nat>
    requires i < |es| && i <= |voices|
  {
    set j | j in Live(es, i) :: voices[j]
  }

  ghost predicate LowestFreeAt(es: seq<Entry>, voices: seq<nat>, i: nat)
    requires i < |es| && i < |voices|
  {
    && voices[i] !in LiveVoices(es, voices, i)
    && forall v: nat :: v < voices[i] ==> v in LiveVoices(es, voices, i)
  }

  /** Each line has the lowest voice that no line active at its start holds. */
  ghost predicate LowestFree(es: seq<Entry>, voices: seq<nat>) {
    |voices| == |es| && forall i :: 0 <= i < |es| ==> LowestFreeAt(es, voices, i)
  }

  /** No two lines of one voice overlap. */
  ghost predicate Proper(es: seq<Entry>, voices: seq<nat>) {
    && |voices| == |es|
    && forall i, j :: 0 <= i < j < |es| && voices[i] == voices[j] ==> Until(es, i) <= es[j].startMs
  }

  lemma LowestFreeIsProper(es: seq<Entry>, voices: seq<nat>)
    requires LowestFree(es, voices)
    ensures Proper(es, voices)
  {
    forall i, j | 0 <= i < j < |es| && Until(es, i) > es[j].startMs ensures voices[i] != voices[j] {
      assert LowestFreeAt(es, voices, j);
      assert i in Live(es, j);
      assert voices[i] in LiveVoices(es, voices, j);
    }
  }

  /** Voices are used without gaps: below any used voice, every voice was used earlier. */
  lemma VoicesHaveNoGaps(es: seq<Entry>, voices: seq<nat>, j: nat, v: nat)
    requires LowestFree(es, voices) && j < |es| && v < voices[j]
    ensures exists k :: 0 <= k < j && voices[k] == v
  {
    assert LowestFreeAt(es, voices, j) && v in LiveVoices(es, voices, j);
    var k :| k in Live(es, j) && voices[k] == v;
  }

  lemma {:induction false} SmallSet(s: set<nat>, n: nat)
    requires forall v :: v in s ==> v < n
    ensures |s| <= n
  {
    if n > 0 {
      SmallSet(s - {n - 1}, n - 1);
    } else {
      assert s == {};
    }
  }

  lemma {:induction false} FullSet(s: set<nat>, n: nat)
    requires forall v: nat :: v < n ==> v in s
    ensures n <= |s|
  {
    if n > 0 {
      FullSet(s - {n - 1}, n - 1);
    }
  }

  lemma LivePairDiffers(es: seq<Entry>, voices: seq<nat>, i: nat, j: nat, k: nat)
    requires StartOrdered(es) && Proper(es, voices) && i < |es| && j in Live(es, i) && k in Live(es, i) && j < k
    ensures voices[j] != voices[k]
  {
    assert Until(es, j) > es[i].startMs >= es[k].startMs;
  }

  lemma {:induction false} ImageSize(voices: seq<nat>, part: set<nat>)
    requires forall j :: j in part ==> j < |voices|
    requires forall j, k :: j in part && k in part && j < k ==> voices[j] != voices[k]
    ensures |set j | j in part :: voices[j]| == |part|
  {
    var image := set j | j in part :: voices[j];
    if part == {} {
      assert image == {};
    } else {
      var j :| j in part;
      var rest := part - {j};
      ImageSize(voices, rest);
      var smaller := set k | k in rest :: voices[k];
      assert forall k :: k in rest ==> voices[k] != voices[j];
      assert image == smaller + {voices[j]};
    }
  }

  /** Lines active together hold different voices under any proper assignment. */
  lemma LiveInjective(es: seq<Entry>, voices: seq<nat>, i: nat)
    requires StartOrdered(es) && Proper(es, voices) && i < |es|
    ensures |set j | j in Live(es, i) :: voices[j]| == |Live(es, i)|
  {
    hide Until;
    forall j, k | j in Live(es, i) && k in Live(es, i) && j < k ensures voices[j] != voices[k] {
      LivePairDiffers(es, voices, i, j, k);
    }
    ImageSize(voices, Live(es, i));
  }

  /** A proper assignment that does with the voices below `n`. */
  ghost predicate ProperWith(es: seq<Entry>, voices: seq<nat>, n: nat) {
    Proper(es, voices) && forall j :: 0 <= j < |es| ==> voices[j] < n
  }

  /** Any proper assignment needs, at each line, one voice more than there are lines still active. */
  lemma NeedsVoices(es: seq<Entry>, voices: seq<nat>, i: nat, n: nat)
    requires StartOrdered(es) && ProperWith(es, voices, n) && i < |es|
    ensures |Live(es, i)| + 1 <= n
  {
    LiveInjective(es, voices, i);
    var held := LiveVoices(es, voices, i);
    assert voices[i] !in held;
    SmallSet(held + {voices[i]}, n);
  }

  /** The lowest free voice is at most the number of lines still active. */
  lemma VoiceBound(es: seq<Entry>, voices: seq<nat>, i: nat)
    requires StartOrdered(es) && LowestFree(es, voices) && i < |es|
    ensures voices[i] <= |Live(es, i)|
  {
    LowestFreeIsProper(es, voices);
    LiveInjective(es, voices, i);
    assert LowestFreeAt(es, voices, i);
    FullSet(LiveVoices(es, voices, i), voices[i]);
  }

  /**
   Optimal partitioning: the number of voices used is the largest number of lines active together, and
   no assignment without overlaps does with fewer.
   */
  lemma VoicesOptimal(es: seq<Entry>, voices: seq<nat>, maxVoice: nat)
    requires StartOrdered(es) && LowestFree(es, voices)
    requires maxVoice in voices && forall v :: v in voices ==> v <= maxVoice
    ensures forall i :: 0 <= i < |es| ==> |Live(es, i)| + 1 <= maxVoice + 1
    ensures exists i :: 0 <= i < |es| && |Live(es, i)| + 1 == maxVoice + 1
    ensures forall other, n :: ProperWith(es, other, n) ==> maxVoice + 1 <= n
  {
    LowestFreeIsProper(es, voices);
    assert ProperWith(es, voices, maxVoice + 1) by {
      assert forall j :: 0 <= j < |es| ==> voices[j] in voices;
    }
    forall i | 0 <= i < |es| ensures |Live(es, i)| + 1 <= maxVoice + 1 {
      NeedsVoices(es, voices, i, maxVoice + 1);
    }
    var i :| 0 <= i < |voices| && voices[i] == maxVoice;
    VoiceBound(es, voices, i);
    forall other, n | ProperWith(es, other, n) ensures maxVoice + 1 <= n {
      NeedsVoices(es, other, i, n);
    }
  }

  // ----- the loop

  /** The lowest voice not in `busy`. */
  method LowestFreeVoice(active: map<nat, int>) returns (v: nat)
    ensures v !in active && forall w: nat :: w < v ==> w in active
  {
    v := 0;
    ghost var above := active.Keys;
    while v in active
      invariant forall w: nat :: w < v ==> w in active
      invariant forall w: nat :: w in above <==> w in active && w >= v
      decreases above
    {
      above := above - {v};
      v := v + 1;
    }
  }

  /** `active` holds, for each line not yet over at time `t`, its voice and end, and nothing else. */
  ghost predicate Tracks(es: seq<Entry>, voices: seq<nat>, active: map<nat, int>, i: nat, t: int)
    requires i <= |voices| && i <= |es|
  {
    && (forall j :: 0 <= j < i && Until(es, j) > t ==> voices[j] in active && active[voices[j]] == Until(es, j))
    && (forall v :: v in active && active[v] > t ==>
          exists j :: 0 <= j < i && voices[j] == v && Until(es, j) == active[v])
  }

  lemma PrunedIsLive(es: seq<Entry>, voices: seq<nat>, before: map<nat, int>, active: map<nat, int>, i: nat)
    requires i < |es| && |voices| == i && Tracks(es, voices, before, i, es[i].startMs)
    requires active == map v | v in before && before[v] > es[i].startMs :: before[v]
    ensures active.Keys == LiveVoices(es, voices, i)
  {
    forall v | v in active.Keys ensures v in LiveVoices(es, voices, i) {
      var j :| 0 <= j < i && voices[j] == v && Until(es, j) == before[v];
      assert j in Live(es, i);
    }
  }

  lemma SameLiveVoices(es: seq<Entry>, voices: seq<nat>, v: nat, j: nat)
    requires j < |es| && j <= |voices|
    ensures LiveVoices(es, voices + [v], j) == LiveVoices(es, voices, j)
  {
    var longer := voices + [v];
    assert forall k :: k in Live(es, j) ==> longer[k] == voices[k];
  }

  lemma FreeStep(es: seq<Entry>, voices: seq<nat>, before: map<nat, int>, active: map<nat, int>, i: nat, v: nat)
    requires i < |es| && |voices| == i && Tracks(es, voices, before, i, es[i].startMs)
    requires forall j :: 0 <= j < i ==> LowestFreeAt(es, voices, j)
    requires active == map w | w in before && before[w] > es[i].startMs :: before[w]
    requires v !in active && forall w: nat :: w < v ==> w in active
    ensures forall j :: 0 <= j <= i ==> LowestFreeAt(es, voices + [v], j)
  {
    PrunedIsLive(es, voices, before, active, i);
    hide Tracks;
    hide LiveVoices;
    forall j | 0 <= j <= i ensures LowestFreeAt(es, voices + [v], j) {
      SameLiveVoices(es, voices, v, j);
      if j < i { assert LowestFreeAt(es, voices, j); }
    }
  }

  lemma TracksStep(es: seq<Entry>, voices: seq<nat>, before: map<nat, int>, active: map<nat, int>, i: nat, v: nat)
    requires StartOrdered(es) && i + 1 < |es| && |voices| == i && Tracks(es, voices, before, i, es[i].startMs)
    requires active == map w | w in before && before[w] > es[i].startMs :: before[w]
    requires v !in active
    ensures Tracks(es, voices + [v], active[v := Until(es, i)], i + 1, es[i + 1].startMs)
  {
    hide Until;
    var voices', active' := voices + [v], active[v := Until(es, i)];
    forall w | w in active' && active'[w] > es[i + 1].startMs
      ensures exists j :: 0 <= j < i + 1 && voices'[j] == w && Until(es, j) == active'[w]
    {
      if w == v {
        assert voices'[i] == w;
      } else {
        var j :| 0 <= j < i && voices[j] == w && Until(es, j) == before[w];
        assert voices'[j] == w;
      }
    }
    forall j | 0 <= j < i + 1 && Until(es, j) > es[i + 1].startMs
      ensures voices'[j] in active' && active'[voices'[j]] == Until(es, j)
    {
      if j < i { assert voices[j] in active; }
    }
  }

  /** Gives every line its voice: drop the voices that are over, take the lowest free one. */
  method AssignVoices(es: seq<Entry>) returns (voices: seq<nat>, maxVoice: int)
    ensures |voices| == |es|
    ensures StartOrdered(es) ==> LowestFree(es, voices)
    ensures maxVoice == -1 <==> es == []
    ensures es != [] ==> maxVoice in voices
    ensures forall v :: v in voices ==> v <= maxVoice
  {
    hide LowestFreeAt;
    hide StartOrdered;
    voices, maxVoice := [], -1;
    var active: map<nat, int> := map[];
    for i := 0 to |es|
      invariant |voices| == i && -1 <= maxVoice
      invariant i == 0 <==> maxVoice == -1
      invariant i > 0 ==> maxVoice in voices
      invariant forall v :: v in voices ==> v <= maxVoice
      invariant StartOrdered(es) ==> forall j :: 0 <= j < i ==> LowestFreeAt(es, voices, j)
      invariant StartOrdered(es) && i < |es| ==> Tracks(es, voices, active, i, es[i].startMs)
    {
      ghost var before := active;
      active := map v | v in active && active[v] > es[i].startMs :: active[v];
      var v := LowestFreeVoice(active);
      if StartOrdered(es) {
        FreeStep(es, voices, before, active, i, v);
        if i + 1 < |es| { TracksStep(es, voices, before, active, i, v); }
      }
      maxVoice := Max(maxVoice, v);
      voices := voices + [v];
      active := active[v := Until(es, i)];
    }
  }

  // ----- words and lines

  function Texts(ws: seq<Word>): Bytes {
    if ws == [] then [] else Texts(ws[..|ws| - 1]) + ws[|ws| - 1].text
  }

  lemma {:induction false} TextsSplit(ws: seq<Word>, i: nat)
    requires i < |ws|
    ensures |Texts(ws[..i])| + |ws[i].text| <= |Texts(ws)|
    ensures Texts(ws)[|Texts(ws[..i])|..|Texts(ws[..i])| + |ws[i].text|] == ws[i].text
  {
    var n := |ws| - 1;
    if i < n {
      TextsSplit(ws[..n], i);
      assert ws[..n][..i] == ws[..i];
    }
  }

  function WordEnd(ws: seq<Word>, i: nat): Option<int>
    requires i < |ws|
  {
    if ws[i].endMs.Some? then ws[i].endMs else if i + 1 < |ws| then Some(ws[i + 1].startMs) else None
  }

  /** Word `i`'s cue but for its end: its start, and its place in the line made of the words joined together. */
  ghost predicate PlacedCue(ws: seq<Word>, i: nat, agent: AgentId, c: Cue)
    requires i < |ws|
  {
    && c.start == Some(ws[i].startMs) && c.value == ws[i].text && c.agent == agent
    && c.byteStart == |Texts(ws[..i])|
    && c.byteEnd == c.byteStart + Max(|ws[i].text| - 1, 0)
  }

  ghost predicate IsWordCue(ws: seq<Word>, i: nat, agent: AgentId, c: Cue)
    requires i < |ws|
  {
    PlacedCue(ws, i, agent, c) && c.end == WordEnd(ws, i)
  }

  /**
   A non-empty word's cue cuts exactly the word out of the line. An empty word's inclusive range takes in
   a byte that is not the word's, so it never does.
   */
  lemma WordCueCuts(ws: seq<Word>, i: nat, agent: AgentId, c: Cue)
    requires i < |ws| && PlacedCue(ws, i, agent, c)
    ensures ws[i].text != [] ==> Cuts(Texts(ws), c)
    ensures ws[i].text == [] ==> !Cuts(Texts(ws), c)
  {
    if ws[i].text != [] {
      TextsSplit(ws, i);
    }
  }

  method JoinWords(ws: seq<Word>) returns (value: Bytes)
    ensures value == Texts(ws)
  {
    value := [];
    for i := 0 to |ws|
      invariant value == Texts(ws[..i])
    {
      assert ws[..i + 1][..i] == ws[..i];
      value := value + ws[i].text;
    }
    assert ws[..|ws|] == ws;
  }

  lemma PlacedHere(ws: seq<Word>, i: nat, agent: AgentId, c: Cue)
    requires i < |ws| && c.start == Some(ws[i].startMs) && c.value == ws[i].text && c.agent == agent
    requires c.byteStart == |Texts(ws[..i])| && c.byteEnd == c.byteStart + Max(|ws[i].text| - 1, 0)
    ensures PlacedCue(ws, i, agent, c)
  {}

  method PlaceCues(ws: seq<Word>, agent: AgentId) returns (cues: seq<Cue>)
    ensures |cues| == |ws|
    ensures forall j :: 0 <= j < |ws| ==> PlacedCue(ws, j, agent, cues[j]) && cues[j].end == ws[j].endMs
  {
    hide PlacedCue;
    cues := [];
    var cursor := 0;
    for i := 0 to |ws|
      invariant |cues| == i && cursor == |Texts(ws[..i])|
      invariant forall j :: 0 <= j < i ==> PlacedCue(ws, j, agent, cues[j]) && cues[j].end == ws[j].endMs
    {
      assert ws[..i + 1][..i] == ws[..i];
      var bs, be := cursor, cursor;
      if |ws[i].text| > 0 {
        be := bs + |ws[i].text| - 1;
        cursor := be + 1;
      }
      var cue := Cue(Some(ws[i].startMs), ws[i].endMs, ws[i].text, bs, be, agent);
      PlacedHere(ws, i, agent, cue);
      cues := cues + [cue];
    }
  }

  method FillWordEnds(ws: seq<Word>, agent: AgentId, placed: seq<Cue>) returns (cues: seq<Cue>)
    requires |placed| == |ws|
    requires forall j :: 0 <= j < |ws| ==> PlacedCue(ws, j, agent, placed[j]) && placed[j].end == ws[j].endMs
    ensures |cues| == |ws| && forall j :: 0 <= j < |ws| ==> IsWordCue(ws, j, agent, cues[j])
  {
    cues := placed;
    for i := 0 to Max(|cues| - 1, 0)
      invariant |cues| == |ws|
      invariant forall j :: 0 <= j < i ==> IsWordCue(ws, j, agent, cues[j])
      invariant forall j :: i <= j < |ws| ==> cues[j] == placed[j]
    {
      if cues[i].end == None && cues[i + 1].start != None {
        cues := cues[i := cues[i].(end := cues[i + 1].start)];
      }
    }
  }

  method WordsToLineCues(e: Entry, agent: AgentId) returns (cues: seq<Cue>, value: Bytes)
    ensures value == if e.words == [] then e.text else Texts(e.words)
    ensures |cues| == |e.words|
    ensures forall i :: 0 <= i < |cues| ==> IsWordCue(e.words, i, agent, cues[i])
    ensures forall i :: 0 <= i < |cues| ==>
              CueOf(e.words, i, agent, cues[i]) && (e.words[i].text != [] ==> Cuts(value, cues[i]))
    ensures e.words != [] ==> InARow(e.words, cues, |value|)
  {
    if e.words == [] { return [], e.text; }
    value := JoinWords(e.words);
    cues := PlaceCues(e.words, agent);
    cues := FillWordEnds(e.words, agent, cues);
    WordCuesMean(e.words, agent, cues);
  }

  /** What a word's cue says, from the words alone. */
  ghost predicate CueOf(ws: seq<Word>, i: nat, agent: AgentId, c: Cue)
    requires i < |ws|
  {
    && c.start == Some(ws[i].startMs) && c.value == ws[i].text && c.agent == agent
    && (ws[i].endMs.Some? ==> c.end == ws[i].endMs)
    && (ws[i].endMs.None? && i + 1 < |ws| ==> c.end == Some(ws[i + 1].startMs))
    && (ws[i].endMs.None? && i + 1 == |ws| ==> c.end == None)
  }

  /** The words follow one another from byte 0 to byte `size`, with nothing in between. */
  ghost predicate InARow(ws: seq<Word>, cues: seq<Cue>, size: nat) {
    && |cues| == |ws| > 0 && cues[0].byteStart == 0
    && (forall i :: 0 <= i < |ws| - 1 ==> cues[i + 1].byteStart == cues[i].byteStart + |ws[i].text|)
    && size == cues[|ws| - 1].byteStart + |ws[|ws| - 1].text|
  }

  lemma TextsNext(ws: seq<Word>, i: nat)
    requires i < |ws|
    ensures |Texts(ws[..i + 1])| == |Texts(ws[..i])| + |ws[i].text|
  {
    assert ws[..i + 1][..i] == ws[..i];
  }

  /** Each word's cue has its times and cuts its text out of the line, and the cues follow one another. */
  lemma WordCuesMean(ws: seq<Word>, agent: AgentId, cues: seq<Cue>)
    requires |cues| == |ws| && forall i :: 0 <= i < |ws| ==> IsWordCue(ws, i, agent, cues[i])
    ensures forall i :: 0 <= i < |cues| ==>
              CueOf(ws, i, agent, cues[i]) && (ws[i].text != [] ==> Cuts(Texts(ws), cues[i]))
    ensures ws != [] ==> InARow(ws, cues, |Texts(ws)|)
  {
    assert Texts(ws[..0]) == [];
    hide Texts;
    forall i | 0 <= i < |cues|
      ensures CueOf(ws, i, agent, cues[i]) && (ws[i].text != [] ==> Cuts(Texts(ws), cues[i]))
    {
      WordCueCuts(ws, i, agent, cues[i]);
    }
    forall i | 0 <= i < |ws| ensures |Texts(ws[..i + 1])| == cues[i].byteStart + |ws[i].text| { TextsNext(ws, i); }
    assert ws[..|ws|] == ws;
  }

  /** The line of entry `i`: its timing, its text, and its words' cues under one agent. */
  ghost predicate IsLine(es: seq<Entry>, i: nat, agent: AgentId, line: Line)
    requires i < |es|
  {
    && line.start == Some(es[i].startMs) && line.end == EndOf(es, i)
    && line.value == (if es[i].words == [] then es[i].text else Texts(es[i].words))
    && |line.cues| == |es[i].words|
    && forall j :: 0 <= j < |line.cues| ==> IsWordCue(es[i].words, j, agent, line.cues[j])
  }

  function Unattribute(cues: seq<Cue>): (r: seq<Cue>)
    ensures |r| == |cues| && forall i :: 0 <= i < |cues| ==> r[i] == cues[i].(agent := Unattributed)
  {
    seq(|cues|, i requires 0 <= i < |cues| => cues[i].(agent := Unattributed))
  }

  lemma StrippedLine(es: seq<Entry>, i: nat, agent: AgentId, line: Line, stripped: seq<Cue>)
    requires i < |es| && IsLine(es, i, agent, line) && stripped == Unattribute(line.cues)
    ensures IsLine(es, i, Unattributed, line.(cues := stripped))
  {}

  function VoiceAgents(n: nat): (agents: seq<Agent>)
    ensures |agents| == n
    ensures forall v :: 0 <= v < n ==> agents[v] == Agent(Voice(v), if v == 0 then "main" else "voice")
  {
    seq(n, v requires 0 <= v => Agent(Voice(v), if v == 0 then "main" else "voice"))
  }

  /** Lines have the ends their entries give them, and overlap only under different voices. */
  lemma LineEnds(es: seq<Entry>, voices: seq<nat>, lines: seq<Line>)
    requires |lines| == |voices| == |es| && (StartOrdered(es) ==> LowestFree(es, voices))
    requires forall i :: 0 <= i < |es| ==> lines[i].end == EndOf(es, i)
    ensures forall i :: 0 <= i < |es| ==> EndsAt(es, i, lines[i].end)
    ensures (forall i, j :: 0 <= i < j < |es| ==> es[i].startMs <= es[j].startMs) ==>
              forall i, j :: 0 <= i < j < |es| && lines[i].end.Some? && lines[i].end.value > es[j].startMs
                ==> voices[i] != voices[j]
  {
    forall i | 0 <= i < |es| ensures EndsAt(es, i, lines[i].end) { EndMeans(es, i); }
    if StartOrdered(es) { LowestFreeIsProper(es, voices); }
  }

  method EntryLines(es: seq<Entry>, voices: seq<nat>) returns (lines: seq<Line>, anyCues: bool)
    requires |voices| == |es|
    ensures |lines| == |es|
    ensures forall j :: 0 <= j < |es| ==> IsLine(es, j, Voice(voices[j]), lines[j]) && lines[j].end == EndOf(es, j)
    ensures anyCues <==> exists e :: e in es && e.words != []
  {
    anyCues, lines := false, [];
    for i := 0 to |es|
      invariant |lines| == i
      invariant anyCues <==> exists j :: 0 <= j < i && es[j].words != []
      invariant forall j :: 0 <= j < i ==> IsLine(es, j, Voice(voices[j]), lines[j]) && lines[j].end == EndOf(es, j)
    {
      var cues, value := WordsToLineCues(es[i], Voice(voices[i]));
      if |cues| > 0 { anyCues := true; }
      var line := Line(Some(es[i].startMs), EndOf(es, i), value, cues);
      assert IsLine(es, i, Voice(voices[i]), line);
      hide *;
      lines := lines + [line];
    }
  }

  method StripAgents(es: seq<Entry>, voices: seq<nat>, given: seq<Line>) returns (lines: seq<Line>)
    requires |given| == |voices| == |es|
    requires forall j :: 0 <= j < |es| ==> IsLine(es, j, Voice(voices[j]), given[j])
    ensures |lines| == |es|
    ensures forall j :: 0 <= j < |es| ==> IsLine(es, j, Unattributed, lines[j]) && lines[j].end == given[j].end
  {
    hide *;
    lines := given;
    for i := 0 to |lines|
      invariant |lines| == |es|
      invariant forall j :: 0 <= j < i ==> IsLine(es, j, Unattributed, lines[j])
      invariant forall j :: i <= j < |es| ==> IsLine(es, j, Voice(voices[j]), lines[j])
      invariant forall j :: 0 <= j < |es| ==> lines[j].end == given[j].end
    {
      var stripped := Unattribute(lines[i].cues);
      StrippedLine(es, i, Voice(voices[i]), lines[i], stripped);
      lines := lines[i := lines[i].(cues := stripped)];
    }
  }

  /**
   The parsed lines. Their cues name their voice, and the voices are declared, exactly when more than
   one voice is used and some line has cues; otherwise there are no agents at all.
   */
  method BuildLines(es: seq<Entry>) returns (lines: seq<Line>, agents: seq<Agent>, ghost voices: seq<nat>)
    ensures |lines| == |voices| == |es|
    ensures forall i :: 0 <= i < |es| ==> EndsAt(es, i, lines[i].end)
    ensures (forall i, j :: 0 <= i < j < |es| ==> es[i].startMs <= es[j].startMs) ==>
              forall i, j :: 0 <= i < j < |es| && lines[i].end.Some? && lines[i].end.value > es[j].startMs
                ==> voices[i] != voices[j]
    ensures StartOrdered(es) ==> LowestFree(es, voices)
    ensures agents == [] <==> (forall v :: v in voices ==> v == 0) || (forall e :: e in es ==> e.words == [])
    ensures agents == [] ==> forall i :: 0 <= i < |es| ==> IsLine(es, i, Unattributed, lines[i])
    ensures agents != [] ==> forall i :: 0 <= i < |es| ==> IsLine(es, i, Voice(voices[i]), lines[i])
    ensures agents != [] ==>
              agents == VoiceAgents(|agents|) && |agents| - 1 in voices && forall v :: v in voices ==> v < |agents|
  {
    hide *;
    var chosen, maxVoice := AssignVoices(es);
    voices := chosen;
    var anyCues;
    lines, anyCues := EntryLines(es, chosen);
    if maxVoice <= 0 || !anyCues {
      lines := StripAgents(es, chosen, lines);
      LineEnds(es, chosen, lines);
      return lines, [], voices;
    }
    LineEnds(es, chosen, lines);
    agents := VoiceAgents(maxVoice + 1);
  }
}
