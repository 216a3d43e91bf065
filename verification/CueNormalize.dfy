/** Cue ends are resolved group by group: filled, clamped, and kept only if the whole group has one. */
module CueNormalize {
  import opened Common
  import opened LyricsModel

  // ----- one group

  function NextStart(cues: seq<Cue>, i: nat): Option<int> {
    if i + 1 < |cues| then cues[i + 1].start else None
  }

  /** The end of cue `i`: its own, else the next start, else the fallback; cut at the next start, not before its own. */
  function ResolvedEnd(cues: seq<Cue>, fallback: Option<int>, i: nat): Option<int>
    requires i < |cues|
  {
    var next, start := NextStart(cues, i), cues[i].start;
    var filled := if cues[i].end.Some? then cues[i].end else if next.Some? then next else fallback;
    var cut := if filled.Some? && next.Some? && filled.value > next.value then next else filled;
    if cut.Some? && start.Some? && cut.value < start.value then start else cut
  }

  ghost predicate AllResolved(cues: seq<Cue>, fallback: Option<int>) {
    forall i :: 0 <= i < |cues| ==> ResolvedEnd(cues, fallback, i).Some?
  }

  ghost function Normalized(cues: seq<Cue>, fallback: Option<int>): (out: seq<Cue>)
    ensures |out| == |cues|
    ensures forall i :: 0 <= i < |cues| ==>
              out[i] == cues[i].(end := if AllResolved(cues, fallback) then ResolvedEnd(cues, fallback, i) else None)
  {
    seq(|cues|, i requires 0 <= i < |cues| =>
      cues[i].(end := if AllResolved(cues, fallback) then ResolvedEnd(cues, fallback, i) else None))
  }

  /** Fills and clamps the ends one by one. */
  method ResolveEnds(cues: seq<Cue>, fallback: Option<int>) returns (out: seq<Cue>)
    ensures |out| == |cues|
    ensures forall j :: 0 <= j < |cues| ==> out[j] == cues[j].(end := ResolvedEnd(cues, fallback, j))
  {
    out := cues;
    for i := 0 to |out|
      invariant |out| == |cues|
      invariant forall j :: 0 <= j < i ==> out[j] == cues[j].(end := ResolvedEnd(cues, fallback, j))
      invariant forall j :: i <= j < |cues| ==> out[j] == cues[j]
    {
      var end := out[i].end;
      if end == None {
        if i + 1 < |out| && out[i + 1].start != None { end := out[i + 1].start; } else { end := fallback; }
      }
      if end != None && i + 1 < |out| && out[i + 1].start != None && end.value > out[i + 1].start.value {
        end := out[i + 1].start;
      }
      if end != None && out[i].start != None && end.value < out[i].start.value {
        end := out[i].start;
      }
      assert end == ResolvedEnd(cues, fallback, i);
      hide ResolvedEnd;
      out := out[i := out[i].(end := end)];
    }
  }

  method NormalizeCueEnds(cues: seq<Cue>, fallback: Option<int>) returns (out: seq<Cue>)
    ensures out == Normalized(cues, fallback)
  {
    hide ResolvedEnd;
    if cues == [] { return cues; }
    out := ResolveEnds(cues, fallback);
    for i := 0 to |out|
      invariant forall j :: 0 <= j < i ==> out[j].end.Some?
    {
      if out[i].end == None {
        assert ResolvedEnd(cues, fallback, i) == None;
        return seq(|out|, j requires 0 <= j < |out| => out[j].(end := None));
      }
    }
    assert AllResolved(cues, fallback);
  }

  /** Ends are all there or all gone. They are gone exactly when some cue has nothing to end it. */
  lemma AllOrNone(cues: seq<Cue>, fallback: Option<int>)
    ensures var out := Normalized(cues, fallback);
            (forall i :: 0 <= i < |out| ==> out[i].end.Some?) || (forall i :: 0 <= i < |out| ==> out[i].end.None?)
    ensures (exists i :: 0 <= i < |cues| && Normalized(cues, fallback)[i].end.None?) <==>
            (exists i :: 0 <= i < |cues| && cues[i].end.None? && NextStart(cues, i).None? && fallback.None?)
  {
    if i :| 0 <= i < |cues| && cues[i].end.None? && NextStart(cues, i).None? && fallback.None? {
      assert ResolvedEnd(cues, fallback, i).None?;
      assert Normalized(cues, fallback)[i].end.None?;
    }
    if i :| 0 <= i < |cues| && Normalized(cues, fallback)[i].end.None? {
      var j :| 0 <= j < |cues| && ResolvedEnd(cues, fallback, j).None?;
      assert cues[j].end.None? && NextStart(cues, j).None? && fallback.None?;
    }
  }

  /** No end precedes its own start, nor passes the next start unless the starts themselves are out of order. */
  lemma EndsInPlace(cues: seq<Cue>, fallback: Option<int>, i: nat)
    requires i < |cues| && Normalized(cues, fallback)[i].end.Some?
    ensures var end := Normalized(cues, fallback)[i].end.value;
            && (cues[i].start.Some? ==> cues[i].start.value <= end)
            && (i + 1 < |cues| && cues[i + 1].start.Some?
                && (cues[i].start.Some? ==> cues[i].start.value <= cues[i + 1].start.value)
                ==> end <= cues[i + 1].start.value)
  {}

  /** Where an end comes from: the cue's own end in its place, else the next start, else the fallback. */
  lemma EndSource(cues: seq<Cue>, fallback: Option<int>, i: nat, end: int)
    requires i < |cues| && Normalized(cues, fallback)[i].end == Some(end)
    ensures var own, next, start := cues[i].end, NextStart(cues, i), cues[i].start;
            var wanted := if own.Some? then own else if next.Some? then next else fallback;
            && wanted.Some?
            && ((start.Some? ==> start.value <= wanted.value) && (next.Some? ==> wanted.value <= next.value)
                ==> end == wanted.value)
            && (start.None? && next.Some? ==> end == if wanted.value < next.value then wanted.value else next.value)
            && (start.Some? ==>
                  var cut := if next.Some? && next.value < wanted.value then next.value else wanted.value;
                  end == if cut < start.value then start.value else cut)
  {}

  /** Resolving a resolved end again changes nothing. */
  lemma ResolvedAgain(cues: seq<Cue>, fallback: Option<int>, i: nat)
    requires i < |cues|
    ensures var out := Normalized(cues, fallback);
            AllResolved(cues, fallback) ==> ResolvedEnd(out, fallback, i) == ResolvedEnd(cues, fallback, i)
    ensures var out := Normalized(cues, fallback);
            !AllResolved(cues, fallback) && ResolvedEnd(cues, fallback, i).None? ==> ResolvedEnd(out, fallback, i).None?
  {
    assert NextStart(Normalized(cues, fallback), i) == NextStart(cues, i);
  }

  /** Normalising a group twice is normalising it once. */
  lemma NormalizeIdempotent(cues: seq<Cue>, fallback: Option<int>)
    ensures Normalized(Normalized(cues, fallback), fallback) == Normalized(cues, fallback)
  {
    var out := Normalized(cues, fallback);
    forall i | 0 <= i < |cues|
      ensures AllResolved(cues, fallback) ==> ResolvedEnd(out, fallback, i) == ResolvedEnd(cues, fallback, i)
    {
      ResolvedAgain(cues, fallback, i);
    }
    if !AllResolved(cues, fallback) {
      var i :| 0 <= i < |cues| && ResolvedEnd(cues, fallback, i).None?;
      ResolvedAgain(cues, fallback, i);
      assert !AllResolved(out, fallback);
    }
  }

  // ----- several agents in one line

  /** The positions of an agent's cues. */
  function Indices(cues: seq<Cue>, a: AgentId): seq<int> {
    if cues == [] then []
    else var n := |cues| - 1; Indices(cues[..n], a) + if cues[n].agent == a then [n] else []
  }

  ghost predicate Indexes(cues: seq<Cue>, a: AgentId, idx: seq<int>) {
    && (forall g :: 0 <= g < |idx| ==> 0 <= idx[g] < |cues| && cues[idx[g]].agent == a)
    && (forall g, h :: 0 <= g < h < |idx| ==> idx[g] < idx[h])
    && (forall p :: 0 <= p < |cues| && cues[p].agent == a ==> p in idx)
  }

  lemma {:induction false} InIndices(cues: seq<Cue>, a: AgentId, p: int)
    ensures p in Indices(cues, a) <==> 0 <= p < |cues| && cues[p].agent == a
  {
    if cues != [] {
      InIndices(cues[..|cues| - 1], a, p);
    }
  }

  lemma {:induction false} IndicesIncrease(cues: seq<Cue>, a: AgentId, j: nat, k: nat)
    requires j < k < |Indices(cues, a)|
    ensures Indices(cues, a)[j] < Indices(cues, a)[k]
  {
    var rest := Indices(cues[..|cues| - 1], a);
    if k < |rest| {
      IndicesIncrease(cues[..|cues| - 1], a, j, k);
    } else {
      assert rest[j] in rest;
      InIndices(cues[..|cues| - 1], a, rest[j]);
    }
  }

  lemma IndicesIndex(cues: seq<Cue>, a: AgentId)
    ensures Indexes(cues, a, Indices(cues, a))
  {
    hide Indices;
    var idx := Indices(cues, a);
    forall g | 0 <= g < |idx| ensures 0 <= idx[g] < |cues| && cues[idx[g]].agent == a {
      assert idx[g] in idx;
      InIndices(cues, a, idx[g]);
    }
    forall g, h | 0 <= g < h < |idx| ensures idx[g] < idx[h] { IndicesIncrease(cues, a, g, h); }
    forall p | 0 <= p < |cues| && cues[p].agent == a ensures p in idx { InIndices(cues, a, p); }
  }

  /** The agent's cues, in order. */
  function Part(cues: seq<Cue>, a: AgentId): (r: seq<Cue>)
    ensures |r| == |Indices(cues, a)|
  {
    var idx := Indices(cues, a);
    IndicesIndex(cues, a);
    seq(|idx|, g requires 0 <= g < |idx| => cues[idx[g]])
  }

  /** Each agent's cues, read on their own, are that agent's normalised group. */
  ghost predicate NormalizedByAgent(cues: seq<Cue>, fallback: Option<int>, out: seq<Cue>) {
    && |out| == |cues|
    && (forall p :: 0 <= p < |cues| ==> out[p].agent == cues[p].agent)
    && forall a :: Part(out, a) == Normalized(Part(cues, a), fallback)
  }

  lemma {:induction false} SameIndices(a: seq<Cue>, b: seq<Cue>, agent: AgentId)
    requires |a| == |b| && forall p :: 0 <= p < |a| ==> a[p].agent == b[p].agent
    ensures Indices(a, agent) == Indices(b, agent)
  {
    if a != [] {
      SameIndices(a[..|a| - 1], b[..|b| - 1], agent);
    }
  }

  /** Cue lists with the same agents and the same parts are equal, so the specification has one answer. */
  lemma PartsDetermine(a: seq<Cue>, b: seq<Cue>)
    requires |a| == |b| && forall p :: 0 <= p < |a| ==> a[p].agent == b[p].agent
    requires forall agent :: Part(a, agent) == Part(b, agent)
    ensures a == b
  {
    forall p | 0 <= p < |a| ensures a[p] == b[p] {
      var agent := a[p].agent;
      SameIndices(a, b, agent);
      IndicesIndex(a, agent);
      var g :| 0 <= g < |Indices(a, agent)| && Indices(a, agent)[g] == p;
      assert Part(a, agent)[g] == a[p] && Part(b, agent)[g] == b[p];
    }
  }

  lemma ByAgentUnique(cues: seq<Cue>, fallback: Option<int>, a: seq<Cue>, b: seq<Cue>)
    requires NormalizedByAgent(cues, fallback, a) && NormalizedByAgent(cues, fallback, b)
    ensures a == b
  {
    PartsDetermine(a, b);
  }

  /** Normalising a line by agent twice is normalising it once. */
  lemma ByAgentIdempotent(cues: seq<Cue>, fallback: Option<int>, once: seq<Cue>, twice: seq<Cue>)
    requires NormalizedByAgent(cues, fallback, once) && NormalizedByAgent(once, fallback, twice)
    ensures twice == once
  {
    forall a ensures Part(twice, a) == Part(once, a) {
      NormalizeIdempotent(Part(cues, a), fallback);
    }
    PartsDetermine(twice, once);
  }

  ghost predicate GroupsOf(cues: seq<Cue>, i: nat, groups: map<AgentId, seq<int>>)
    requires i <= |cues|
  {
    forall a :: Indices(cues[..i], a) == if a in groups then groups[a] else []
  }

  lemma GroupStep(cues: seq<Cue>, i: nat, groups: map<AgentId, seq<int>>)
    requires i < |cues| && GroupsOf(cues, i, groups)
    ensures var id := cues[i].agent;
            GroupsOf(cues, i + 1, groups[id := (if id in groups then groups[id] else []) + [i]])
  {
    assert cues[..i + 1][..i] == cues[..i];
  }

  lemma GroupLookup(cues: seq<Cue>, groups: map<AgentId, seq<int>>, a: AgentId)
    requires GroupsOf(cues, |cues|, groups) && a in groups
    ensures groups[a] == Indices(cues, a)
  {
    assert cues[..|cues|] == cues;
  }

  ghost predicate Listed(order: seq<AgentId>, keys: set<AgentId>) {
    keys == set a | a in order
  }

  lemma ListedSnoc(order: seq<AgentId>, groups: map<AgentId, seq<int>>, a: AgentId, idx: seq<int>)
    requires Listed(order, groups.Keys)
    ensures Listed(if a in groups then order else order + [a], groups[a := idx].Keys)
  {}

  lemma GroupsStart(cues: seq<Cue>)
    ensures var none: map<AgentId, seq<int>> := map[]; GroupsOf(cues, 0, none) && Listed([], none.Keys)
  {}

  method GroupByAgent(cues: seq<Cue>) returns (groups: map<AgentId, seq<int>>, order: seq<AgentId>)
    ensures Listed(order, groups.Keys)
    ensures GroupsOf(cues, |cues|, groups)
    ensures forall p :: 0 <= p < |cues| ==> cues[p].agent in groups
  {
    hide GroupsOf;
    hide Listed;
    hide Indices;
    groups, order := map[], [];
    GroupsStart(cues);
    for i := 0 to |cues|
      invariant Listed(order, groups.Keys)
      invariant GroupsOf(cues, i, groups)
      invariant forall p :: 0 <= p < i ==> cues[p].agent in groups
    {
      GroupStep(cues, i, groups);
      var id := cues[i].agent;
      ListedSnoc(order, groups, id, (if id in groups then groups[id] else []) + [i]);
      if id !in groups {
        order := order + [id];
      }
      groups := groups[id := (if id in groups then groups[id] else []) + [i]];
    }
  }

  /** Writes a normalised group back to its positions. */
  method Scatter(out: seq<Cue>, idx: seq<int>, group: seq<Cue>) returns (r: seq<Cue>)
    requires |group| == |idx| && forall g :: 0 <= g < |idx| ==> 0 <= idx[g] < |out|
    requires forall g, h :: 0 <= g < h < |idx| ==> idx[g] < idx[h]
    ensures |r| == |out|
    ensures forall g :: 0 <= g < |idx| ==> r[idx[g]] == group[g]
    ensures forall p :: 0 <= p < |out| && p !in idx ==> r[p] == out[p]
  {
    r := out;
    for g := 0 to |idx|
      invariant |r| == |out|
      invariant forall h :: 0 <= h < g ==> r[idx[h]] == group[h]
      invariant forall p :: 0 <= p < |out| && p !in idx ==> r[p] == out[p]
    {
      r := r[idx[g] := group[g]];
    }
  }

  /** The agent's positions hold its normalised group. */
  ghost predicate Done(cues: seq<Cue>, fallback: Option<int>, out: seq<Cue>, a: AgentId) {
    && |out| == |cues|
    && var idx := Indices(cues, a);
       forall g :: 0 <= g < |idx| ==> 0 <= idx[g] < |out| && out[idx[g]] == Normalized(Part(cues, a), fallback)[g]
  }

  lemma DoneKeepsAgent(cues: seq<Cue>, fallback: Option<int>, out: seq<Cue>, p: nat)
    requires |out| == |cues| && p < |cues| && Done(cues, fallback, out, cues[p].agent)
    ensures out[p].agent == cues[p].agent
  {
    var a := cues[p].agent;
    IndicesIndex(cues, a);
    var g :| 0 <= g < |Indices(cues, a)| && Indices(cues, a)[g] == p;
    assert Part(cues, a)[g] == cues[p];
  }

  lemma DoneEverywhere(cues: seq<Cue>, fallback: Option<int>, out: seq<Cue>)
    requires |out| == |cues| && forall a :: Done(cues, fallback, out, a)
    ensures NormalizedByAgent(cues, fallback, out)
  {
    forall p | 0 <= p < |cues| ensures out[p].agent == cues[p].agent {
      DoneKeepsAgent(cues, fallback, out, p);
    }
    forall a ensures Part(out, a) == Normalized(Part(cues, a), fallback) {
      SameIndices(out, cues, a);
      assert Done(cues, fallback, out, a);
    }
  }

  lemma AllDone(cues: seq<Cue>, fallback: Option<int>, out: seq<Cue>, order: seq<AgentId>)
    requires |out| == |cues| && forall p :: 0 <= p < |cues| ==> cues[p].agent in order
    requires forall a :: a in order ==> Done(cues, fallback, out, a)
    ensures NormalizedByAgent(cues, fallback, out)
  {
    forall a ensures Done(cues, fallback, out, a) {
      IndicesIndex(cues, a);
      if Indices(cues, a) != [] { assert cues[Indices(cues, a)[0]].agent == a; }
    }
    DoneEverywhere(cues, fallback, out);
  }

  lemma {:induction false} WholePart(cues: seq<Cue>, a: AgentId)
    requires forall p :: 0 <= p < |cues| ==> cues[p].agent == a
    ensures |Indices(cues, a)| == |cues| && forall p :: 0 <= p < |cues| ==> Indices(cues, a)[p] == p
  {
    if cues != [] {
      WholePart(cues[..|cues| - 1], a);
    }
  }

  lemma SingleAgent(cues: seq<Cue>, fallback: Option<int>, a: AgentId)
    requires forall p :: 0 <= p < |cues| ==> cues[p].agent == a
    ensures NormalizedByAgent(cues, fallback, Normalized(cues, fallback))
  {
    WholePart(cues, a);
    assert Part(cues, a) == cues;
    AllDone(cues, fallback, Normalized(cues, fallback), [a]);
  }

  lemma AgentsListed(cues: seq<Cue>, groups: map<AgentId, seq<int>>, order: seq<AgentId>)
    requires Listed(order, groups.Keys) && forall p :: 0 <= p < |cues| ==> cues[p].agent in groups
    ensures forall p :: 0 <= p < |cues| ==> cues[p].agent in order
    ensures forall i :: 0 <= i < |order| ==> order[i] in groups
    ensures |order| <= 1 ==> forall p :: 0 <= p < |cues| ==> cues[p].agent == OnlyAgent(order)
  {}

  function OnlyAgent(order: seq<AgentId>): AgentId { if order == [] then Unattributed else order[0] }

  method NormalizeCueEndsByAgent(cues: seq<Cue>, fallback: Option<int>) returns (out: seq<Cue>)
    ensures NormalizedByAgent(cues, fallback, out)
  {
    var groups, order := GroupByAgent(cues);
    AgentsListed(cues, groups, order);
    hide *;
    if |order| <= 1 {
      out := NormalizeCueEnds(cues, fallback);
      SingleAgent(cues, fallback, OnlyAgent(order));
    } else {
      out := NormalizeGroups(cues, fallback, groups, order);
      AllDone(cues, fallback, out, order);
    }
  }

  /** One agent after the other, in the order of their first cues. */
  method NormalizeGroups(cues: seq<Cue>, fallback: Option<int>, groups: map<AgentId, seq<int>>, order: seq<AgentId>)
    returns (out: seq<Cue>)
    requires GroupsOf(cues, |cues|, groups) && forall i :: 0 <= i < |order| ==> order[i] in groups
    ensures |out| == |cues| && forall a :: a in order ==> Done(cues, fallback, out, a)
  {
    hide *;
    out := cues;
    for i := 0 to |order|
      invariant |out| == |cues|
      invariant forall a :: a in order[..i] ==> Done(cues, fallback, out, a)
    {
      GroupLookup(cues, groups, order[i]);
      out := NormalizeAgent(cues, fallback, out, order[i], groups[order[i]]);
      assert forall a :: a in order[..i + 1] ==> a in order[..i] || a == order[i];
    }
    assert order[..|order|] == order;
  }

  /** Normalises one agent's group and writes it back, leaving the finished groups of other agents alone. */
  method NormalizeAgent(cues: seq<Cue>, fallback: Option<int>, out: seq<Cue>, id: AgentId, idxs: seq<int>)
    returns (r: seq<Cue>)
    requires |out| == |cues| && idxs == Indices(cues, id)
    ensures |r| == |cues| && Done(cues, fallback, r, id)
    ensures forall a :: a != id && Done(cues, fallback, out, a) ==> Done(cues, fallback, r, a)
  {
    IndicesIndex(cues, id);
    var group := seq(|idxs|, g requires 0 <= g < |idxs| => cues[idxs[g]]);
    assert group == Part(cues, id);
    group := NormalizeCueEnds(group, fallback);
    r := Scatter(out, idxs, group);
    forall a | a != id && Done(cues, fallback, out, a) ensures Done(cues, fallback, r, a) {
      IndicesIndex(cues, a);
    }
  }
}
