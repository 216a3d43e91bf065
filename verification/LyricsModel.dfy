/** The lyrics records shared by the parsers: text is bytes, and a cue names an inclusive byte range of its line. */
module LyricsModel {
  import opened Common

  newtype byte = b: int | 0 <= b < 256

  type Bytes = seq<byte>

  datatype AgentId = Unattributed | Voice(n: nat) | Main | Background

  datatype Cue = Cue(start: Option<int>, end: Option<int>, value: Bytes, byteStart: int, byteEnd: int, agent: AgentId)

  datatype Line = Line(start: Option<int>, end: Option<int>, value: Bytes, cues: seq<Cue>)

  datatype Agent = Agent(id: AgentId, role: string)

  /** The cue's inclusive range cuts exactly its value out of the line. */
  predicate Cuts(line: Bytes, c: Cue) {
    0 <= c.byteStart <= c.byteEnd < |line| && line[c.byteStart..c.byteEnd + 1] == c.value
  }

  ghost predicate AllCut(line: Bytes, cues: seq<Cue>) {
    forall c :: c in cues ==> Cuts(line, c)
  }

  function Shift(c: Cue, offset: int): Cue {
    c.(byteStart := c.byteStart + offset, byteEnd := c.byteEnd + offset)
  }

  /** A cue keeps cutting its value when text is put around its line and its range moves along. */
  lemma CutsInside(left: Bytes, line: Bytes, right: Bytes, c: Cue)
    requires Cuts(line, c)
    ensures Cuts(left + line + right, Shift(c, |left|))
  {
    var whole := left + line + right;
    assert whole[|left| + c.byteStart..|left| + c.byteEnd + 1] == line[c.byteStart..c.byteEnd + 1];
  }

  lemma AllCutExtended(line: Bytes, right: Bytes, cues: seq<Cue>)
    requires AllCut(line, cues)
    ensures AllCut(line + right, cues)
  {
    forall c | c in cues ensures Cuts(line + right, c) {
      CutsInside([], line, right, c);
      assert [] + line + right == line + right;
    }
  }
}
