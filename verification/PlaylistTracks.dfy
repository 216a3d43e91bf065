/**
 The operations of an editable playlist as the programs of UPDATE, DELETE and INSERT statements they are.
 Each is proved to be a plain operation on the playlist's track sequence.
 */
module PlaylistTracks {
  import opened Common
  import opened PlaylistRows

  const SENTINEL := -999999
  const ADD_CHUNK := 200
  const DELETE_CHUNK := 200

  datatype Outcome = Done | NotFound | UniqueViolation

  // ----- what each operation means on the sequence of tracks

  function Clamp(p: int, last: int): int { Min(Max(p, 1), last) }

  function Moved(ts: seq<string>, pos: int, newPos: int): seq<string>
    requires 1 <= pos <= |ts| && 1 <= newPos <= |ts|
  {
    var rest := ts[..pos - 1] + ts[pos..];
    rest[..newPos - 1] + [ts[pos - 1]] + rest[newPos - 1..]
  }

  /** The shifted range passes over the position where the moved row is parked. */
  predicate Collides(pos: int, newPos: int, park: int) {
    (pos < newPos && pos < -park + 1 <= newPos) || (newPos < pos && newPos <= -park - 1 < pos)
  }

  predicate HitsSentinel(pos: int, newPos: int) { Collides(pos, newPos, SENTINEL) }

  /** No move inside a playlist of fewer than 999999 tracks meets the sentinel. */
  lemma ShortPlaylistsAreSafe(n: nat, pos: int, newPos: int)
    requires n < 999999 && 1 <= pos <= n && 1 <= newPos <= n
    ensures !HitsSentinel(pos, newPos)
  {}

  function Inserted(ts: seq<string>, ids: seq<string>, pos: int): seq<string> {
    var p := Min(Max(pos, 1) - 1, |ts|);
    ts[..p] + ids + ts[p..]
  }

  function Accessible(ids: seq<string>, readable: set<string>): seq<string> {
    Filter(ids, id => id in readable)
  }

  function Removed(ts: seq<string>, positions: seq<int>): seq<string> {
    KeptTracks(ts, Upto(1, |ts|), (e: Entry) => e.0 !in positions)
  }

  function Unorphaned(ts: seq<string>, library: set<string>): seq<string> {
    KeptTracks(ts, Upto(1, |ts|), (e: Entry) => e.1 in library)
  }

  type Lists = map<string, seq<string>>

  function Of(lists: Lists, pid: string): seq<string> { if pid in lists then lists[pid] else [] }

  function Swept(lists: Lists, library: set<string>): Lists {
    map pid | pid in lists :: Unorphaned(lists[pid], library)
  }

  datatype Op =
    | ReplaceAll(pid: string, ids: seq<string>, readable: set<string>)
    | Append(pid: string, ids: seq<string>, readable: set<string>)
    | InsertAt(pid: string, ids: seq<string>, pos: int, readable: set<string>)
    | DeleteAt(pid: string, positions: seq<int>)
    | Clear(pid: string)
    | Move(pid: string, pos: int, newPos: int)
    | Sweep(library: set<string>)

  function Applied(lists: Lists, op: Op): Lists {
    match op
    case ReplaceAll(pid, ids, readable) => lists[pid := Accessible(ids, readable)]
    case Append(pid, ids, readable) => lists[pid := Of(lists, pid) + Accessible(ids, readable)]
    case InsertAt(pid, ids, pos, readable) => lists[pid := Inserted(Of(lists, pid), Accessible(ids, readable), pos)]
    case DeleteAt(pid, positions) => lists[pid := Removed(Of(lists, pid), positions)]
    case Clear(pid) => lists[pid := []]
    case Move(pid, pos, newPos) =>
      var ts := Of(lists, pid);
      if pos < 1 || pos > |ts| || HitsSentinel(pos, Clamp(newPos, |ts|)) then lists
      else lists[pid := Moved(ts, pos, Clamp(newPos, |ts|))]
    case Sweep(library) => Swept(lists, library)
  }

  function AppliedAll(lists: Lists, ops: seq<Op>): Lists {
    if ops == [] then lists else Applied(AppliedAll(lists, ops[..|ops| - 1]), ops[|ops| - 1])
  }

  lemma OneListed(before: Rows, after: Rows, lists: Lists, pid: string, r: seq<string>)
    requires SameElsewhere(before, after, pid) && View(after, pid) == Layout(r)
    requires forall p :: View(before, p) == Layout(Of(lists, p))
    ensures forall p :: View(after, p) == Layout(Of(lists[pid := r], p))
  {
    hide View;
    hide Layout;
  }

  // ----- the same in plain words, on the two sequences alone

  /** `r` is those of `ids` that are readable, with order and repetitions kept. */
  ghost predicate ReadableOf(ids: seq<string>, readable: set<string>, r: seq<string>) {
    exists idx :: InOrder(ids, r, idx) && forall i :: 0 <= i < |ids| ==> (i in idx <==> ids[i] in readable)
  }

  /** The place a move asks for: its new position, or the nearest end of the playlist. */
  function Place(newPos: int, n: nat): int { if newPos < 1 then 1 else if newPos > n then n else newPos }

  /** `r` has the track of place `pos` at the place asked for, and the others in their old order. */
  ghost predicate MovedTo(ts: seq<string>, pos: int, newPos: int, r: seq<string>) {
    && 1 <= pos <= |ts| && |r| == |ts|
    && var p := Place(newPos, |ts|);
       r[p - 1] == ts[pos - 1] && r[..p - 1] + r[p..] == ts[..pos - 1] + ts[pos..]
  }

  /** `r` is `ts` without the tracks at the given positions, in order. */
  ghost predicate WithoutPositions(ts: seq<string>, positions: seq<int>, r: seq<string>) {
    exists idx :: InOrder(ts, r, idx) && forall i :: 0 <= i < |ts| ==> (i in idx <==> i + 1 !in positions)
  }

  /** `a` put before position `pos`, or at the nearest end. */
  function PutBefore(ts: seq<string>, a: seq<string>, pos: int): seq<string> {
    if pos <= 1 then a + ts else if pos > |ts| then ts + a else ts[..pos - 1] + a + ts[pos - 1..]
  }

  /** The move that is asked for: one inside the playlist that does not cross the 999999th place. */
  ghost predicate MoveEffect(ts: seq<string>, pos: int, newPos: int, r: seq<string>) {
    var p := Place(newPos, |ts|);
    if 1 <= pos <= |ts| && !(pos < 1000000 <= p) && !(p < 999999 <= pos) then MovedTo(ts, pos, newPos, r) else r == ts
  }

  /** What the operation makes of a playlist: `ts` before, `r` after. */
  ghost predicate Effect(op: Op, pid: string, ts: seq<string>, r: seq<string>) {
    match op
    case ReplaceAll(p, ids, readable) => if p == pid then ReadableOf(ids, readable, r) else r == ts
    case Append(p, ids, readable) =>
      if p == pid then exists acc :: ReadableOf(ids, readable, acc) && r == ts + acc else r == ts
    case InsertAt(p, ids, pos, readable) =>
      if p == pid then exists acc :: ReadableOf(ids, readable, acc) && r == PutBefore(ts, acc, pos) else r == ts
    case DeleteAt(p, positions) => if p == pid then WithoutPositions(ts, positions, r) else r == ts
    case Clear(p) => if p == pid then r == [] else r == ts
    case Move(p, pos, newPos) => if p == pid then MoveEffect(ts, pos, newPos, r) else r == ts
    case Sweep(library) => ReadableOf(ts, library, r)
  }

  lemma AccessibleInOrder(ids: seq<string>, readable: set<string>)
    ensures ReadableOf(ids, readable, Accessible(ids, readable))
  {
    var idx := FilterPicks(ids, id => id in readable);
  }

  lemma MovedMeans(ts: seq<string>, pos: int, newPos: int)
    requires 1 <= pos <= |ts|
    ensures 1 <= Clamp(newPos, |ts|) <= |ts| && MovedTo(ts, pos, newPos, Moved(ts, pos, Clamp(newPos, |ts|)))
  {
    var p := Place(newPos, |ts|);
    var rest := ts[..pos - 1] + ts[pos..];
    assert rest[..p - 1] + rest[p - 1..] == rest;
    var r := Moved(ts, pos, p);
    assert r[..p - 1] == rest[..p - 1] && r[p..] == rest[p - 1..];
  }

  lemma RemovedMeans(ts: seq<string>, positions: seq<int>)
    ensures WithoutPositions(ts, positions, Removed(ts, positions))
  {
    var at, keep := Upto(1, |ts|), (e: Entry) => e.0 !in positions;
    var idx := KeptPicks(ts, at, keep);
    assert forall i :: 0 <= i < |ts| ==> (keep((at[i], ts[i])) <==> i + 1 !in positions);
    assert InOrder(ts, Removed(ts, positions), idx);
  }

  lemma UnorphanedMeans(ts: seq<string>, library: set<string>)
    ensures ReadableOf(ts, library, Unorphaned(ts, library))
  {
    var at, keep := Upto(1, |ts|), (e: Entry) => e.1 in library;
    var idx := KeptPicks(ts, at, keep);
    assert forall i :: 0 <= i < |ts| ==> (keep((at[i], ts[i])) <==> ts[i] in library);
    assert InOrder(ts, Unorphaned(ts, library), idx);
  }

  lemma InsertedMeans(ts: seq<string>, acc: seq<string>, pos: int)
    ensures Inserted(ts, acc, pos) == PutBefore(ts, acc, pos)
  {}

  /** Every operation does to every playlist what it says. */
  lemma AppliedMeans(lists: Lists, op: Op, pid: string)
    ensures Effect(op, pid, Of(lists, pid), Of(Applied(lists, op), pid))
  {
    hide MovedTo;
    hide Moved;
    hide Inserted;
    hide PutBefore;
    hide Accessible;
    hide ReadableOf;
    hide WithoutPositions;
    hide Removed;
    hide Unorphaned;
    var ts := Of(lists, pid);
    match op
    case Sweep(library) =>
      UnorphanedMeans(ts, library);
      NoneUnorphaned(library);
    case ReplaceAll(_, ids, readable) => AccessibleInOrder(ids, readable);
    case Append(_, ids, readable) => AccessibleInOrder(ids, readable);
    case InsertAt(_, ids, pos, readable) =>
      AccessibleInOrder(ids, readable);
      InsertedMeans(ts, Accessible(ids, readable), pos);
    case DeleteAt(_, positions) => RemovedMeans(ts, positions);
    case Clear(_) =>
    case Move(_, pos, newPos) => if 1 <= pos <= |ts| { MovedMeans(ts, pos, newPos); }
  }

  lemma NoneUnorphaned(library: set<string>)
    ensures Unorphaned([], library) == []
  {}

  lemma NoOrphans(rows: Rows, pid: string, ts: seq<string>, library: set<string>)
    requires View(rows, pid) == Layout(ts)
    requires forall r :: r in rows && rows[r].playlist == pid ==> rows[r].media in library
    ensures Unorphaned(ts, library) == ts
  {
    var at := Upto(1, |ts|);
    forall i | 0 <= i < |ts| ensures ts[i] in library {
      var r := ListedHasRow(rows, pid, ts, at, i);
    }
    KeptAll(ts, at, (e: Entry) => e.1 in library);
  }

  /** No entry lies in the `n` positions from `start`. */
  ghost predicate Free(view: set<Entry>, start: int, n: nat) {
    forall x :: x in view ==> !(start <= x.0 < start + n)
  }

  lemma FreePastEnd(ts: seq<string>, n: nat)
    ensures Free(Layout(ts), |ts| + 1, n)
  {}

  /** The next chunk of consecutive entries lands past the ones already there, on free positions. */
  lemma ChunkLands(view: set<Entry>, ts: seq<string>, start: int, done: nat, end: nat)
    requires done <= end <= |ts|
    ensures var seen := view + Listing(ts[..done], Upto(start, done));
            && view + Listing(ts[..end], Upto(start, end)) ==
               seen + Listing(ts[done..end], Upto(start + done, |ts[done..end]|))
            && (Free(view, start, |ts|) ==> Free(seen, start + done, |ts[done..end]|))
  {
    var chunk := ts[done..end];
    ListingConcat(ts[..done], Upto(start, done), chunk, Upto(start + done, |chunk|));
    assert ts[..end] == ts[..done] + chunk;
    assert Upto(start, end) == Upto(start, done) + Upto(start + done, |chunk|);
  }

  lemma NothingListed(rows: Rows, pid: string, start: int)
    ensures View(rows, pid) + Listing([], Upto(start, 0)) == View(rows, pid)
  {}

  /** A row met at the next position to insert was there from the start, so that position was not free. */
  lemma TakenPosition(view: set<Entry>, rows: Rows, pid: string, ids: seq<string>, start: int, i: nat, r: nat)
    requires i < |ids| && View(rows, pid) == view + Listing(ids[..i], Upto(start, i))
    requires r in rows && rows[r].playlist == pid && rows[r].pos == start + i
    ensures !Free(view, start, |ids|)
  {
    assert (rows[r].pos, rows[r].media) in View(rows, pid);
  }

  /** The positions 1..n with those from `from` on raised by `k`. */
  function Shifted(n: nat, from: int, k: nat): (at: seq<int>)
    ensures |at| == n
    ensures forall i :: 0 <= i < n ==> at[i] == if i + 1 >= from then i + 1 + k else i + 1
  {
    seq(n, i => if i + 1 >= from then i + 1 + k else i + 1)
  }

  lemma InsertedListing(ts: seq<string>, acc: seq<string>, from: int, k: nat, at: seq<int>)
    requires 1 <= from <= |ts| && |acc| <= k
    requires at == Upto(1, from - 1) + Upto(from, |acc|) + Upto(from + k, |ts| - from + 1)
    ensures Listing(ts, Shifted(|ts|, from, k)) + Listing(acc, Upto(from, |acc|)) ==
            Listing(Inserted(ts, acc, from), at)
    ensures Increasing(at) && forall p :: p in at ==> p > 0
  {
    var f := from - 1;
    var low, mid, high := Upto(1, f), Upto(from, |acc|), Upto(from + k, |ts| - f);
    ListingConcat(ts[..f], low, ts[f..], high);
    assert ts == ts[..f] + ts[f..] && Shifted(|ts|, from, k) == low + high;
    ListingConcat(ts[..f], low, acc, mid);
    ListingConcat(ts[..f] + acc, low + mid, ts[f..], high);
  }

  /** The positions after the first UPDATE of an insert: the tail shifted and negated. */
  function GapParked(n: nat, from: int, k: nat): (at: seq<int>)
    ensures |at| == n
    ensures forall i :: 0 <= i < n ==> at[i] == if i + 1 >= from then -(i + 1 + k) else i + 1
  {
    seq(n, i => if i + 1 >= from then -(i + 1 + k) else i + 1)
  }

  lemma GapSteps(n: nat, from: int, k: nat)
    ensures Step(Upto(1, n), GapParked(n, from, k)) && Step(GapParked(n, from, k), Shifted(n, from, k))
  {}

  function Negated(at: seq<int>): (r: seq<int>)
    ensures |r| == |at| && forall i :: 0 <= i < |at| ==> r[i] == -at[i]
  {
    seq(|at|, i requires 0 <= i < |at| => -at[i])
  }

  lemma RenumberSteps(at: seq<int>)
    requires Increasing(at) && forall p :: p in at ==> p > 0
    ensures Step(at, Negated(at)) && Step(Negated(at), Upto(1, |at|))
    ensures forall i :: 0 <= i < |at| ==> at[i] > 0
  {
    assert forall i :: 0 <= i < |at| ==> at[i] in at;
  }

  /** The positions after each of the four UPDATEs of a reorder. */
  function Parked(n: nat, pos: int, park: int): (at: seq<int>)
    ensures |at| == n && forall i :: 0 <= i < n ==> at[i] == if i + 1 == pos then park else i + 1
  {
    seq(n, i => if i + 1 == pos then park else i + 1)
  }

  /** Where the track at position p ends up while the one at `pos` is parked. */
  function Slid(p: int, pos: int, to: int): int {
    if pos < p <= to then p - 1 else if to <= p < pos then p + 1 else p
  }

  function TurnedFrom(p: int, pos: int, to: int, park: int): int {
    if p == pos then park else if Slid(p, pos, to) != p then -Slid(p, pos, to) else p
  }

  function Turned(n: nat, pos: int, to: int, park: int): (at: seq<int>)
    ensures |at| == n && forall i :: 0 <= i < n ==> at[i] == TurnedFrom(i + 1, pos, to, park)
  {
    seq(n, i => TurnedFrom(i + 1, pos, to, park))
  }

  function Flipped(n: nat, pos: int, to: int, park: int): (at: seq<int>)
    ensures |at| == n && forall i :: 0 <= i < n ==> at[i] == if i + 1 == pos then park else Slid(i + 1, pos, to)
  {
    seq(n, i => if i + 1 == pos then park else Slid(i + 1, pos, to))
  }

  function Placed(n: nat, pos: int, to: int): (at: seq<int>)
    ensures |at| == n && forall i :: 0 <= i < n ==> at[i] == if i + 1 == pos then to else Slid(i + 1, pos, to)
  {
    seq(n, i => if i + 1 == pos then to else Slid(i + 1, pos, to))
  }

  lemma ParkStep(n: nat, pos: int, park: int)
    requires park < 0
    ensures Step(Upto(1, n), Parked(n, pos, park))
  {}

  lemma TurnStep(n: nat, pos: int, to: int, park: int)
    requires park < 0 && 1 <= pos <= n && 1 <= to <= n && pos != to && !Collides(pos, to, park)
    ensures Step(Parked(n, pos, park), Turned(n, pos, to, park))
  {}

  lemma FlipStep(n: nat, pos: int, to: int, park: int)
    requires park < 0 && 1 <= pos <= n && 1 <= to <= n && pos != to && !Collides(pos, to, park)
    ensures Step(Turned(n, pos, to, park), Flipped(n, pos, to, park))
  {}

  lemma PlaceStep(n: nat, pos: int, to: int, park: int)
    requires park < 0 && 1 <= pos <= n && 1 <= to <= n && pos != to
    ensures Step(Flipped(n, pos, to, park), Placed(n, pos, to))
  {}

  lemma MovedNowhere(ts: seq<string>, pos: int)
    requires 1 <= pos <= |ts|
    ensures Moved(ts, pos, pos) == ts
  {
    var front, back := ts[..pos - 1], ts[pos..];
    var rest := front + back;
    assert rest[..pos - 1] == front && rest[pos - 1..] == back;
  }

  /** Where the track at place `i` after the move was before it. */
  function Origin(i: int, pos: int, to: int): int {
    if i + 1 == to then pos - 1 else if pos <= i + 1 < to then i + 1 else if to < i + 1 <= pos then i - 1 else i
  }

  lemma WithoutAt(ts: seq<string>, pos: int, j: int)
    requires 1 <= pos <= |ts| && 0 <= j < |ts| - 1
    ensures (ts[..pos - 1] + ts[pos..])[j] == if j < pos - 1 then ts[j] else ts[j + 1]
  {}

  lemma MovedAt(ts: seq<string>, pos: int, to: int, i: nat)
    requires 1 <= pos <= |ts| && 1 <= to <= |ts| && i < |ts|
    ensures |Moved(ts, pos, to)| == |ts| && Moved(ts, pos, to)[i] == ts[Origin(i, pos, to)]
  {
    if i < to - 1 { WithoutAt(ts, pos, i); }
    if i > to - 1 { WithoutAt(ts, pos, i - 1); }
  }

  /** The place of a track after the move, and its origin, undo each other. */
  lemma PlacedOrigin(n: nat, pos: int, to: int, i: nat)
    requires 1 <= pos <= n && 1 <= to <= n && pos != to && i < n
    ensures 0 <= Placed(n, pos, to)[i] - 1 < n && Origin(Placed(n, pos, to)[i] - 1, pos, to) == i
    ensures 0 <= Origin(i, pos, to) < n && Placed(n, pos, to)[Origin(i, pos, to)] == i + 1
  {}

  /** The final positions of a move spell "remove at pos, insert at to". */
  lemma MovedListing(ts: seq<string>, pos: int, to: int)
    requires 1 <= pos <= |ts| && 1 <= to <= |ts| && pos != to
    ensures Listing(ts, Placed(|ts|, pos, to)) == Layout(Moved(ts, pos, to))
  {
    hide Moved;
    hide Placed;
    hide Origin;
    var n, r, at := |ts|, Moved(ts, pos, to), Placed(|ts|, pos, to);
    MovedAt(ts, pos, to, 0);
    forall e | e in Listing(ts, at) ensures e in Layout(r) {
      var i :| 0 <= i < n && e == (at[i], ts[i]);
      PlacedOrigin(n, pos, to, i);
      MovedAt(ts, pos, to, at[i] - 1);
      assert e == (Upto(1, n)[at[i] - 1], r[at[i] - 1]);
    }
    forall e | e in Layout(r) ensures e in Listing(ts, at) {
      var j :| 0 <= j < n && e == (Upto(1, n)[j], r[j]);
      PlacedOrigin(n, pos, to, j);
      MovedAt(ts, pos, to, j);
      assert e == (at[Origin(j, pos, to)], ts[Origin(j, pos, to)]);
    }
  }

  lemma ReorderBlocked(rows: Rows, pid: string, ts: seq<string>, pos: int, to: int, park: int,
                       range: int -> bool, shift: int -> int)
    requires View(rows, pid) == Listing(ts, Parked(|ts|, pos, park))
    requires park < 0 && 1 <= pos <= |ts| && 1 <= to <= |ts| && Collides(pos, to, park)
    requires forall p :: range(p) == if pos < to then pos < p <= to else to <= p < pos
    requires forall p :: shift(p) == if pos < to then -(p - 1) else -(p + 1)
    ensures Blocked(rows, pid, range, shift)
  {
    var p := if pos < to then -park + 1 else -park - 1;
    var r := ListedHasRow(rows, pid, ts, Parked(|ts|, pos, park), p - 1);
    var q := ListedHasRow(rows, pid, ts, Parked(|ts|, pos, park), pos - 1);
    assert Chosen(rows, pid, range, r) && shift(rows[r].pos) == rows[q].pos;
  }

  lemma {:induction false} FilterSame(s: seq<string>, f: string -> bool, g: string -> bool)
    requires forall x :: x in s ==> f(x) == g(x)
    ensures Filter(s, f) == Filter(s, g)
  {
    if s != [] {
      FilterSame(s[..|s| - 1], f, g);
    }
  }

  method WithoutRepeats(ids: seq<string>) returns (distinct: seq<string>)
    ensures forall x :: x in distinct <==> x in ids
  {
    distinct := [];
    for i := 0 to |ids|
      invariant forall x :: x in distinct <==> x in ids[..i]
    {
      if ids[i] !in distinct { distinct := distinct + [ids[i]]; }
    }
    assert ids[..|ids|] == ids;
  }

  /** Looks the ids up in chunks. */
  method LookUp(distinct: seq<string>, readable: set<string>) returns (accessible: set<string>)
    ensures forall x :: x in accessible <==> x in distinct && x in readable
  {
    accessible := {};
    var done := 0;
    while done < |distinct|
      invariant done <= |distinct|
      invariant forall x :: x in accessible <==> x in distinct[..done] && x in readable
    {
      var end := Min(done + ADD_CHUNK, |distinct|);
      var chunk := distinct[done..end];
      assert distinct[..end] == distinct[..done] + chunk;
      var found := set x | x in chunk && x in readable;
      accessible := accessible + found;
      done := end;
    }
    assert distinct[..|distinct|] == distinct;
  }

  /** The ids of `ids` that name a readable track, with order and duplicates kept. */
  method KeepAccessible(ids: seq<string>, readable: set<string>) returns (r: seq<string>)
    ensures r == Accessible(ids, readable) && ReadableOf(ids, readable, r)
  {
    AccessibleInOrder(ids, readable);
    hide ReadableOf;
    var distinct := WithoutRepeats(ids);
    var accessible := LookUp(distinct, readable);
    r := [];
    for i := 0 to |ids|
      invariant r == Filter(ids[..i], x => x in accessible)
    {
      assert ids[..i + 1][..i] == ids[..i];
      if ids[i] in accessible { r := r + [ids[i]]; }
    }
    assert ids[..|ids|] == ids;
    FilterSame(ids, x => x in accessible, x => x in readable);
  }

  /** Gives the chosen rows their new position one by one, in any order, until one is taken. */
  method UpdateRows(start: Rows, pid: string, picks: int -> bool, to: int -> int, chosen: set<nat>)
    returns (ok: bool, rows: Rows)
    requires Unique(start) && forall r :: r in chosen <==> Chosen(start, pid, picks, r)
    ensures ok ==> Unique(rows) && rows == Assigned(start, pid, picks, to)
    ensures !ok ==> !Safe(start, pid, picks, to)
  {
    hide *;
    rows := start;
    ghost var done := {};
    var todo := chosen;
    PartlyNone(start, to);
    while todo != {}
      invariant Unique(rows) && Partly(start, rows, done, to)
      invariant forall r :: r in chosen <==> r in done || r in todo
      invariant done !! todo
      decreases todo
    {
      var r :| r in todo;
      PartlyRow(start, rows, done, to, pid, picks, r);
      var p := to(rows[r].pos);
      if exists q :: q in rows && q != r && rows[q].playlist == pid && rows[q].pos == p {
        ghost var q :| q in rows && q != r && rows[q].playlist == pid && rows[q].pos == p;
        CollisionUnsafe(start, rows, pid, picks, to, done, r, q);
        return false, rows;
      }
      UniqueStep(rows, r, p);
      PartlyStep(start, rows, done, to, r);
      rows := rows[r := rows[r].(pos := p)];
      done, todo := done + {r}, todo - {r};
    }
    PartlyAll(start, rows, pid, picks, to, done);
    ok := true;
  }

  class Table {
    var rows: Rows
    var nextRow: nat

    ghost predicate Valid()
      reads this
    {
      Unique(rows) && forall r :: r in rows ==> r < nextRow
    }

    /** The playlist holds exactly the tracks `ts`, at positions 1..n. */
    ghost predicate Holds(pid: string, ts: seq<string>)
      reads this
    {
      Valid() && View(rows, pid) == Layout(ts)
    }

    constructor ()
      ensures Valid() && forall pid :: Holds(pid, [])
    {
      rows, nextRow := map[], 0;
    }

    // ----- statements

    /**
     One UPDATE, row by row in any order. A row whose new position is taken by another row of the
     playlist breaks the UNIQUE index: the statement fails and is undone.
     */
    method Update(pid: string, picks: int -> bool, to: int -> int) returns (ok: bool, n: nat)
      requires Valid()
      modifies this`rows
      ensures Valid()
      ensures rows == if ok then Assigned(old(rows), pid, picks, to) else old(rows)
      ensures Safe(old(rows), pid, picks, to) ==> ok
      ensures Blocked(old(rows), pid, picks, to) ==> !ok
      ensures n == 0 <==> forall r :: !Chosen(old(rows), pid, picks, r)
    {
      var chosen := set r | r in rows && Chosen(rows, pid, picks, r);
      n := |chosen|;
      if r :| Chosen(rows, pid, picks, r) { assert r in chosen; }
      UpdateKeeps(rows, pid, picks, to);
      hide *;
      var after;
      ok, after := UpdateRows(rows, pid, picks, to, chosen);
      if ok { rows := after; }
    }

    /** An UPDATE that makes a step on the listed positions never breaks the index, in any row order. */
    method UpdateListed(pid: string, ghost ts: seq<string>, ghost at: seq<int>, ghost at': seq<int>,
                        picks: int -> bool, to: int -> int) returns (ok: bool, n: nat)
      requires Valid() && |ts| == |at| && View(rows, pid) == Listing(ts, at)
      requires Step(at, at') && Does(at, at', picks, to)
      modifies this`rows
      ensures Valid() && ok && View(rows, pid) == Listing(ts, at') && SameElsewhere(old(rows), rows, pid)
      ensures n == 0 <==> forall i :: 0 <= i < |at| ==> !picks(at[i])
    {
      StepApplies(rows, pid, ts, at, at', picks, to);
      ghost var before := rows;
      ok, n := Update(pid, picks, to);
      if n == 0 {
        forall i | 0 <= i < |at| ensures !picks(at[i]) {
          var r := ListedHasRow(before, pid, ts, at, i);
          assert !Chosen(before, pid, picks, r);
        }
      } else {
        ghost var r :| Chosen(before, pid, picks, r);
        ghost var i := RowInListing(before, pid, ts, at, r);
      }
    }

    /** DELETE of the playlist's rows that `keep` rejects; reports how many went. */
    method Delete(pid: string, keep: Entry -> bool) returns (n: nat)
      requires Valid()
      modifies this`rows
      ensures Valid()
      ensures View(rows, pid) == set x | x in old(View(rows, pid)) && keep(x)
      ensures SameElsewhere(old(rows), rows, pid)
      ensures n == 0 <==> forall x :: x in old(View(rows, pid)) ==> keep(x)
    {
      var doomed := set r | r in rows && rows[r].playlist == pid && !keep((rows[r].pos, rows[r].media));
      WithoutView(rows, pid, keep, doomed);
      n := |doomed|;
      if n > 0 {
        var r :| r in doomed;
        assert (rows[r].pos, rows[r].media) in View(rows, pid);
      } else {
        forall x | x in View(rows, pid) ensures keep(x) {
          var r :| r in rows && rows[r].playlist == pid && x == (rows[r].pos, rows[r].media);
          assert r !in doomed;
        }
      }
      rows := Without(rows, doomed);
    }

    /** One multi-row INSERT; a taken position undoes the statement. */
    method InsertRows(pid: string, ids: seq<string>, start: int) returns (ok: bool)
      requires Valid()
      modifies this
      ensures Valid()
      ensures !ok ==> rows == old(rows)
      ensures ok ==> View(rows, pid) == old(View(rows, pid)) + Listing(ids, Upto(start, |ids|))
      ensures ok ==> SameElsewhere(old(rows), rows, pid)
      ensures Free(old(View(rows, pid)), start, |ids|) ==> ok
    {
      var before := rows;
      NothingListed(rows, pid, start);
      hide View;
      hide Listing;
      hide Unique;
      for i := 0 to |ids|
        invariant Valid() && old(nextRow) <= nextRow
        invariant View(rows, pid) == View(before, pid) + Listing(ids[..i], Upto(start, i))
        invariant SameElsewhere(before, rows, pid)
      {
        ListingSnoc(ids[..i], Upto(start, i), ids[i], start + i);
        assert ids[..i] + [ids[i]] == ids[..i + 1] && Upto(start, i) + [start + i] == Upto(start, i + 1);
        if r :| r in rows && rows[r].playlist == pid && rows[r].pos == start + i {
          TakenPosition(View(before, pid), rows, pid, ids, start, i, r);
          rows := before;
          return false;
        }
        AddedUnique(rows, nextRow, Row(pid, start + i, ids[i]));
        AddedView(rows, nextRow, Row(pid, start + i, ids[i]));
        rows := rows[nextRow := Row(pid, start + i, ids[i])];
        nextRow := nextRow + 1;
      }
      assert ids[..|ids|] == ids;
      return true;
    }

    /** SELECT max(id): 0 stands for no row, as the NULL does. */
    method MaxPosition(pid: string, ghost ts: seq<string>) returns (last: int)
      requires Holds(pid, ts)
      ensures last == |ts|
    {
      var todo := set r | r in rows && rows[r].playlist == pid;
      last := 0;
      while todo != {}
        invariant 0 <= last <= |ts|
        invariant forall r :: r in todo ==> r in rows && rows[r].playlist == pid
        invariant forall r :: r in rows && rows[r].playlist == pid && r !in todo ==> rows[r].pos <= last
        decreases todo
      {
        var r :| r in todo;
        ghost var i := RowInListing(rows, pid, ts, Upto(1, |ts|), r);
        last := Max(last, rows[r].pos);
        todo := todo - {r};
      }
      if ts != [] {
        ghost var r := ListedHasRow(rows, pid, ts, Upto(1, |ts|), |ts| - 1);
      }
    }

    // ----- operations

    /** Renumbers the playlist 1..n in the order of its current positions: negate, then assign row numbers. */
    method Renumber(pid: string, ghost ts: seq<string>, ghost at: seq<int>)
      requires Valid() && |ts| == |at| && View(rows, pid) == Listing(ts, at)
      requires Increasing(at) && forall p :: p in at ==> p > 0
      modifies this`rows
      ensures Holds(pid, ts)
      ensures SameElsewhere(old(rows), rows, pid)
    {
      RenumberSteps(at);
      ghost var negs := Negated(at);
      var ok, n := UpdateListed(pid, ts, at, negs, p => p > 0, p => -p);
      var positions := set r | r in rows && rows[r].playlist == pid :: rows[r].pos;
      ViewPositions(rows, pid, ts, negs, positions);
      forall i | 0 <= i < |negs| ensures RowNumber(positions, negs[i]) == i + 1 {
        RowNumberRank(negs, i);
      }
      ok, n := UpdateListed(pid, ts, negs, Upto(1, |ts|), _ => true, p => RowNumber(positions, p));
    }

    /** Inserts the accessible tracks at consecutive positions, 200 to a statement. */
    method AddTracks(pid: string, start: int, ids: seq<string>, readable: set<string>) returns (ok: bool, n: nat)
      requires Valid()
      modifies this
      ensures Valid() && n == |Accessible(ids, readable)| <= |ids|
      ensures Free(old(View(rows, pid)), start, |ids|) ==> ok
      ensures ok ==> View(rows, pid) == old(View(rows, pid)) + Listing(Accessible(ids, readable), Upto(start, n))
      ensures SameElsewhere(old(rows), rows, pid)
    {
      var acc := KeepAccessible(ids, readable);
      ok := InsertChunked(pid, acc, start);
      return ok, |acc|;
    }

    method InsertChunked(pid: string, acc: seq<string>, start: int) returns (ok: bool)
      requires Valid()
      modifies this
      ensures Valid()
      ensures Free(old(View(rows, pid)), start, |acc|) ==> ok
      ensures ok ==> View(rows, pid) == old(View(rows, pid)) + Listing(acc, Upto(start, |acc|))
      ensures SameElsewhere(old(rows), rows, pid)
    {
      ghost var view := View(rows, pid);
      var done := 0;
      while done < |acc|
        invariant done <= |acc| && Valid() && SameElsewhere(old(rows), rows, pid)
        invariant View(rows, pid) == view + Listing(acc[..done], Upto(start, done))
      {
        var end := Min(done + ADD_CHUNK, |acc|);
        ok := InsertChunk(pid, view, acc, start, done, end);
        if !ok { return; }
        done := end;
      }
      assert acc[..|acc|] == acc;
      return true;
    }

    method InsertChunk(pid: string, ghost view: set<Entry>, acc: seq<string>, start: int, done: nat, end: nat)
      returns (ok: bool)
      requires Valid() && done <= end <= |acc| && View(rows, pid) == view + Listing(acc[..done], Upto(start, done))
      modifies this
      ensures Valid() && SameElsewhere(old(rows), rows, pid)
      ensures Free(view, start, |acc|) ==> ok
      ensures ok ==> View(rows, pid) == view + Listing(acc[..end], Upto(start, end))
    {
      hide View;
      hide Listing;
      hide Unique;
      ChunkLands(view, acc, start, done, end);
      ok := InsertRows(pid, acc[done..end], start + done);
    }

    method Add(pid: string, ghost ts: seq<string>, ids: seq<string>, readable: set<string>) returns (n: nat)
      requires Holds(pid, ts)
      modifies this
      ensures Holds(pid, ts + Accessible(ids, readable)) && n == |Accessible(ids, readable)|
      ensures SameElsewhere(old(rows), rows, pid)
    {
      if ids == [] {
        assert ts + Accessible(ids, readable) == ts;
        return 0;
      }
      var last := MaxPosition(pid, ts);
      ghost var acc := Accessible(ids, readable);
      FreePastEnd(ts, |ids|);
      hide View;
      hide Listing;
      hide Unique;
      var ok, count := AddTracks(pid, last + 1, ids, readable);
      ListingConcat(ts, Upto(1, |ts|), acc, Upto(last + 1, |acc|));
      assert Upto(1, |ts|) + Upto(last + 1, |acc|) == Upto(1, |ts + acc|);
      return count;
    }

    /** The full replace behind a playlist save. */
    method Replace(pid: string, ids: seq<string>, readable: set<string>) returns (n: nat)
      requires Valid()
      modifies this
      ensures Holds(pid, Accessible(ids, readable)) && n == |Accessible(ids, readable)|
      ensures SameElsewhere(old(rows), rows, pid)
    {
      var gone := Delete(pid, _ => false);
      assert View(rows, pid) == {};
      var ok, count := AddTracks(pid, 1, ids, readable);
      return count;
    }

    /** The two UPDATEs that open a gap of `k` positions at `from`. */
    method OpenGap(pid: string, ghost ts: seq<string>, from: int, k: nat) returns (shifted: nat)
      requires Holds(pid, ts) && from >= 1
      modifies this`rows
      ensures Valid() && View(rows, pid) == Listing(ts, Shifted(|ts|, from, k))
      ensures shifted == 0 <==> from > |ts|
      ensures SameElsewhere(old(rows), rows, pid)
    {
      GapSteps(|ts|, from, k);
      ghost var at0, at1, at2 := Upto(1, |ts|), GapParked(|ts|, from, k), Shifted(|ts|, from, k);
      var ok, _ := UpdateListed(pid, ts, at0, at1, p => p >= from, p => -(p + k));
      ok, shifted := UpdateListed(pid, ts, at1, at2, p => p < 0, p => -p);
      if from <= |ts| { assert at1[from - 1] < 0; }
    }

    /** Adds the accessible tracks before position `pos`, shifting the rest down; past the end it appends. */
    method Insert(pid: string, ghost ts: seq<string>, ids: seq<string>, pos: int, readable: set<string>)
      returns (n: nat)
      requires Holds(pid, ts)
      modifies this
      ensures Holds(pid, Inserted(ts, Accessible(ids, readable), pos)) && n == |Accessible(ids, readable)|
      ensures SameElsewhere(old(rows), rows, pid)
    {
      ghost var acc := Accessible(ids, readable);
      if ids == [] {
        assert Inserted(ts, acc, pos) == ts;
        return 0;
      }
      var from, k := Max(pos, 1), |ids|;
      var shifted := OpenGap(pid, ts, from, k);
      if shifted == 0 {
        assert Shifted(|ts|, from, k) == Upto(1, |ts|);
        n := Add(pid, ts, ids, readable);
        assert Inserted(ts, acc, pos) == ts + acc;
        return;
      }
      n := FillGap(pid, ts, ids, from, readable);
    }

    /** Fills the opened gap with the accessible tracks and closes what is left of it. */
    method FillGap(pid: string, ghost ts: seq<string>, ids: seq<string>, from: int, readable: set<string>)
      returns (n: nat)
      requires Valid() && 1 <= from <= |ts| && View(rows, pid) == Listing(ts, Shifted(|ts|, from, |ids|))
      modifies this
      ensures Holds(pid, Inserted(ts, Accessible(ids, readable), from)) && n == |Accessible(ids, readable)|
      ensures SameElsewhere(old(rows), rows, pid)
    {
      hide View;
      hide Unique;
      ghost var acc, k := Accessible(ids, readable), |ids|;
      var ok;
      ok, n := AddTracks(pid, from, ids, readable);
      ghost var at := Upto(1, from - 1) + Upto(from, |acc|) + Upto(from + k, |ts| - from + 1);
      InsertedListing(ts, acc, from, k, at);
      if n == |ids| {
        assert at == Upto(1, |ts| + k);
        return;
      }
      Renumber(pid, Inserted(ts, acc, from), at);
    }

    /** Deletes the rows at the given positions, 200 to a statement, and closes the gaps. */
    method DeletePositions(pid: string, ghost ts: seq<string>, positions: seq<int>)
      requires Holds(pid, ts)
      modifies this`rows
      ensures Holds(pid, Removed(ts, positions))
      ensures SameElsewhere(old(rows), rows, pid)
    {
      var done := 0;
      while done < |positions|
        invariant done <= |positions| && Valid()
        invariant View(rows, pid) == set x | x in Layout(ts) && x.0 !in positions[..done]
        invariant SameElsewhere(old(rows), rows, pid)
      {
        var end := Min(done + DELETE_CHUNK, |positions|);
        var chunk := positions[done..end];
        assert positions[..end] == positions[..done] + chunk;
        var n := Delete(pid, (e: Entry) => e.0 !in chunk);
        done := end;
      }
      assert positions[..|positions|] == positions;
      ghost var keep := (e: Entry) => e.0 !in positions;
      ghost var at := Upto(1, |ts|);
      KeptListing(ts, at, keep);
      KeptIncreasing(ts, at, keep);
      Renumber(pid, KeptTracks(ts, at, keep), KeptAt(ts, at, keep));
    }

    method DeleteAll(pid: string)
      requires Valid()
      modifies this`rows
      ensures Holds(pid, [])
      ensures SameElsewhere(old(rows), rows, pid)
    {
      var n := Delete(pid, _ => false);
      assert View(rows, pid) == Listing([], []);
      Renumber(pid, [], []);
    }

    /**
     Moves the track at `pos` to the clamped `newPos`. The move fails, in every row order, exactly when
     the shifted range passes over the sentinel; the caller's transaction then undoes it.
     */
    method Reorder(pid: string, ghost ts: seq<string>, pos: int, newPos: int) returns (out: Outcome)
      requires Holds(pid, ts)
      modifies this`rows
      ensures out == NotFound <==> pos < 1 || pos > |ts|
      ensures out == UniqueViolation <==> 1 <= pos <= |ts| && HitsSentinel(pos, Clamp(newPos, |ts|))
      ensures out == NotFound ==> rows == old(rows)
      ensures out == Done ==> Holds(pid, Moved(ts, pos, Clamp(newPos, |ts|)))
      ensures out == Done ==> MovedTo(ts, pos, newPos, Moved(ts, pos, Clamp(newPos, |ts|)))
      ensures Valid() && SameElsewhere(old(rows), rows, pid)
    {
      hide View;
      hide Listing;
      hide Unique;
      hide Moved;
      var last := MaxPosition(pid, ts);
      if pos < 1 || pos > last { return NotFound; }
      MovedMeans(ts, pos, newPos);
      hide MovedTo;
      var to := Clamp(newPos, last);
      if pos == to {
        MovedNowhere(ts, pos);
        return Done;
      }
      var ok := MoveVia(pid, ts, pos, to, SENTINEL);
      return if ok then Done else UniqueViolation;
    }

    /** The four UPDATEs of a move, parking the moved row at `park`. */
    method MoveVia(pid: string, ghost ts: seq<string>, pos: int, to: int, park: int) returns (ok: bool)
      requires Holds(pid, ts) && 1 <= pos <= |ts| && 1 <= to <= |ts| && pos != to && park < 0
      modifies this`rows
      ensures ok <==> !Collides(pos, to, park)
      ensures ok ==> Holds(pid, Moved(ts, pos, to))
      ensures Valid() && SameElsewhere(old(rows), rows, pid)
    {
      hide View;
      hide Listing;
      hide Unique;
      ParkStep(|ts|, pos, park);
      var _, n := UpdateListed(pid, ts, Upto(1, |ts|), Parked(|ts|, pos, park), p => p == pos, _ => park);
      ok := ShiftRange(pid, ts, pos, to, park);
      if ok { FinishMove(pid, ts, pos, to, park); }
    }

    /** Step 2: shift the range between the two positions, negated. */
    method ShiftRange(pid: string, ghost ts: seq<string>, pos: int, to: int, ghost park: int) returns (ok: bool)
      requires 1 <= pos <= |ts| && 1 <= to <= |ts| && pos != to && park < 0
      requires Valid() && View(rows, pid) == Listing(ts, Parked(|ts|, pos, park))
      modifies this`rows
      ensures ok <==> !Collides(pos, to, park)
      ensures ok ==> View(rows, pid) == Listing(ts, Turned(|ts|, pos, to, park))
      ensures Valid() && SameElsewhere(old(rows), rows, pid)
    {
      hide View;
      hide Listing;
      hide Unique;
      var range := (p: int) => if pos < to then pos < p <= to else to <= p < pos;
      var shift := (p: int) => if pos < to then -(p - 1) else -(p + 1);
      ghost var at1, at2 := Parked(|ts|, pos, park), Turned(|ts|, pos, to, park);
      if Collides(pos, to, park) {
        ReorderBlocked(rows, pid, ts, pos, to, park, range, shift);
      } else {
        TurnStep(|ts|, pos, to, park);
        StepApplies(rows, pid, ts, at1, at2, range, shift);
      }
      var n;
      ok, n := Update(pid, range, shift);
    }

    /** Steps 3 and 4: flip the shifted range back, then place the parked row. */
    method FinishMove(pid: string, ghost ts: seq<string>, ghost pos: int, to: int, park: int)
      requires 1 <= pos <= |ts| && 1 <= to <= |ts| && pos != to && park < 0 && !Collides(pos, to, park)
      requires Valid() && View(rows, pid) == Listing(ts, Turned(|ts|, pos, to, park))
      modifies this`rows
      ensures Holds(pid, Moved(ts, pos, to)) && SameElsewhere(old(rows), rows, pid)
    {
      hide View;
      hide Listing;
      hide Unique;
      FlipStep(|ts|, pos, to, park);
      PlaceStep(|ts|, pos, to, park);
      ghost var at2, at3, at4 := Turned(|ts|, pos, to, park), Flipped(|ts|, pos, to, park), Placed(|ts|, pos, to);
      var ok, n := UpdateListed(pid, ts, at2, at3, p => p < 0 && p != park, p => -p);
      ok, n := UpdateListed(pid, ts, at3, at4, p => p == park, _ => to);
      MovedListing(ts, pos, to);
    }

    // ----- the whole table

    /** Every playlist holds its listed tracks at positions 1..n; an unlisted playlist is empty. */
    ghost predicate Represents(lists: Lists)
      reads this
    {
      Valid() && forall pid :: View(rows, pid) == Layout(Of(lists, pid))
    }

    /** Deletes the tracks gone from the library and closes the gaps, playlist by playlist. */
    method RemoveOrphans(library: set<string>, ghost lists: Lists)
      requires Represents(lists)
      modifies this`rows
      ensures Represents(Swept(lists, library))
    {
      var todo := set r | r in rows && rows[r].media !in library :: rows[r].playlist;
      forall pid | pid !in todo ensures Unorphaned(Of(lists, pid), library) == Of(lists, pid) {
        NoOrphans(rows, pid, Of(lists, pid), library);
      }
      while todo != {}
        invariant Valid()
        invariant forall pid ::
          View(rows, pid) == Layout(if pid in todo then Of(lists, pid) else Unorphaned(Of(lists, pid), library))
        decreases todo
      {
        var pid :| pid in todo;
        RemoveOrphansOf(pid, Of(lists, pid), library);
        todo := todo - {pid};
      }
    }

    method RemoveOrphansOf(pid: string, ghost ts: seq<string>, library: set<string>)
      requires Holds(pid, ts)
      modifies this`rows
      ensures Holds(pid, Unorphaned(ts, library)) && SameElsewhere(old(rows), rows, pid)
    {
      hide View;
      hide Listing;
      var keep := (e: Entry) => e.1 in library;
      var n := Delete(pid, keep);
      ghost var at := Upto(1, |ts|);
      KeptListing(ts, at, keep);
      KeptIncreasing(ts, at, keep);
      Renumber(pid, KeptTracks(ts, at, keep), KeptAt(ts, at, keep));
    }

    /** One operation in its transaction: a failure leaves the table as it was. */
    method Perform(op: Op, ghost lists: Lists)
      requires Represents(lists)
      modifies this
      ensures Represents(Applied(lists, op))
    {
      hide View;
      hide Listing;
      hide Unique;
      hide Moved;
      hide Inserted;
      hide Accessible;
      hide Removed;
      hide Unorphaned;
      ghost var before := rows;
      match op {
        case ReplaceAll(pid, ids, readable) =>
          var n := Replace(pid, ids, readable);
          OneListed(before, rows, lists, pid, Accessible(ids, readable));
        case Append(pid, ids, readable) =>
          var n := Add(pid, Of(lists, pid), ids, readable);
          OneListed(before, rows, lists, pid, Of(lists, pid) + Accessible(ids, readable));
        case InsertAt(pid, ids, pos, readable) =>
          var n := Insert(pid, Of(lists, pid), ids, pos, readable);
          OneListed(before, rows, lists, pid, Inserted(Of(lists, pid), Accessible(ids, readable), pos));
        case DeleteAt(pid, positions) =>
          DeletePositions(pid, Of(lists, pid), positions);
          OneListed(before, rows, lists, pid, Removed(Of(lists, pid), positions));
        case Clear(pid) =>
          DeleteAll(pid);
          OneListed(before, rows, lists, pid, []);
        case Move(pid, pos, newPos) =>
          MoveInTransaction(pid, pos, newPos, lists);
        case Sweep(library) =>
          RemoveOrphans(library, lists);
      }
    }

    method MoveInTransaction(pid: string, pos: int, newPos: int, ghost lists: Lists)
      requires Represents(lists)
      modifies this
      ensures Represents(Applied(lists, Move(pid, pos, newPos)))
    {
      hide View;
      hide Listing;
      hide Unique;
      hide Moved;
      hide MovedTo;
      var before, next := rows, nextRow;
      ghost var ts := Of(lists, pid);
      var out := Reorder(pid, ts, pos, newPos);
      if out != Done {
        rows, nextRow := before, next;
      } else {
        OneListed(before, rows, lists, pid, Moved(ts, pos, Clamp(newPos, |ts|)));
      }
    }

    /** After every sequence of operations each playlist is the sequence those operations describe. */
    method Run(ops: seq<Op>, ghost lists: Lists)
      requires Represents(lists)
      modifies this
      ensures Represents(AppliedAll(lists, ops))
    {
      assert AppliedAll(lists, ops[..0]) == lists;
      for i := 0 to |ops|
        invariant Represents(AppliedAll(lists, ops[..i]))
      {
        Perform(ops[i], AppliedAll(lists, ops[..i]));
        assert ops[..i + 1][..i] == ops[..i];
      }
      assert ops[..|ops|] == ops;
    }
  }
}
