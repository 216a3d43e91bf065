/**
 The rows of `playlist_tracks` and what one SQL statement does to them. A playlist is seen through the
 set of its (position, track) pairs; positions are unique per playlist because of the UNIQUE index.
 */
module PlaylistRows {
  import opened Common

  datatype Row = Row(playlist: string, pos: int, media: string)

  type Rows = map<nat, Row>

  type Entry = (int, string)

  /** The UNIQUE index on (playlist_id, id). */
  ghost predicate Unique(rows: Rows) {
    forall a, b :: a in rows && b in rows && a != b && rows[a].playlist == rows[b].playlist
      ==> rows[a].pos != rows[b].pos
  }

  ghost function View(rows: Rows, pid: string): set<Entry> {
    set r | r in rows && rows[r].playlist == pid :: (rows[r].pos, rows[r].media)
  }

  /** Every other playlist reads the same. */
  ghost predicate SameElsewhere(before: Rows, after: Rows, pid: string) {
    forall other :: other != pid ==> View(after, other) == View(before, other)
  }

  /** Track `ts[i]` at position `at[i]`. */
  ghost function Listing(ts: seq<string>, at: seq<int>): set<Entry>
    requires |ts| == |at|
  {
    set i | 0 <= i < |ts| :: (at[i], ts[i])
  }

  function Upto(start: int, n: nat): (at: seq<int>)
    ensures |at| == n && forall i :: 0 <= i < n ==> at[i] == start + i
  {
    seq(n, i => start + i)
  }

  /** A playlist in order: its positions are exactly 1..n. */
  ghost function Layout(ts: seq<string>): set<Entry> {
    Listing(ts, Upto(1, |ts|))
  }

  lemma LayoutMeans(ts: seq<string>, p: int, t: string)
    ensures (p, t) in Layout(ts) <==> 1 <= p <= |ts| && ts[p - 1] == t
  {
    if 1 <= p <= |ts| && ts[p - 1] == t { assert (Upto(1, |ts|)[p - 1], ts[p - 1]) == (p, t); }
  }

  lemma LayoutPrefix(a: seq<string>, b: seq<string>)
    requires Layout(a) <= Layout(b)
    ensures |a| <= |b|
    ensures forall i :: 0 <= i < |a| ==> a[i] == b[i]
  {
    forall i | 0 <= i < |a| ensures i < |b| && a[i] == b[i] {
      assert (Upto(1, |a|)[i], a[i]) in Layout(b);
    }
    if a != [] {
      assert (Upto(1, |a|)[|a| - 1], a[|a| - 1]) in Layout(b);
    }
  }

  /** The track sequence of a playlist is determined by its rows. */
  lemma LayoutInjective(a: seq<string>, b: seq<string>)
    requires Layout(a) == Layout(b)
    ensures a == b
  {
    LayoutPrefix(a, b);
    LayoutPrefix(b, a);
  }

  // ----- UPDATE ... SET id = ... WHERE playlist_id = ? AND ...

  predicate Chosen(rows: Rows, pid: string, picks: int -> bool, r: nat) {
    r in rows && rows[r].playlist == pid && picks(rows[r].pos)
  }

  /** The table once every chosen row has its new position. */
  function Assigned(rows: Rows, pid: string, picks: int -> bool, to: int -> int): Rows {
    map r | r in rows :: if Chosen(rows, pid, picks, r) then rows[r].(pos := to(rows[r].pos)) else rows[r]
  }

  /** No new position is one some other row of the playlist has, before or after the statement. */
  ghost predicate Safe(rows: Rows, pid: string, picks: int -> bool, to: int -> int) {
    forall r, q :: Chosen(rows, pid, picks, r) && q in rows && q != r && rows[q].playlist == pid
      ==> to(rows[r].pos) != rows[q].pos
          && (Chosen(rows, pid, picks, q) ==> to(rows[r].pos) != to(rows[q].pos))
  }

  /** Some new position belongs to a row the statement leaves alone, so it fails in every row order. */
  ghost predicate Blocked(rows: Rows, pid: string, picks: int -> bool, to: int -> int) {
    exists r, q :: Chosen(rows, pid, picks, r) && q in rows && rows[q].playlist == pid && !picks(rows[q].pos)
      && to(rows[r].pos) == rows[q].pos
  }

  lemma UniqueNotBlocked(rows: Rows, pid: string, picks: int -> bool, to: int -> int)
    requires Unique(Assigned(rows, pid, picks, to))
    ensures !Blocked(rows, pid, picks, to)
  {
    var rows' := Assigned(rows, pid, picks, to);
    forall r, q | Chosen(rows, pid, picks, r) && q in rows && rows[q].playlist == pid && !picks(rows[q].pos)
      ensures to(rows[r].pos) != rows[q].pos
    {
      assert rows'[r].pos != rows'[q].pos;
    }
  }

  /** A finished UPDATE that keeps the index was not blocked, and keeps the set of rows. */
  lemma UpdateKeeps(rows: Rows, pid: string, picks: int -> bool, to: int -> int)
    ensures Unique(Assigned(rows, pid, picks, to)) ==> !Blocked(rows, pid, picks, to)
    ensures Assigned(rows, pid, picks, to).Keys == rows.Keys
  {
    if Unique(Assigned(rows, pid, picks, to)) { UniqueNotBlocked(rows, pid, picks, to); }
  }

  /** The UPDATE halfway: the rows of `done` have their new position, the others their old one. */
  ghost predicate Partly(start: Rows, rows: Rows, done: set<nat>, to: int -> int) {
    rows.Keys == start.Keys &&
    forall r :: r in rows ==> rows[r] == if r in done then start[r].(pos := to(start[r].pos)) else start[r]
  }

  lemma PartlyNone(start: Rows, to: int -> int)
    ensures Partly(start, start, {}, to)
  {}

  lemma PartlyRow(start: Rows, rows: Rows, done: set<nat>, to: int -> int, pid: string, picks: int -> bool, r: nat)
    requires Partly(start, rows, done, to) && Chosen(start, pid, picks, r)
    ensures r in rows && rows[r].playlist == pid
  {}

  lemma PartlyStep(start: Rows, rows: Rows, done: set<nat>, to: int -> int, r: nat)
    requires Partly(start, rows, done, to) && r in rows && r !in done
    ensures Partly(start, rows[r := rows[r].(pos := to(rows[r].pos))], done + {r}, to)
  {}

  lemma UniqueStep(rows: Rows, r: nat, p: int)
    requires Unique(rows) && r in rows
    requires forall q :: q in rows && q != r && rows[q].playlist == rows[r].playlist ==> rows[q].pos != p
    ensures Unique(rows[r := rows[r].(pos := p)])
  {}

  /** A collision on the way is not possible in a safe statement. */
  lemma CollisionUnsafe(start: Rows, rows: Rows, pid: string, picks: int -> bool, to: int -> int, done: set<nat>,
                        r: nat, q: nat)
    requires Partly(start, rows, done, to) && (forall d :: d in done ==> Chosen(start, pid, picks, d))
    requires Chosen(start, pid, picks, r) && r !in done && q in rows && q != r && rows[q].playlist == pid
    requires rows[q].pos == to(rows[r].pos)
    ensures !Safe(start, pid, picks, to)
  {}

  lemma PartlyAll(start: Rows, rows: Rows, pid: string, picks: int -> bool, to: int -> int, done: set<nat>)
    requires Partly(start, rows, done, to) && forall r :: r in done <==> Chosen(start, pid, picks, r)
    ensures rows == Assigned(start, pid, picks, to)
  {}

  ghost predicate Distinct(at: seq<int>) {
    forall i, j :: 0 <= i < j < |at| ==> at[i] != at[j]
  }

  /** A change of positions in which every changed one lands where no other row is or was. */
  ghost predicate Step(at: seq<int>, at': seq<int>) {
    && |at| == |at'| && Distinct(at) && Distinct(at')
    && forall i, j :: 0 <= i < |at| && 0 <= j < |at| && i != j && at'[i] != at[i] ==> at'[i] != at[j]
  }

  ghost predicate Does(at: seq<int>, at': seq<int>, picks: int -> bool, to: int -> int) {
    |at| == |at'| && forall i :: 0 <= i < |at| ==> at'[i] == if picks(at[i]) then to(at[i]) else at[i]
  }

  lemma RowInListing(rows: Rows, pid: string, ts: seq<string>, at: seq<int>, r: nat) returns (i: nat)
    requires |ts| == |at| && View(rows, pid) == Listing(ts, at)
    requires r in rows && rows[r].playlist == pid
    ensures i < |at| && rows[r].pos == at[i] && rows[r].media == ts[i]
  {
    assert (rows[r].pos, rows[r].media) in View(rows, pid);
    i :| 0 <= i < |ts| && (at[i], ts[i]) == (rows[r].pos, rows[r].media);
  }

  lemma ListedHasRow(rows: Rows, pid: string, ts: seq<string>, at: seq<int>, i: nat) returns (r: nat)
    requires |ts| == |at| && View(rows, pid) == Listing(ts, at) && i < |at|
    ensures r in rows && rows[r].playlist == pid && rows[r].pos == at[i] && rows[r].media == ts[i]
  {
    assert (at[i], ts[i]) in Listing(ts, at);
    r :| r in rows && rows[r].playlist == pid && (rows[r].pos, rows[r].media) == (at[i], ts[i]);
  }

  lemma ViewPositions(rows: Rows, pid: string, ts: seq<string>, at: seq<int>, positions: set<int>)
    requires |ts| == |at| && View(rows, pid) == Listing(ts, at)
    requires positions == set r | r in rows && rows[r].playlist == pid :: rows[r].pos
    ensures positions == set p | p in at
  {
    forall p | p in positions ensures p in at {
      var r :| r in rows && rows[r].playlist == pid && p == rows[r].pos;
      var i := RowInListing(rows, pid, ts, at, r);
    }
    forall p | p in at ensures p in positions {
      var i :| 0 <= i < |at| && at[i] == p;
      var r := ListedHasRow(rows, pid, ts, at, i);
    }
  }

  /** A statement that makes a step on the listed positions is safe on the rows. */
  lemma SafeListing(rows: Rows, pid: string, ts: seq<string>, at: seq<int>, at': seq<int>, picks: int -> bool,
                    to: int -> int)
    requires Unique(rows) && |ts| == |at| && View(rows, pid) == Listing(ts, at)
    requires Step(at, at') && Does(at, at', picks, to)
    ensures Safe(rows, pid, picks, to)
  {
    forall r, q | Chosen(rows, pid, picks, r) && q in rows && q != r && rows[q].playlist == pid
      ensures to(rows[r].pos) != rows[q].pos
      ensures Chosen(rows, pid, picks, q) ==> to(rows[r].pos) != to(rows[q].pos)
    {
      var i := RowInListing(rows, pid, ts, at, r);
      var j := RowInListing(rows, pid, ts, at, q);
      assert i != j && at'[i] != at'[j];
    }
  }

  lemma AssignedView(rows: Rows, pid: string, ts: seq<string>, at: seq<int>, at': seq<int>, picks: int -> bool,
                     to: int -> int)
    requires |ts| == |at| && View(rows, pid) == Listing(ts, at) && Does(at, at', picks, to)
    ensures View(Assigned(rows, pid, picks, to), pid) == Listing(ts, at')
  {
    var rows' := Assigned(rows, pid, picks, to);
    forall x | x in View(rows', pid) ensures x in Listing(ts, at') {
      var r :| r in rows' && rows'[r].playlist == pid && x == (rows'[r].pos, rows'[r].media);
      var i := RowInListing(rows, pid, ts, at, r);
      assert x == (at'[i], ts[i]);
    }
    forall x | x in Listing(ts, at') ensures x in View(rows', pid) {
      var i :| 0 <= i < |ts| && x == (at'[i], ts[i]);
      var r := ListedHasRow(rows, pid, ts, at, i);
      assert x == (rows'[r].pos, rows'[r].media);
    }
  }

  lemma AssignedElsewhere(rows: Rows, pid: string, picks: int -> bool, to: int -> int)
    ensures SameElsewhere(rows, Assigned(rows, pid, picks, to), pid)
  {
    var rows' := Assigned(rows, pid, picks, to);
    forall other, x | other != pid && x in View(rows, other) ensures x in View(rows', other) {
      var r :| r in rows && rows[r].playlist == other && x == (rows[r].pos, rows[r].media);
      assert rows'[r] == rows[r];
    }
  }

  lemma StepApplies(rows: Rows, pid: string, ts: seq<string>, at: seq<int>, at': seq<int>, picks: int -> bool,
                    to: int -> int)
    requires Unique(rows) && |ts| == |at| && View(rows, pid) == Listing(ts, at)
    requires Step(at, at') && Does(at, at', picks, to)
    ensures Safe(rows, pid, picks, to)
    ensures View(Assigned(rows, pid, picks, to), pid) == Listing(ts, at')
    ensures SameElsewhere(rows, Assigned(rows, pid, picks, to), pid)
  {
    SafeListing(rows, pid, ts, at, at', picks, to);
    AssignedView(rows, pid, ts, at, at', picks, to);
    AssignedElsewhere(rows, pid, picks, to);
  }

  // ----- DELETE ... WHERE

  function Without(rows: Rows, doomed: set<nat>): Rows { rows - doomed }

  /** The listing with only the entries `keep` accepts. */
  function KeptTracks(ts: seq<string>, at: seq<int>, keep: Entry -> bool): (r: seq<string>)
    requires |ts| == |at|
    ensures |r| == |KeptAt(ts, at, keep)|
  {
    if ts == [] then []
    else
      var n := |ts| - 1;
      KeptTracks(ts[..n], at[..n], keep) + if keep((at[n], ts[n])) then [ts[n]] else []
  }

  function KeptAt(ts: seq<string>, at: seq<int>, keep: Entry -> bool): seq<int>
    requires |ts| == |at|
  {
    if ts == [] then []
    else
      var n := |ts| - 1;
      KeptAt(ts[..n], at[..n], keep) + if keep((at[n], ts[n])) then [at[n]] else []
  }

  ghost predicate Increasing(at: seq<int>) {
    forall i, j :: 0 <= i < j < |at| ==> at[i] < at[j]
  }

  lemma {:induction false} KeptIncreasing(ts: seq<string>, at: seq<int>, keep: Entry -> bool)
    requires |ts| == |at| && Increasing(at)
    ensures Increasing(KeptAt(ts, at, keep))
    ensures forall p :: p in KeptAt(ts, at, keep) ==> p in at
  {
    if ts != [] {
      var n := |ts| - 1;
      KeptIncreasing(ts[..n], at[..n], keep);
      var prev, cur := KeptAt(ts[..n], at[..n], keep), KeptAt(ts, at, keep);
      assert forall p :: p in prev ==> p in at[..n] && p < at[n];
      assert forall i :: 0 <= i < |prev| ==> prev[i] in prev;
      assert cur == prev || cur == prev + [at[n]];
    }
  }

  lemma {:induction false} KeptPrefix(ts: seq<string>, at: seq<int>, keep: Entry -> bool, p: int -> bool, n: nat)
    requires |ts| == |at| && n <= |ts| && forall i :: 0 <= i < |ts| ==> p(i) == keep((at[i], ts[i]))
    ensures Picked(ts, KeptTracks(ts[..n], at[..n], keep), Indexes(n, p))
  {
    if n > 0 {
      hide Picked;
      var m := n - 1;
      KeptPrefix(ts, at, keep, p, m);
      assert ts[..n][..m] == ts[..m] && at[..n][..m] == at[..m] && ts[..n][m] == ts[m] && at[..n][m] == at[m];
      PickedSnoc(ts, KeptTracks(ts[..m], at[..m], keep), Indexes(m, p), m);
      assert Indexes(m, p) + [] == Indexes(m, p);
    }
  }

  /** The tracks that stay keep their order: they are those at exactly the accepted indices. */
  lemma KeptPicks(ts: seq<string>, at: seq<int>, keep: Entry -> bool) returns (idx: seq<int>)
    requires |ts| == |at|
    ensures InOrder(ts, KeptTracks(ts, at, keep), idx)
    ensures forall i :: 0 <= i < |ts| ==> (i in idx <==> keep((at[i], ts[i])))
  {
    var p := (i: int) => 0 <= i < |ts| && 0 <= i < |at| && keep((at[i], ts[i]));
    KeptPrefix(ts, at, keep, p, |ts|);
    assert ts[..|ts|] == ts && at[..|at|] == at;
    IndexesInOrder(ts, KeptTracks(ts, at, keep), |ts|, p);
    idx := Indexes(|ts|, p);
  }

  lemma {:induction false} KeptListing(ts: seq<string>, at: seq<int>, keep: Entry -> bool)
    requires |ts| == |at|
    ensures Listing(KeptTracks(ts, at, keep), KeptAt(ts, at, keep)) == set x | x in Listing(ts, at) && keep(x)
  {
    if ts != [] {
      var n := |ts| - 1;
      KeptListing(ts[..n], at[..n], keep);
      ListingSnoc(ts[..n], at[..n], ts[n], at[n]);
      assert ts == ts[..n] + [ts[n]] && at == at[..n] + [at[n]];
      var ts', at' := KeptTracks(ts[..n], at[..n], keep), KeptAt(ts[..n], at[..n], keep);
      if keep((at[n], ts[n])) {
        ListingSnoc(ts', at', ts[n], at[n]);
        assert KeptTracks(ts, at, keep) == ts' + [ts[n]] && KeptAt(ts, at, keep) == at' + [at[n]];
      } else {
        assert KeptTracks(ts, at, keep) == ts' && KeptAt(ts, at, keep) == at';
      }
    }
  }

  lemma ListingSnoc(ts: seq<string>, at: seq<int>, t: string, p: int)
    requires |ts| == |at|
    ensures Listing(ts + [t], at + [p]) == Listing(ts, at) + {(p, t)}
  {
    var ts', at' := ts + [t], at + [p];
    forall x | x in Listing(ts, at) ensures x in Listing(ts', at') {
      var i :| 0 <= i < |ts| && x == (at[i], ts[i]);
      assert x == (at'[i], ts'[i]);
    }
    assert (at'[|ts|], ts'[|ts|]) == (p, t);
  }

  lemma WithoutView(rows: Rows, pid: string, keep: Entry -> bool, doomed: set<nat>)
    requires doomed == set r | r in rows && rows[r].playlist == pid && !keep((rows[r].pos, rows[r].media))
    ensures View(Without(rows, doomed), pid) == set x | x in View(rows, pid) && keep(x)
    ensures forall other :: other != pid ==> View(Without(rows, doomed), other) == View(rows, other)
  {
    var rows' := Without(rows, doomed);
    forall x | x in View(rows, pid) && keep(x) ensures x in View(rows', pid) {
      var r :| r in rows && rows[r].playlist == pid && x == (rows[r].pos, rows[r].media);
      assert r in rows';
    }
    forall other | other != pid ensures View(rows', other) == View(rows, other) {
      forall x | x in View(rows, other) ensures x in View(rows', other) {
        var r :| r in rows && rows[r].playlist == other && x == (rows[r].pos, rows[r].media);
        assert r in rows';
      }
    }
  }

  // ----- INSERT

  lemma AddedUnique(rows: Rows, r: nat, row: Row)
    requires Unique(rows) && r !in rows
    requires forall q :: q in rows && rows[q].playlist == row.playlist ==> rows[q].pos != row.pos
    ensures Unique(rows[r := row])
  {}

  lemma AddedView(rows: Rows, r: nat, row: Row)
    requires r !in rows
    ensures View(rows[r := row], row.playlist) == View(rows, row.playlist) + {(row.pos, row.media)}
    ensures forall other :: other != row.playlist ==> View(rows[r := row], other) == View(rows, other)
  {
    var rows' := rows[r := row];
    forall pid, x | x in View(rows, pid) ensures x in View(rows', pid) {
      var q :| q in rows && rows[q].playlist == pid && x == (rows[q].pos, rows[q].media);
      assert rows'[q] == rows[q];
    }
    assert (rows'[r].pos, rows'[r].media) in View(rows', row.playlist);
    forall other, x | other != row.playlist && x in View(rows', other) ensures x in View(rows, other) {
      var q :| q in rows' && rows'[q].playlist == other && x == (rows'[q].pos, rows'[q].media);
      assert rows[q] == rows'[q];
    }
  }

  // ----- ROW_NUMBER() OVER (ORDER BY id DESC)

  /** The row number of position `p`: how many of the playlist's positions are at or above it. */
  function RowNumber(positions: set<int>, p: int): nat {
    |set q | q in positions && q >= p|
  }

  lemma {:induction false} DistinctSize(at: seq<int>)
    requires Distinct(at)
    ensures |set p | p in at| == |at|
  {
    if at != [] {
      var n := |at| - 1;
      DistinctSize(at[..n]);
      assert at[n] !in at[..n];
      assert (set p | p in at) == (set p | p in at[..n]) + {at[n]};
    }
  }

  /** Counting from the top of a decreasing list of positions gives each its place in the list. */
  lemma RowNumberRank(at: seq<int>, i: nat)
    requires i < |at| && forall j, k :: 0 <= j < k < |at| ==> at[j] > at[k]
    ensures RowNumber((set p | p in at), at[i]) == i + 1
  {
    var head := at[..i + 1];
    DistinctSize(head);
    var all, top := (set p | p in at), (set p | p in head);
    assert (set q | q in all && q >= at[i]) == top;
  }

  // ----- listings put together

  lemma {:induction false} ListingConcat(a: seq<string>, x: seq<int>, b: seq<string>, y: seq<int>)
    requires |a| == |x| && |b| == |y|
    ensures Listing(a + b, x + y) == Listing(a, x) + Listing(b, y)
  {
    if b == [] {
      assert a + b == a && x + y == x;
    } else {
      var n := |b| - 1;
      ListingConcat(a, x, b[..n], y[..n]);
      ListingSnoc(a + b[..n], x + y[..n], b[n], y[n]);
      ListingSnoc(b[..n], y[..n], b[n], y[n]);
      assert a + b == (a + b[..n]) + [b[n]] && x + y == (x + y[..n]) + [y[n]];
      assert b == b[..n] + [b[n]] && y == y[..n] + [y[n]];
    }
  }

  lemma {:induction false} KeptAll(ts: seq<string>, at: seq<int>, keep: Entry -> bool)
    requires |ts| == |at| && forall i :: 0 <= i < |ts| ==> keep((at[i], ts[i]))
    ensures KeptTracks(ts, at, keep) == ts
  {
    if ts != [] {
      var n := |ts| - 1;
      KeptAll(ts[..n], at[..n], keep);
      assert ts == ts[..n] + [ts[n]];
    }
  }
}
