/** Small building blocks shared by the models: optional values, results, chunking and filtering. */
module Common {

  datatype Option<+T> = None | Some(value: T)

  datatype Result<+T, +E> = Ok(value: T) | Err(error: E)

  function Min(a: int, b: int): int { if a < b then a else b }

  function Max(a: int, b: int): int { if a < b then b else a }

  /** The pieces produced by Go's `slices.Chunk`: consecutive runs of `n`, the last one possibly shorter. */
  function Chunks<T>(s: seq<T>, n: nat): (cs: seq<seq<T>>)
    requires n > 0
    ensures forall c :: c in cs ==> 0 < |c| <= n
    ensures Concat(cs) == s
  {
    if s == [] then []
    else if |s| <= n then assert Concat([s]) == s; [s]
    else
      var rest := Chunks(s[n..], n);
      assert ([s[..n]] + rest)[1..] == rest;
      [s[..n]] + rest
  }

  function Concat<T>(cs: seq<seq<T>>): seq<T> {
    if cs == [] then [] else cs[0] + Concat(cs[1..])
  }

  lemma {:induction false} ConcatSnoc<T>(cs: seq<seq<T>>, c: seq<T>)
    ensures Concat(cs + [c]) == Concat(cs) + c
  {
    var all := cs + [c];
    if cs == [] {
      assert all[1..] == [];
      assert Concat(all) == c + Concat(all[1..]);
    } else {
      assert all[1..] == cs[1..] + [c];
      ConcatSnoc(cs[1..], c);
    }
  }

  lemma {:induction false} InConcat<T>(cs: seq<seq<T>>, x: T)
    ensures x in Concat(cs) <==> exists c :: c in cs && x in c
  {
    if cs != [] {
      InConcat(cs[1..], x);
      assert cs == [cs[0]] + cs[1..];
    }
  }

  lemma SliceOfSlice<T>(s: seq<T>, a: nat, b: nat, c: nat, d: nat)
    requires a <= b <= |s| && c <= d <= b - a
    ensures s[a..b][c..d] == s[a + c..a + d]
  {
    var x, y := s[a..b][c..d], s[a + c..a + d];
    assert forall i :: 0 <= i < |x| ==> x[i] == y[i];
  }

  /** The elements of `s` accepted by `keep`, in their original order. */
  function Filter<T>(s: seq<T>, keep: T -> bool): (r: seq<T>)
    ensures |r| <= |s|
  {
    if s == [] then []
    else
      var rest := Filter(s[..|s| - 1], keep);
      if keep(s[|s| - 1]) then rest + [s[|s| - 1]] else rest
  }

  /** The indices below `n` that `p` accepts. */
  function Indexes(n: nat, p: int -> bool): seq<int> {
    if n == 0 then [] else Indexes(n - 1, p) + if p(n - 1) then [n - 1] else []
  }

  lemma {:induction false} InIndexes(n: nat, p: int -> bool, i: int)
    ensures i in Indexes(n, p) <==> 0 <= i < n && p(i)
  {
    if n > 0 { InIndexes(n - 1, p, i); }
  }

  lemma {:induction false} IndexesIncrease(n: nat, p: int -> bool, j: nat, k: nat)
    requires j < k < |Indexes(n, p)|
    ensures Indexes(n, p)[j] < Indexes(n, p)[k]
  {
    var rest := Indexes(n - 1, p);
    if k < |rest| {
      IndexesIncrease(n - 1, p, j, k);
    } else {
      assert rest[j] in rest;
      InIndexes(n - 1, p, rest[j]);
    }
  }

  lemma FilterSnoc<T>(s: seq<T>, keep: T -> bool, x: T)
    ensures Filter(s + [x], keep) == Filter(s, keep) + if keep(x) then [x] else []
  {
    assert (s + [x])[..|s|] == s;
  }

  /** `r` is the elements of `s` at the indices `idx`. */
  ghost predicate Picked<T>(s: seq<T>, r: seq<T>, idx: seq<int>) {
    |idx| == |r| && forall k :: 0 <= k < |r| ==> 0 <= idx[k] < |s| && r[k] == s[idx[k]]
  }

  lemma PickedSnoc<T>(s: seq<T>, r: seq<T>, idx: seq<int>, n: nat)
    requires Picked(s, r, idx) && n < |s|
    ensures Picked(s, r + [s[n]], idx + [n])
  {}

  /** `r` is the elements of `s` at the increasing indices `idx`. */
  ghost predicate InOrder<T>(s: seq<T>, r: seq<T>, idx: seq<int>) {
    Picked(s, r, idx) && forall j, k :: 0 <= j < k < |idx| ==> idx[j] < idx[k]
  }

  lemma IndexesInOrder<T>(s: seq<T>, r: seq<T>, n: nat, p: int -> bool)
    requires Picked(s, r, Indexes(n, p))
    ensures InOrder(s, r, Indexes(n, p)) && forall i :: i in Indexes(n, p) <==> 0 <= i < n && p(i)
  {
    hide Picked;
    hide Indexes;
    var idx := Indexes(n, p);
    forall j, k | 0 <= j < k < |idx| ensures idx[j] < idx[k] { IndexesIncrease(n, p, j, k); }
    forall i ensures i in idx <==> 0 <= i < n && p(i) { InIndexes(n, p, i); }
  }

  lemma {:induction false} FilterPrefix<T>(s: seq<T>, keep: T -> bool, p: int -> bool, n: nat)
    requires n <= |s| && forall i :: 0 <= i < |s| ==> p(i) == keep(s[i])
    ensures Picked(s, Filter(s[..n], keep), Indexes(n, p))
  {
    if n > 0 {
      hide Picked;
      var m := n - 1;
      FilterPrefix(s, keep, p, m);
      assert s[..n][..m] == s[..m] && s[..n][m] == s[m];
      PickedSnoc(s, Filter(s[..m], keep), Indexes(m, p), m);
      assert Indexes(m, p) + [] == Indexes(m, p);
    }
  }

  /** Filtering keeps order and repetitions: it picks exactly the accepted indices. */
  lemma FilterPicks<T>(s: seq<T>, keep: T -> bool) returns (idx: seq<int>)
    ensures InOrder(s, Filter(s, keep), idx)
    ensures forall i :: 0 <= i < |s| ==> (i in idx <==> keep(s[i]))
  {
    var p := (i: int) => 0 <= i < |s| && keep(s[i]);
    FilterPrefix(s, keep, p, |s|);
    assert s[..|s|] == s;
    IndexesInOrder(s, Filter(s, keep), |s|, p);
    idx := Indexes(|s|, p);
  }

  /** The image of every element. */
  function Each<S, T>(s: seq<S>, f: S -> T): (r: seq<T>)
    ensures |r| == |s| && forall i :: 0 <= i < |s| ==> r[i] == f(s[i])
  {
    seq(|s|, i requires 0 <= i < |s| => f(s[i]))
  }

  /** The images of the keys, one after the other. */
  function FlatMap<K, T>(keys: seq<K>, f: K -> seq<T>): seq<T> {
    if keys == [] then [] else FlatMap(keys[..|keys| - 1], f) + f(keys[|keys| - 1])
  }

  lemma {:induction false} InFlatMap<K, T>(keys: seq<K>, f: K -> seq<T>, x: T)
    ensures x in FlatMap(keys, f) <==> exists k :: k in keys && x in f(k)
  {
    if keys != [] {
      var n := |keys| - 1;
      InFlatMap(keys[..n], f, x);
      assert keys == keys[..n] + [keys[n]];
    }
  }
}
