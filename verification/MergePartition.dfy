/** Merging loses no condition and repeats none: the batches hold exactly the inner conditions they stand for. */
module MergePartition {
  import opened Common
  import opened SqlCondition
  import opened ConditionMerge

  type Pair = (FieldKey, Inner)

  ghost function Keyed(k: FieldKey, inners: seq<Inner>): multiset<Pair> {
    if inners == [] then multiset{}
    else Keyed(k, inners[..|inners| - 1]) + multiset{(k, inners[|inners| - 1])}
  }

  /** The inner conditions a condition holds, each with its key. */
  ghost function PairsOf(c: Cond): multiset<Pair> {
    if c.Exists? && c.inner.Some? then multiset{(KeyOf(c.field), c.inner.value)}
    else if c.ExistsAny? then Keyed(KeyOf(c.field), c.inners)
    else multiset{}
  }

  ghost function PairsIn(cs: seq<Cond>): multiset<Pair> {
    if cs == [] then multiset{} else PairsIn(cs[..|cs| - 1]) + PairsOf(cs[|cs| - 1])
  }

  lemma {:induction false} PairsAppend(a: seq<Cond>, b: seq<Cond>)
    ensures PairsIn(a + b) == PairsIn(a) + PairsIn(b)
  {
    if b == [] {
      assert a + b == a;
    } else {
      var n := |b| - 1;
      assert (a + b)[..|a + b| - 1] == a + b[..n];
      PairsAppend(a, b[..n]);
    }
  }

  lemma PairsSnoc(cs: seq<Cond>, c: Cond)
    ensures PairsIn(cs + [c]) == PairsIn(cs) + PairsOf(c)
  {
    assert (cs + [c])[..|cs|] == cs;
  }

  lemma PairsOne(c: Cond)
    ensures PairsIn([]) == multiset{} && PairsIn([c]) == PairsOf(c)
  {
    assert [] + [c] == [c];
    PairsSnoc([], c);
  }

  lemma KeyedSnoc(k: FieldKey, inners: seq<Inner>, n: Inner)
    ensures Keyed(k, []) == multiset{} && Keyed(k, inners + [n]) == Keyed(k, inners) + multiset{(k, n)}
  {
    assert (inners + [n])[..|inners|] == inners;
  }

  lemma {:induction false} KeyedAppend(k: FieldKey, a: seq<Inner>, b: seq<Inner>)
    ensures Keyed(k, a + b) == Keyed(k, a) + Keyed(k, b)
  {
    if b == [] {
      assert a + b == a;
    } else {
      var n := |b| - 1;
      assert (a + b)[..|a + b| - 1] == a + b[..n];
      KeyedAppend(k, a, b[..n]);
    }
  }

  lemma {:induction false} KeyedElsewhere(k: FieldKey, inners: seq<Inner>, p: Pair)
    requires p.0 != k
    ensures Keyed(k, inners)[p] == 0
  {
    if inners != [] { KeyedElsewhere(k, inners[..|inners| - 1], p); }
  }

  // ----- one key

  lemma {:induction false} PiecesHold(field: JsonField, negated: bool, pieces: seq<seq<Inner>>, bs: seq<Cond>)
    requires |bs| == |pieces| && forall i :: 0 <= i < |bs| ==> bs[i] == ExistsAny(field, pieces[i], negated)
    ensures PairsIn(bs) == Keyed(KeyOf(field), Concat(pieces))
    decreases |bs|
  {
    hide Keyed;
    hide PairsIn;
    hide PairsOf;
    hide KeyOf;
    if bs == [] {
      PairsOne(Constant(true));
      KeyedNone(KeyOf(field));
    } else {
      PiecesHold(field, negated, pieces[1..], bs[1..]);
      assert bs == [bs[0]] + bs[1..];
      PairsAppend([bs[0]], bs[1..]);
      PairsOne(bs[0]);
      BatchHolds(field, pieces[0], negated);
      KeyedAppend(KeyOf(field), pieces[0], Concat(pieces[1..]));
    }
  }

  lemma KeyedNone(k: FieldKey)
    ensures Keyed(k, []) == multiset{}
  {}

  lemma BatchHolds(field: JsonField, inners: seq<Inner>, negated: bool)
    ensures PairsOf(ExistsAny(field, inners, negated)) == Keyed(KeyOf(field), inners)
  {}

  /** A key's batches hold the inner conditions filed under it, if it has two or more. */
  lemma GroupHolds(conds: seq<Cond>, negated: bool, k: FieldKey)
    ensures var es := Entries(conds, negated, k);
            PairsIn(GroupBatches(conds, negated, k)) == if |es| < 2 then multiset{} else Keyed(k, Inners(es))
  {
    var es := Entries(conds, negated, k);
    if |es| >= 2 {
      InEntries(conds, negated, k, es[0]);
      var field, inners := FieldOf(es[0]), Inners(es);
      PiecesHold(field, negated, Chunks(inners, BATCH_SIZE), Batches(field, inners, negated));
    }
  }

  // ----- all keys

  lemma {:induction false} AdditionsCount(conds: seq<Cond>, negated: bool, keys: seq<FieldKey>, p: Pair)
    requires Ascending(keys)
    ensures PairsIn(Additions(conds, negated, keys))[p] ==
            if p.0 in keys then PairsIn(GroupBatches(conds, negated, p.0))[p] else 0
  {
    if keys != [] {
      var n := |keys| - 1;
      var k := keys[n];
      AdditionsCount(conds, negated, keys[..n], p);
      PairsAppend(Additions(conds, negated, keys[..n]), GroupBatches(conds, negated, k));
      assert Additions(conds, negated, keys) == Additions(conds, negated, keys[..n]) + GroupBatches(conds, negated, k);
      GroupHolds(conds, negated, k);
      if p.0 != k {
        if |Entries(conds, negated, k)| >= 2 { KeyedElsewhere(k, Inners(Entries(conds, negated, k)), p); }
      } else {
        NotRepeated(keys, n);
      }
      assert p.0 in keys <==> p.0 in keys[..n] || p.0 == k;
    }
  }

  lemma NotRepeated(keys: seq<FieldKey>, n: nat)
    requires Ascending(keys) && n < |keys|
    ensures keys[n] !in keys[..n]
  {
    KeyOrder(keys[n], keys[n], keys[n]);
  }

  /** The conditions of `part` that `conds` groups, in their original order. */
  ghost function GroupedOf(part: seq<Cond>, conds: seq<Cond>, negated: bool): seq<Cond> {
    if part == [] then []
    else
      var n := |part| - 1;
      GroupedOf(part[..n], conds, negated) + if Grouped(conds, negated, part[n]) then [part[n]] else []
  }

  lemma InnersSnoc(cs: seq<Cond>, c: Cond)
    ensures Inners(cs + [c]) == Inners(cs) + [InnerOf(c)]
  {}

  lemma {:induction false} GroupedCount(part: seq<Cond>, conds: seq<Cond>, negated: bool, p: Pair)
    ensures PairsIn(GroupedOf(part, conds, negated))[p] ==
            if |Entries(conds, negated, p.0)| < 2 then 0 else Keyed(p.0, Inners(Entries(part, negated, p.0)))[p]
  {
    hide Keyed;
    hide PairsIn;
    hide PairsOf;
    hide MergeKey;
    hide Inners;
    if part == [] {
      PairsOne(Constant(true));
      KeyedNone(p.0);
      NoInners();
    } else {
      var n := |part| - 1;
      var c := part[n];
      GroupedCount(part[..n], conds, negated, p);
      var before, es := GroupedOf(part[..n], conds, negated), Entries(part[..n], negated, p.0);
      InnersSnoc(es, c);
      KeyedSnoc(p.0, Inners(es), InnerOf(c));
      PairsSnoc(before, c);
      MergeKeyPairs(c, negated);
      assert before + [] == before && es + [] == es;
    }
  }

  lemma NoInners()
    ensures Inners([]) == []
  {}

  lemma MergeKeyPairs(c: Cond, negated: bool)
    ensures MergeKey(c, negated).Some? ==> PairsOf(c) == multiset{(MergeKey(c, negated).value, InnerOf(c))}
  {}

  /** Over the whole group, the batches hold exactly the conditions they replace, each in exactly one batch. */
  lemma BatchesHoldGrouped(conds: seq<Cond>, negated: bool)
    ensures PairsIn(Additions(conds, negated, SortedKeys(conds, negated))) == PairsIn(GroupedOf(conds, conds, negated))
  {
    hide Keyed;
    hide PairsIn;
    hide Additions;
    hide GroupBatches;
    hide Entries;
    hide Inners;
    hide GroupedOf;
    var keys := SortedKeys(conds, negated);
    forall p: Pair ensures PairsIn(Additions(conds, negated, keys))[p] == PairsIn(GroupedOf(conds, conds, negated))[p] {
      AdditionsCount(conds, negated, keys, p);
      GroupedCount(conds, conds, negated, p);
      GroupHolds(conds, negated, p.0);
      if |Entries(conds, negated, p.0)| >= 2 { KeyListed(conds, negated, keys, p.0); }
    }
  }

  lemma KeyListed(conds: seq<Cond>, negated: bool, keys: seq<FieldKey>, k: FieldKey)
    requires IsKeyListing(conds, negated, keys) && Entries(conds, negated, k) != []
    ensures k in keys
  {
    InEntries(conds, negated, k, Entries(conds, negated, k)[0]);
  }

  lemma {:induction false} PairsDivide(part: seq<Cond>, conds: seq<Cond>, negated: bool)
    ensures PairsIn(part) == PairsIn(Ungrouped(part, conds, negated)) + PairsIn(GroupedOf(part, conds, negated))
  {
    hide PairsIn;
    hide PairsOf;
    hide Grouped;
    if part == [] {
      PairsOne(Constant(true));
    } else {
      var n := |part| - 1;
      PairsDivide(part[..n], conds, negated);
      var u, g := Ungrouped(part[..n], conds, negated), GroupedOf(part[..n], conds, negated);
      PairsSnoc(u, part[n]);
      PairsSnoc(g, part[n]);
      PairsSnoc(part[..n], part[n]);
      assert part == part[..n] + [part[n]] && u + [] == u && g + [] == g;
    }
  }

  /** The rewritten group holds the same inner conditions as the group it replaces, as often. */
  lemma MergingKeepsConditions(conds: seq<Cond>, negated: bool)
    ensures PairsIn(Merged(conds, negated)) == PairsIn(conds)
  {
    BatchesHoldGrouped(conds, negated);
    PairsDivide(conds, conds, negated);
    PairsAppend(Kept(conds, negated), Additions(conds, negated, SortedKeys(conds, negated)));
  }

  // ----- the rewritten group, told from the conditions alone

  /** An EXISTS of the group's polarity with an inner condition. */
  predicate Mergeable(c: Cond, negated: bool) { c.Exists? && c.negate == negated && c.inner.Some? }

  /** Both read the same role, or both the same tag, with whatever numeric flag. */
  predicate SameName(f: JsonField, g: JsonField) { f.Role? == g.Role? && f.name == g.name }

  /** Another condition of the group can be merged with this one. */
  ghost predicate HasPartner(conds: seq<Cond>, negated: bool, i: int) {
    && 0 <= i < |conds| && Mergeable(conds[i], negated)
    && exists j :: 0 <= j < |conds| && j != i
         && Mergeable(conds[j], negated) && SameName(conds[i].field, conds[j].field)
  }

  /** Filed under one key are the mergeable conditions of one name. */
  lemma SameKey(c: Cond, d: Cond, negated: bool)
    requires Mergeable(c, negated)
    ensures MergeKey(c, negated).Some?
    ensures MergeKey(d, negated) == MergeKey(c, negated) <==> Mergeable(d, negated) && SameName(c.field, d.field)
  {}

  lemma {:induction false} EntriesPrefix(conds: seq<Cond>, negated: bool, k: FieldKey, p: int -> bool, n: nat)
    requires n <= |conds| && forall i :: 0 <= i < |conds| ==> p(i) == (MergeKey(conds[i], negated) == Some(k))
    ensures Picked(conds, Entries(conds[..n], negated, k), Indexes(n, p))
  {
    hide MergeKey;
    if n > 0 {
      hide Picked;
      var m := n - 1;
      EntriesPrefix(conds, negated, k, p, m);
      assert conds[..n][..m] == conds[..m] && conds[..n][m] == conds[m];
      PickedSnoc(conds, Entries(conds[..m], negated, k), Indexes(m, p), m);
      assert Indexes(m, p) + [] == Indexes(m, p);
    }
  }

  lemma TwoIndexes(n: nat, p: int -> bool, i: int)
    requires 0 <= i < n && p(i)
    ensures |Indexes(n, p)| >= 2 <==> exists j :: 0 <= j < n && j != i && p(j)
  {
    var idx := Indexes(n, p);
    InIndexes(n, p, i);
    var a :| 0 <= a < |idx| && idx[a] == i;
    if |idx| >= 2 {
      var b := if a == 0 then 1 else 0;
      IndexesIncrease(n, p, 0, 1);
      if a > 1 { IndexesIncrease(n, p, 0, a); }
      assert idx[b] in idx;
      InIndexes(n, p, idx[b]);
    }
    if j :| 0 <= j < n && j != i && p(j) {
      InIndexes(n, p, j);
      var b :| 0 <= b < |idx| && idx[b] == j;
    }
  }

  /** A condition is merged exactly when it has a partner. */
  lemma GroupedMeans(conds: seq<Cond>, negated: bool, i: nat)
    requires i < |conds|
    ensures Grouped(conds, negated, conds[i]) <==> HasPartner(conds, negated, i)
  {
    hide Entries;
    if Mergeable(conds[i], negated) {
      var k := MergeKey(conds[i], negated).value;
      var p := (j: int) => 0 <= j < |conds| && MergeKey(conds[j], negated) == Some(k);
      EntriesPrefix(conds, negated, k, p, |conds|);
      assert conds[..|conds|] == conds;
      TwoIndexes(|conds|, p, i);
      forall j | 0 <= j < |conds|
        ensures p(j) <==> Mergeable(conds[j], negated) && SameName(conds[i].field, conds[j].field)
      {
        SameKey(conds[i], conds[j], negated);
      }
    }
  }

  lemma {:induction false} KeptPrefix(conds: seq<Cond>, negated: bool, p: int -> bool, n: nat)
    requires n <= |conds| && forall i :: 0 <= i < |conds| ==> p(i) == !Grouped(conds, negated, conds[i])
    ensures Picked(conds, Ungrouped(conds[..n], conds, negated), Indexes(n, p))
  {
    hide Grouped;
    if n > 0 {
      hide Picked;
      var m := n - 1;
      KeptPrefix(conds, negated, p, m);
      assert conds[..n][..m] == conds[..m] && conds[..n][m] == conds[m];
      PickedSnoc(conds, Ungrouped(conds[..m], conds, negated), Indexes(m, p), m);
      assert Indexes(m, p) + [] == Indexes(m, p);
    }
  }

  /**
   The rewritten group begins with exactly the conditions that have no partner, in their old order; all the
   rest are batches of the group's polarity with 1 to 350 inner conditions.
   */
  lemma MergedMeans(conds: seq<Cond>, negated: bool) returns (idx: seq<int>)
    ensures |idx| <= |Merged(conds, negated)| && InOrder(conds, Merged(conds, negated)[..|idx|], idx)
    ensures forall i :: 0 <= i < |conds| ==> (i in idx <==> !HasPartner(conds, negated, i))
    ensures forall b :: b in Merged(conds, negated)[|idx|..] ==>
              b.ExistsAny? && b.negate == negated && 1 <= |b.inners| <= 350
  {
    hide Grouped;
    hide HasPartner;
    hide Additions;
    hide Ungrouped;
    var p := (i: int) => 0 <= i < |conds| && !Grouped(conds, negated, conds[i]);
    KeptPrefix(conds, negated, p, |conds|);
    assert conds[..|conds|] == conds;
    IndexesInOrder(conds, Kept(conds, negated), |conds|, p);
    idx := Indexes(|conds|, p);
    var keys := SortedKeys(conds, negated);
    var kept, added := Kept(conds, negated), Additions(conds, negated, keys);
    assert (kept + added)[..|idx|] == kept && (kept + added)[|idx|..] == added;
    forall i | 0 <= i < |conds| ensures i in idx <==> !HasPartner(conds, negated, i) {
      GroupedMeans(conds, negated, i);
    }
    forall b | b in added ensures b.ExistsAny? && b.negate == negated && 1 <= |b.inners| <= 350 {
      AddedShape(conds, negated, keys, b);
    }
  }

  // ----- the order of the batches

  function KeyText(k: FieldKey): string { match k case RoleKey(n) => "role:" + n case TagKey(n) => "tag:" + n }

  lemma {:induction false} SamePrefixLess(p: string, a: string, b: string)
    ensures StringLess(p + a, p + b) <==> StringLess(a, b)
  {
    if p == [] {
      assert p + a == a && p + b == b;
    } else {
      assert (p + a)[1..] == p[1..] + a && (p + b)[1..] == p[1..] + b;
      SamePrefixLess(p[1..], a, b);
    }
  }

  /** Keys are sorted as the strings they are in the source. */
  lemma KeyLessMeans(a: FieldKey, b: FieldKey)
    ensures KeyLess(a, b) <==> StringLess(KeyText(a), KeyText(b))
  {
    match (a, b)
    case (RoleKey(m), RoleKey(n)) => SamePrefixLess("role:", m, n);
    case (TagKey(m), TagKey(n)) => SamePrefixLess("tag:", m, n);
    case _ =>
  }

  lemma BatchKey(conds: seq<Cond>, negated: bool, k: FieldKey, b: Cond)
    requires b in GroupBatches(conds, negated, k)
    ensures b.ExistsAny? && KeyOf(b.field) == k
  {
    var es := Entries(conds, negated, k);
    InEntries(conds, negated, k, es[0]);
  }

  lemma {:induction false} AdditionKeys(conds: seq<Cond>, negated: bool, keys: seq<FieldKey>, b: Cond)
    requires b in Additions(conds, negated, keys)
    ensures b.ExistsAny? && KeyOf(b.field) in keys
  {
    InAdditions(conds, negated, keys, b);
    var k :| k in keys && b in GroupBatches(conds, negated, k);
    BatchKey(conds, negated, k, b);
  }

  /** No batch comes before one with a smaller key. */
  lemma {:induction false} AdditionsSorted(conds: seq<Cond>, negated: bool, keys: seq<FieldKey>, i: nat, j: nat)
    requires Ascending(keys) && i < j < |Additions(conds, negated, keys)|
    ensures var a, b := Additions(conds, negated, keys)[i], Additions(conds, negated, keys)[j];
            a.ExistsAny? && b.ExistsAny? && !StringLess(KeyText(KeyOf(b.field)), KeyText(KeyOf(a.field)))
  {
    hide GroupBatches;
    var n := |keys| - 1;
    var before, own := Additions(conds, negated, keys[..n]), GroupBatches(conds, negated, keys[n]);
    var all := Additions(conds, negated, keys);
    assert all == before + own;
    hide Additions;
    if j < |before| {
      AdditionsSorted(conds, negated, keys[..n], i, j);
    } else {
      assert all[j] in own;
      BatchKey(conds, negated, keys[n], all[j]);
      if i < |before| {
        assert all[i] in before;
        AdditionKeys(conds, negated, keys[..n], all[i]);
        var k :| 0 <= k < n && keys[k] == KeyOf(all[i].field);
        KeyOrder(keys[k], keys[n], keys[k]);
        KeyLessMeans(keys[n], keys[k]);
      } else {
        assert all[i] in own;
        BatchKey(conds, negated, keys[n], all[i]);
        KeyOrder(keys[n], keys[n], keys[n]);
        KeyLessMeans(keys[n], keys[n]);
      }
    }
  }
}
