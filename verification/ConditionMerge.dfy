/**
 The merging of same-field EXISTS conditions inside one AND or OR group.
 `Merged` says what the rewritten group is; `MergeSameFieldConds` is the loop that builds it.
 */
module ConditionMerge {
  import opened Common
  import opened SqlCondition

  const BATCH_SIZE := 350

  /** The grouping key: "role:" names sort before "tag:" names. A tag's key does not hold its numeric flag. */
  datatype FieldKey = RoleKey(name: string) | TagKey(name: string)

  function KeyOf(f: JsonField): FieldKey {
    match f case Role(r) => RoleKey(r) case Tag(t, _) => TagKey(t)
  }

  predicate KeyLess(a: FieldKey, b: FieldKey) {
    match (a, b)
    case (RoleKey(_), TagKey(_)) => true
    case (TagKey(_), RoleKey(_)) => false
    case _ => StringLess(a.name, b.name)
  }

  lemma StringOrder(a: string, b: string, c: string)
    ensures !StringLess(a, a)
    ensures a == b || StringLess(a, b) || StringLess(b, a)
    ensures StringLess(a, b) && StringLess(b, c) ==> StringLess(a, c)
  {
    if a != "" && b != "" {
      StringOrder(a[1..], b[1..], if c == "" then "" else c[1..]);
      assert a == [a[0]] + a[1..] && b == [b[0]] + b[1..];
    }
  }

  lemma KeyOrder(a: FieldKey, b: FieldKey, c: FieldKey)
    ensures !KeyLess(a, a)
    ensures a == b || KeyLess(a, b) || KeyLess(b, a)
    ensures KeyLess(a, b) && KeyLess(b, c) ==> KeyLess(a, c)
  {
    StringOrder(a.name, b.name, c.name);
  }

  ghost predicate Ascending(keys: seq<FieldKey>) {
    forall i, j :: 0 <= i < j < |keys| ==> KeyLess(keys[i], keys[j])
  }

  lemma SameMembersEmpty(a: seq<FieldKey>, b: seq<FieldKey>)
    requires forall k :: k in a <==> k in b
    ensures b != [] ==> a != []
  {
    if b != [] { assert b[0] in a; }
  }

  /** Ascending sequences with the same members are equal, so sorting map keys has one result. */
  lemma {:induction false} AscendingUnique(a: seq<FieldKey>, b: seq<FieldKey>)
    requires Ascending(a) && Ascending(b)
    requires forall k :: k in a <==> k in b
    ensures a == b
  {
    SameMembersEmpty(a, b);
    SameMembersEmpty(b, a);
    if a != [] {
      assert a[0] in b && b[0] in a;
      KeyOrder(a[0], b[0], a[0]);
      KeyOrder(b[0], a[0], b[0]);
      assert a[0] == b[0];
      KeyOrder(a[0], a[0], a[0]);
      forall k ensures k in a[1..] <==> k in b[1..] {
        assert k in a <==> k == a[0] || k in a[1..];
        assert k in b <==> k == b[0] || k in b[1..];
        assert a[0] !in a[1..] && b[0] !in b[1..];
      }
      AscendingUnique(a[1..], b[1..]);
      assert a == [a[0]] + a[1..] && b == [b[0]] + b[1..];
    }
  }

  /** The key under which a condition may be merged, if it has the wanted polarity and an inner condition. */
  function MergeKey(c: Cond, negated: bool): Option<FieldKey> {
    if c.Exists? && c.negate == negated && c.inner.Some? then Some(KeyOf(c.field)) else None
  }

  /** The mergeable conditions under `key`, in their original order. */
  function Entries(conds: seq<Cond>, negated: bool, key: FieldKey): seq<Cond> {
    if conds == [] then []
    else
      var n := |conds| - 1;
      Entries(conds[..n], negated, key) + if MergeKey(conds[n], negated) == Some(key) then [conds[n]] else []
  }

  lemma {:induction false} InEntries(conds: seq<Cond>, negated: bool, key: FieldKey, c: Cond)
    ensures c in Entries(conds, negated, key) <==> c in conds && MergeKey(c, negated) == Some(key)
  {
    if conds != [] {
      var n := |conds| - 1;
      InEntries(conds[..n], negated, key, c);
      assert conds == conds[..n] + [conds[n]];
    }
  }

  predicate Grouped(conds: seq<Cond>, negated: bool, c: Cond) {
    var k := MergeKey(c, negated);
    k.Some? && |Entries(conds, negated, k.value)| >= 2
  }

  /** What stays as it was: every condition outside a group of two or more. */
  function Kept(conds: seq<Cond>, negated: bool): seq<Cond> {
    Ungrouped(conds, conds, negated)
  }

  /** The conditions of `part` that `conds` does not group, in their original order. */
  function Ungrouped(part: seq<Cond>, conds: seq<Cond>, negated: bool): seq<Cond> {
    if part == [] then []
    else
      var n := |part| - 1;
      Ungrouped(part[..n], conds, negated) + if Grouped(conds, negated, part[n]) then [] else [part[n]]
  }

  lemma {:induction false} InUngrouped(part: seq<Cond>, conds: seq<Cond>, negated: bool, c: Cond)
    ensures c in Ungrouped(part, conds, negated) <==> c in part && !Grouped(conds, negated, c)
  {
    if part != [] {
      var n := |part| - 1;
      InUngrouped(part[..n], conds, negated, c);
      assert part == part[..n] + [part[n]];
    }
  }

  function InnerOf(c: Cond): Inner {
    if c.Exists? && c.inner.Some? then c.inner.value else InnerLike("")
  }

  function Inners(cs: seq<Cond>): seq<Inner> {
    seq(|cs|, i requires 0 <= i < |cs| => InnerOf(cs[i]))
  }

  function FieldOf(c: Cond): JsonField {
    if c.Exists? then c.field else Role("")
  }

  /** The batched EXISTS conditions over one field. */
  function Batches(field: JsonField, inners: seq<Inner>, negated: bool): (r: seq<Cond>)
    ensures |r| == |Chunks(inners, BATCH_SIZE)|
    ensures forall i :: 0 <= i < |r| ==> r[i] == ExistsAny(field, Chunks(inners, BATCH_SIZE)[i], negated)
  {
    var cs := Chunks(inners, BATCH_SIZE);
    seq(|cs|, i requires 0 <= i < |cs| => ExistsAny(field, cs[i], negated))
  }

  /** A key's batches, none unless it has two conditions; its first condition's field stands for all. */
  function GroupBatches(conds: seq<Cond>, negated: bool, key: FieldKey): seq<Cond> {
    var es := Entries(conds, negated, key);
    if |es| < 2 then [] else Batches(FieldOf(es[0]), Inners(es), negated)
  }

  function Additions(conds: seq<Cond>, negated: bool, keys: seq<FieldKey>): seq<Cond> {
    FlatMap(keys, k => GroupBatches(conds, negated, k))
  }

  /** `keys` lists, in order, every key some condition of the group can be merged under. */
  ghost predicate IsKeyListing(conds: seq<Cond>, negated: bool, keys: seq<FieldKey>) {
    && Ascending(keys)
    && forall k :: k in keys <==> exists c :: c in conds && MergeKey(c, negated) == Some(k)
  }

  /** `keys` with `k` put in its sorted place, unless it is already there. */
  function InsertKey(keys: seq<FieldKey>, k: FieldKey): (r: seq<FieldKey>)
    requires Ascending(keys)
    ensures Ascending(r)
    ensures forall x :: x in r <==> x in keys || x == k
  {
    if keys == [] then [k]
    else
      var last := keys[|keys| - 1];
      KeyOrder(last, k, last);
      KeyOrder(k, last, k);
      assert keys == keys[..|keys| - 1] + [last];
      if last == k then keys
      else if KeyLess(last, k) then
        assert forall i :: 0 <= i < |keys| ==> KeyLess(keys[i], k) by {
          forall i | 0 <= i < |keys| ensures KeyLess(keys[i], k) { KeyOrder(keys[i], last, k); }
        }
        keys + [k]
      else
        var front := InsertKey(keys[..|keys| - 1], k);
        assert forall x :: x in front ==> KeyLess(x, last);
        front + [last]
  }

  function SortedKeys(conds: seq<Cond>, negated: bool): (keys: seq<FieldKey>)
    ensures IsKeyListing(conds, negated, keys)
  {
    if conds == [] then []
    else
      var n := |conds| - 1;
      var rest := SortedKeys(conds[..n], negated);
      assert forall c :: c in conds <==> c in conds[..n] || c == conds[n];
      if MergeKey(conds[n], negated).Some? then InsertKey(rest, MergeKey(conds[n], negated).value) else rest
  }

  /** The rewritten group: what stays, then the batches key by key. */
  function Merged(conds: seq<Cond>, negated: bool): seq<Cond> {
    Kept(conds, negated) + Additions(conds, negated, SortedKeys(conds, negated))
  }

  // ----- what merging keeps

  /** Every condition filed under one key reads the same field; the numeric flag cannot vary. */
  ghost predicate Uniform(conds: seq<Cond>, negated: bool) {
    forall c, d :: c in conds && d in conds
                   && MergeKey(c, negated).Some? && MergeKey(c, negated) == MergeKey(d, negated)
      ==> c.field == d.field
  }

  lemma InAdditions(conds: seq<Cond>, negated: bool, keys: seq<FieldKey>, c: Cond)
    ensures c in Additions(conds, negated, keys) <==> exists k :: k in keys && c in GroupBatches(conds, negated, k)
  {
    var f := k => GroupBatches(conds, negated, k);
    InFlatMap(keys, f, c);
    assert forall k :: c in f(k) <==> c in GroupBatches(conds, negated, k);
  }

  lemma {:induction false} BatchCount(inners: seq<Inner>)
    ensures |Chunks(inners, BATCH_SIZE)| == (|inners| + BATCH_SIZE - 1) / BATCH_SIZE
    decreases |inners|
  {
    if |inners| > BATCH_SIZE {
      BatchCount(inners[BATCH_SIZE..]);
    }
  }

  /** A group's batches hold each of its inner conditions once, in order, in as few batches of 350 as will do. */
  lemma BatchesPartition(field: JsonField, inners: seq<Inner>, negated: bool)
    ensures var bs := Batches(field, inners, negated);
            && (forall b :: b in bs ==> b.ExistsAny? && b.negate == negated && 0 < |b.inners| <= BATCH_SIZE)
            && Concat(seq(|bs|, i requires 0 <= i < |bs| => if bs[i].ExistsAny? then bs[i].inners else [])) == inners
            && |bs| == (|inners| + BATCH_SIZE - 1) / BATCH_SIZE
  {
    BatchCount(inners);
    var bs := Batches(field, inners, negated);
    var cs := Chunks(inners, BATCH_SIZE);
    forall b | b in bs ensures b.ExistsAny? && b.negate == negated && 0 < |b.inners| <= BATCH_SIZE {
      var i :| 0 <= i < |bs| && bs[i] == b;
      assert cs[i] in cs;
    }
    assert seq(|bs|, i requires 0 <= i < |bs| => if bs[i].ExistsAny? then bs[i].inners else []) == cs;
  }

  lemma PiecesFind(e: Engine, f: JsonField, pieces: seq<seq<Inner>>, row: Row)
    ensures (exists i :: 0 <= i < |pieces| && SomeElementAny(e, f, pieces[i], row))
       <==> (exists n :: n in Concat(pieces) && SomeElement(e, f, n, row))
  {
    if i :| 0 <= i < |pieces| && SomeElementAny(e, f, pieces[i], row) {
      BatchSplits(e, f, pieces[i], row);
      var n :| n in pieces[i] && SomeElement(e, f, n, row);
      InConcat(pieces, n);
    }
    if n :| n in Concat(pieces) && SomeElement(e, f, n, row) {
      InConcat(pieces, n);
      var i :| 0 <= i < |pieces| && n in pieces[i];
      BatchSplits(e, f, pieces[i], row);
    }
  }

  /** Some batch finds a value exactly when some inner condition does. */
  lemma BatchesFind(e: Engine, f: JsonField, inners: seq<Inner>, negated: bool, row: Row)
    ensures (exists b :: b in Batches(f, inners, negated) && Hit(e, b, row))
       <==> (exists n :: n in inners && SomeElement(e, f, n, row))
  {
    var bs, cs := Batches(f, inners, negated), Chunks(inners, BATCH_SIZE);
    PiecesFind(e, f, cs, row);
    if b :| b in bs && Hit(e, b, row) {
      var i :| 0 <= i < |bs| && bs[i] == b;
      assert SomeElementAny(e, f, cs[i], row);
    }
    if i :| 0 <= i < |cs| && SomeElementAny(e, f, cs[i], row) {
      assert bs[i] in bs && Hit(e, bs[i], row);
    }
  }

  /** The group's own conditions and its batches agree: one of them is hit exactly when the other is. */
  ghost predicate Hit(e: Engine, c: Cond, row: Row) {
    || (c.Exists? && c.inner.Some? && SomeElement(e, c.field, c.inner.value, row))
    || (c.ExistsAny? && SomeElementAny(e, c.field, c.inners, row))
  }

  lemma HitMeaning(e: Engine, c: Cond, row: Row)
    requires (c.Exists? && c.inner.Some?) || c.ExistsAny?
    ensures Selected(e, c, row) <==> (c.negate != Hit(e, c, row))
  {}

  lemma EntriesFind(e: Engine, f: JsonField, es: seq<Cond>, row: Row)
    requires forall c :: c in es ==> c.Exists? && c.inner.Some? && c.field == f
    ensures (exists n :: n in Inners(es) && SomeElement(e, f, n, row)) <==> (exists c :: c in es && Hit(e, c, row))
  {
    if n :| n in Inners(es) && SomeElement(e, f, n, row) {
      var j :| 0 <= j < |es| && Inners(es)[j] == n;
      assert es[j] in es && Hit(e, es[j], row);
    }
    if c :| c in es && Hit(e, c, row) {
      var j :| 0 <= j < |es| && es[j] == c;
      assert Inners(es)[j] in Inners(es) && SomeElement(e, f, Inners(es)[j], row);
    }
  }

  lemma GroupHits(e: Engine, conds: seq<Cond>, negated: bool, key: FieldKey, row: Row)
    requires Uniform(conds, negated) && |Entries(conds, negated, key)| >= 2
    ensures (exists b :: b in GroupBatches(conds, negated, key) && Hit(e, b, row))
       <==> (exists c :: c in Entries(conds, negated, key) && Hit(e, c, row))
  {
    var es := Entries(conds, negated, key);
    var f, inners := FieldOf(es[0]), Inners(es);
    BatchesFind(e, f, inners, negated, row);
    forall c | c in es ensures c in conds && MergeKey(c, negated) == Some(key) && c.field == f {
      InEntries(conds, negated, key, c);
      InEntries(conds, negated, key, es[0]);
    }
    EntriesFind(e, f, es, row);
  }

  /** The merged-away conditions are hit exactly when an added batch is. */
  lemma AdditionsHit(e: Engine, conds: seq<Cond>, negated: bool, keys: seq<FieldKey>, row: Row)
    requires Uniform(conds, negated) && IsKeyListing(conds, negated, keys)
    ensures (exists b :: b in Additions(conds, negated, keys) && Hit(e, b, row))
       <==> (exists c :: c in conds && Grouped(conds, negated, c) && Hit(e, c, row))
  {
    if b :| b in Additions(conds, negated, keys) && Hit(e, b, row) {
      InAdditions(conds, negated, keys, b);
      var k :| k in keys && b in GroupBatches(conds, negated, k);
      GroupHits(e, conds, negated, k, row);
      var c :| c in Entries(conds, negated, k) && Hit(e, c, row);
      InEntries(conds, negated, k, c);
      assert Grouped(conds, negated, c);
    }
    if c :| c in conds && Grouped(conds, negated, c) && Hit(e, c, row) {
      var k := MergeKey(c, negated).value;
      InEntries(conds, negated, k, c);
      GroupHits(e, conds, negated, k, row);
      var b :| b in GroupBatches(conds, negated, k) && Hit(e, b, row);
      InAdditions(conds, negated, keys, b);
    }
  }

  /** Every added condition is a batch of the group's polarity holding at most 350 inner conditions. */
  lemma AddedShape(conds: seq<Cond>, negated: bool, keys: seq<FieldKey>, b: Cond)
    requires b in Additions(conds, negated, keys)
    ensures b.ExistsAny? && b.negate == negated && 0 < |b.inners| <= BATCH_SIZE
  {
    InAdditions(conds, negated, keys, b);
    var k :| k in keys && b in GroupBatches(conds, negated, k);
    var es := Entries(conds, negated, k);
    BatchesPartition(FieldOf(es[0]), Inners(es), negated);
  }

  lemma InMerged(conds: seq<Cond>, negated: bool, keys: seq<FieldKey>, c: Cond)
    ensures c in Kept(conds, negated) + Additions(conds, negated, keys)
       <==> (c in conds && !Grouped(conds, negated, c)) || c in Additions(conds, negated, keys)
  {
    InUngrouped(conds, conds, negated, c);
  }

  /** A grouped condition is selected exactly when its polarity and its hit differ, and so is a batch. */
  lemma GroupedMeaning(e: Engine, conds: seq<Cond>, negated: bool, c: Cond, row: Row)
    requires Grouped(conds, negated, c)
    ensures Selected(e, c, row) <==> (negated != Hit(e, c, row))
  {
    HitMeaning(e, c, row);
  }

  lemma AddedMeaning(e: Engine, conds: seq<Cond>, negated: bool, keys: seq<FieldKey>, b: Cond, row: Row)
    requires b in Additions(conds, negated, keys)
    ensures Selected(e, b, row) <==> (negated != Hit(e, b, row))
  {
    AddedShape(conds, negated, keys, b);
    HitMeaning(e, b, row);
  }

  lemma SomeMerged(e: Engine, conds: seq<Cond>, keys: seq<FieldKey>, row: Row)
    requires Uniform(conds, false) && IsKeyListing(conds, false, keys)
    ensures var r := Kept(conds, false) + Additions(conds, false, keys);
            (exists b :: b in r && Selected(e, b, row)) <==> (exists c :: c in conds && Selected(e, c, row))
  {
    var r := Kept(conds, false) + Additions(conds, false, keys);
    AdditionsHit(e, conds, false, keys, row);
    if c :| c in conds && Selected(e, c, row) {
      InMerged(conds, false, keys, c);
      if Grouped(conds, false, c) {
        GroupedMeaning(e, conds, false, c, row);
        var b :| b in Additions(conds, false, keys) && Hit(e, b, row);
        AddedMeaning(e, conds, false, keys, b, row);
        assert b in r;
      }
    }
    if b :| b in r && Selected(e, b, row) {
      InMerged(conds, false, keys, b);
      if b in Additions(conds, false, keys) {
        AddedMeaning(e, conds, false, keys, b, row);
        var c :| c in conds && Grouped(conds, false, c) && Hit(e, c, row);
        GroupedMeaning(e, conds, false, c, row);
      }
    }
  }

  lemma EveryMerged(e: Engine, conds: seq<Cond>, keys: seq<FieldKey>, row: Row)
    requires Uniform(conds, true) && IsKeyListing(conds, true, keys)
    ensures var r := Kept(conds, true) + Additions(conds, true, keys);
            (exists b :: b in r && !Selected(e, b, row)) <==> (exists c :: c in conds && !Selected(e, c, row))
  {
    var r := Kept(conds, true) + Additions(conds, true, keys);
    AdditionsHit(e, conds, true, keys, row);
    if c :| c in conds && !Selected(e, c, row) {
      InMerged(conds, true, keys, c);
      if Grouped(conds, true, c) {
        GroupedMeaning(e, conds, true, c, row);
        var b :| b in Additions(conds, true, keys) && Hit(e, b, row);
        AddedMeaning(e, conds, true, keys, b, row);
        assert b in r;
      }
    }
    if b :| b in r && !Selected(e, b, row) {
      InMerged(conds, true, keys, b);
      if b in Additions(conds, true, keys) {
        AddedMeaning(e, conds, true, keys, b, row);
        var c :| c in conds && Grouped(conds, true, c) && Hit(e, c, row);
        GroupedMeaning(e, conds, true, c, row);
      }
    }
  }

  /** Merging an OR group keeps the rows it selects. */
  lemma MergedOrSelects(e: Engine, conds: seq<Cond>, row: Row)
    requires Uniform(conds, false)
    ensures Selected(e, Or(Merged(conds, false)), row) <==> Selected(e, Or(conds), row)
  {
    OrSelected(e, conds, row);
    OrSelected(e, Merged(conds, false), row);
    SomeMerged(e, conds, SortedKeys(conds, false), row);
  }

  /** By De Morgan, merging the negated conditions of an AND group keeps the rows it selects. */
  lemma MergedAndSelects(e: Engine, conds: seq<Cond>, row: Row)
    requires Uniform(conds, true)
    ensures Selected(e, And(Merged(conds, true)), row) <==> Selected(e, And(conds), row)
  {
    AndSelected(e, conds, row);
    AndSelected(e, Merged(conds, true), row);
    EveryMerged(e, conds, SortedKeys(conds, true), row);
  }

  // ----- the loop

  /** What the loop gathers for one key: the field of its first condition, and every condition's index. */
  datatype Group = Group(field: JsonField, inners: seq<Inner>, indices: seq<nat>)

  ghost predicate GroupFor(conds: seq<Cond>, negated: bool, n: nat, k: FieldKey, g: Group)
    requires n <= |conds|
  {
    var es := Entries(conds[..n], negated, k);
    && es != [] && g.field == FieldOf(es[0])
    && g.inners == Inners(es)
    && forall j :: j in g.indices <==> 0 <= j < n && MergeKey(conds[j], negated) == Some(k)
  }

  lemma EntriesSnoc(conds: seq<Cond>, negated: bool, n: nat, k: FieldKey)
    requires n < |conds|
    ensures Entries(conds[..n + 1], negated, k) ==
            Entries(conds[..n], negated, k) + if MergeKey(conds[n], negated) == Some(k) then [conds[n]] else []
  {
    assert conds[..n + 1][..n] == conds[..n];
  }

  ghost predicate GroupsFor(conds: seq<Cond>, negated: bool, n: nat, groups: map<FieldKey, Group>)
    requires n <= |conds|
  {
    && (forall k :: k in groups <==> Entries(conds[..n], negated, k) != [])
    && (forall k :: k in groups ==> GroupFor(conds, negated, n, k, groups[k]))
  }

  /** The groups map after one more condition. */
  function File(groups: map<FieldKey, Group>, c: Cond, i: nat, negated: bool): map<FieldKey, Group> {
    var key := MergeKey(c, negated);
    if key.None? then groups
    else
      var g := if key.value in groups then groups[key.value] else Group(c.field, [], []);
      groups[key.value := Group(g.field, g.inners + [InnerOf(c)], g.indices + [i])]
  }

  lemma FileKeepsGroup(conds: seq<Cond>, negated: bool, i: nat, groups: map<FieldKey, Group>, k: FieldKey)
    requires i < |conds| && GroupsFor(conds, negated, i, groups)
    ensures var gs := File(groups, conds[i], i, negated);
            && (k in gs <==> Entries(conds[..i + 1], negated, k) != [])
            && (k in gs ==> GroupFor(conds, negated, i + 1, k, gs[k]))
  {
    EntriesSnoc(conds, negated, i, k);
    var es, es' := Entries(conds[..i], negated, k), Entries(conds[..i + 1], negated, k);
    if MergeKey(conds[i], negated) == Some(k) {
      assert Inners(es') == Inners(es) + [InnerOf(conds[i])];
      if k in groups {
        assert GroupFor(conds, negated, i, k, groups[k]);
      }
      forall j | 0 <= j < i && MergeKey(conds[j], negated) == Some(k) ensures k in groups {
        assert conds[j] in conds[..i];
        InEntries(conds[..i], negated, k, conds[j]);
      }
    } else if k in groups {
      assert GroupFor(conds, negated, i, k, groups[k]);
    }
  }

  method CollectGroups(conds: seq<Cond>, negated: bool) returns (groups: map<FieldKey, Group>)
    ensures GroupsFor(conds, negated, |conds|, groups)
  {
    groups := map[];
    for i := 0 to |conds|
      invariant GroupsFor(conds, negated, i, groups)
    {
      forall k ensures var gs := File(groups, conds[i], i, negated);
                       && (k in gs <==> Entries(conds[..i + 1], negated, k) != [])
                       && (k in gs ==> GroupFor(conds, negated, i + 1, k, gs[k])) {
        FileKeepsGroup(conds, negated, i, groups, k);
      }
      groups := File(groups, conds[i], i, negated);
    }
  }

  method SortKeys(keys: set<FieldKey>) returns (sorted: seq<FieldKey>)
    ensures Ascending(sorted)
    ensures forall k :: k in sorted <==> k in keys
  {
    sorted := [];
    var todo := keys;
    while todo != {}
      invariant todo <= keys && Ascending(sorted)
      invariant forall k :: k in sorted <==> k in keys - todo
      decreases todo
    {
      var k :| k in todo;
      sorted := InsertKey(sorted, k);
      todo := todo - {k};
    }
  }

  lemma GroupKeysListed(conds: seq<Cond>, negated: bool, groups: map<FieldKey, Group>, k: FieldKey)
    requires GroupsFor(conds, negated, |conds|, groups)
    ensures k in groups <==> k in SortedKeys(conds, negated)
  {
    assert conds[..|conds|] == conds;
    var es := Entries(conds, negated, k);
    if es != [] { InEntries(conds, negated, k, es[0]); }
    if c :| c in conds && MergeKey(c, negated) == Some(k) { InEntries(conds, negated, k, c); }
  }

  /** The indices that some group of two or more, among the given keys, removes from the condition list. */
  ghost predicate RemovedBy(conds: seq<Cond>, negated: bool, keys: seq<FieldKey>, j: nat) {
    j < |conds| && Grouped(conds, negated, conds[j]) && MergeKey(conds[j], negated).value in keys
  }

  lemma RemovedStep(conds: seq<Cond>, negated: bool, keys: seq<FieldKey>, n: nat, g: Group, j: nat)
    requires n < |keys| && GroupFor(conds, negated, |conds|, keys[n], g)
    ensures RemovedBy(conds, negated, keys[..n + 1], j) <==>
            RemovedBy(conds, negated, keys[..n], j) || (|g.inners| >= 2 && j in g.indices)
  {
    assert conds[..|conds|] == conds;
    assert keys[..n + 1] == keys[..n] + [keys[n]];
  }

  lemma AdditionsStep(conds: seq<Cond>, negated: bool, keys: seq<FieldKey>, n: nat, g: Group)
    requires n < |keys| && GroupFor(conds, negated, |conds|, keys[n], g)
    ensures Additions(conds, negated, keys[..n + 1]) ==
            Additions(conds, negated, keys[..n]) + if |g.inners| >= 2 then Batches(g.field, g.inners, negated) else []
  {
    assert conds[..|conds|] == conds;
    assert keys[..n + 1][..n] == keys[..n];
    assert GroupBatches(conds, negated, keys[n]) == if |g.inners| >= 2 then Batches(g.field, g.inners, negated) else [];
  }

  method AppendBatches(g: Group, negated: bool, additions: seq<Cond>) returns (r: seq<Cond>)
    ensures r == additions + Batches(g.field, g.inners, negated)
  {
    var batches := Chunks(g.inners, BATCH_SIZE);
    r := additions;
    for b := 0 to |batches|
      invariant r == additions + Batches(g.field, g.inners, negated)[..b]
    {
      var all := Batches(g.field, g.inners, negated);
      assert all[..b + 1] == all[..b] + [all[b]];
      r := r + [ExistsAny(g.field, batches[b], negated)];
    }
  }

  method BatchGroups(conds: seq<Cond>, negated: bool, groups: map<FieldKey, Group>, keys: seq<FieldKey>)
    returns (remove: set<nat>, additions: seq<Cond>)
    requires GroupsFor(conds, negated, |conds|, groups) && keys == SortedKeys(conds, negated)
    requires forall k :: k in keys ==> k in groups
    ensures additions == Additions(conds, negated, keys)
    ensures forall j :: j in remove <==> RemovedBy(conds, negated, keys, j)
  {
    remove, additions := {}, [];
    for n := 0 to |keys|
      invariant additions == Additions(conds, negated, keys[..n])
      invariant forall j :: j in remove <==> RemovedBy(conds, negated, keys[..n], j)
    {
      var g := groups[keys[n]];
      assert GroupFor(conds, negated, |conds|, keys[n], g);
      forall j: nat ensures RemovedBy(conds, negated, keys[..n + 1], j) <==>
            RemovedBy(conds, negated, keys[..n], j) || (|g.inners| >= 2 && j in g.indices) {
        RemovedStep(conds, negated, keys, n, g, j);
      }
      AdditionsStep(conds, negated, keys, n, g);
      if |g.inners| >= 2 {
        remove := remove + (set j | j in g.indices);
        additions := AppendBatches(g, negated, additions);
      }
    }
    assert keys[..|keys|] == keys;
  }

  method DropRemoved(conds: seq<Cond>, negated: bool, remove: set<nat>) returns (r: seq<Cond>)
    requires forall j :: 0 <= j < |conds| ==> (j in remove <==> Grouped(conds, negated, conds[j]))
    ensures r == Kept(conds, negated)
  {
    r := [];
    for i := 0 to |conds|
      invariant r == Ungrouped(conds[..i], conds, negated)
    {
      assert conds[..i + 1][..i] == conds[..i];
      if i !in remove {
        r := r + [conds[i]];
      }
    }
    assert conds[..|conds|] == conds;
  }

  /**
   Groups the conditions that share a field and the wanted polarity, and replaces each group of two or
   more by batched subqueries appended after everything else. `any` reports whether a merge happened.
   */
  method MergeSameFieldConds(conds: seq<Cond>, negated: bool) returns (r: seq<Cond>, any: bool)
    ensures r == Merged(conds, negated)
    ensures any <==> exists c :: c in conds && Grouped(conds, negated, c)
  {
    var groups := CollectGroups(conds, negated);
    forall k ensures k in groups <==> k in SortedKeys(conds, negated) {
      GroupKeysListed(conds, negated, groups, k);
    }
    var keys := SortKeys(groups.Keys);
    AscendingUnique(keys, SortedKeys(conds, negated));
    var remove, additions := BatchGroups(conds, negated, groups, keys);
    forall j | 0 <= j < |conds| ensures j in remove <==> Grouped(conds, negated, conds[j]) {
      assert conds[j] in conds;
    }
    any := remove != {};
    r := DropRemoved(conds, negated, remove);
    r := r + additions;
  }
}
