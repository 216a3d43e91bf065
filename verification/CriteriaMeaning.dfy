/**
 What a smart playlist's rules mean for one track, in two truth values and without SQL: which tracks a rule
 is about, what a missing annotation counts as, how values compare, where a text occurs in another, and when
 a tag or role has a matching value.
 */
module CriteriaMeaning {
  import opened Common
  import opened SqlLike
  import opened SqlCondition
  import opened ConditionMerge
  import opened DayCounts
  import opened CriteriaSql

  /** What a field name stands for. */
  datatype Subject =
    | Many(field: JsonField)
    | Defaulted(column: string, default: real)
    | Single(column: string)
    | Nothing

  function SubjectOf(cat: Catalog, field: string): Subject {
    if field !in cat.fields then Nothing
    else
      var info := cat.fields[field];
      if info.isRole then Many(Role(info.name))
      else if info.isTag then Many(Tag(info.name, info.numeric))
      else if info.name !in cat.columns then Nothing
      else
        var col := cat.columns[info.name];
        if col.default.Some? then Defaulted(col.expr, col.default.value.AsReal())
        else if col.expr == "" then Nothing
        else Single(col.expr)
  }

  /** The one value of a column field; a missing annotation counts as its default. */
  function ValueOf(s: Subject, row: Row): Value {
    match s
    case Defaulted(c, d) => if row.columns(c).Null? then Num(d) else row.columns(c)
    case Single(c) => row.columns(c)
    case _ => Null
  }

  ghost predicate SomeValue(f: JsonField, row: Row, e: Engine, ok: Value -> bool) {
    exists x :: x in Elements(f, row) && ok(if f.Tag? && f.numeric then e.cast(x) else x)
  }

  /** The order of values: numbers by size, before all texts, and those character by character. */
  predicate Below(a: Value, b: Value) {
    match (a, b)
    case (Num(x), Num(y)) => x < y
    case (Num(_), Text(_)) => true
    case (Text(s), Text(t)) => StringLess(s, t)
    case _ => false
  }

  /** The value is there and stands in the given relation; a list asks for one of its members, or for none. */
  ghost predicate Holds(x: Value, op: Cmp, v: Comparand) {
    if v.List? then
      match op
      case CmpEq => !x.Null? && exists i :: 0 <= i < |v.items| && x == Bound(v.items[i])
      case CmpNe => v.items == [] || (!x.Null? && forall i :: 0 <= i < |v.items| ==> x != Bound(v.items[i]))
      case _ => false
    else
      var y := Bound(v);
      !x.Null? &&
      match op
      case CmpEq => x == y
      case CmpNe => x != y
      case CmpGt => Below(y, x)
      case CmpGe => !Below(x, y)
      case CmpLt => Below(x, y)
      case CmpLe => !Below(y, x)
  }

  /** Three-valued comparison is TRUE exactly when the relation holds. */
  lemma HoldsIsTrue(x: Value, op: Cmp, v: Comparand)
    ensures Compare(x, op, v) == True <==> Holds(x, op, v)
  {
    if x.Text? && v.Word? { StringOrder(x.s, v.s, x.s); }
    if v.List? && !x.Null? {
      forall i | 0 <= i < |v.items|
        ensures CompareScalar(x, CmpEq, Bound(v.items[i])) == True <==> x == Bound(v.items[i])
      {
        if x.Text? && Bound(v.items[i]).Text? { StringOrder(x.s, v.items[i].s, x.s); }
      }
    }
  }

  /** The field satisfies the comparison; a tag or role does when one of its values does. */
  ghost predicate Satisfies(s: Subject, op: Cmp, v: Comparand, e: Engine, row: Row) {
    if s.Many? then SomeValue(s.field, row, e, x => Holds(x, op, v)) else Holds(ValueOf(s, row), op, v)
  }

  /** The column that holds a field with no default applied. */
  function RawColumn(cat: Catalog, field: string): Option<string> {
    if field in cat.fields && !cat.fields[field].isTag && !cat.fields[field].isRole
       && cat.fields[field].name in cat.columns && cat.columns[cat.fields[field].name].expr != ""
    then Some(cat.columns[cat.fields[field].name].expr) else None
  }

  ghost predicate Absent(cat: Catalog, field: string, row: Row) {
    var s := SubjectOf(cat, field);
    if s.Many? then Elements(s.field, row) == []
    else
      field in cat.fields && RawColumn(cat, field).Some? &&
      var info := cat.fields[field];
      var x := row.columns(RawColumn(cat, field).value);
      x.Null? || (!info.numeric && !info.boolean && x.Text? && (x.s == "" || x.s in cat.columns[info.name].emptyValues))
  }

  ghost predicate WellFormed(cat: Catalog, x: Expr)
    decreases x
  {
    match x
    case All(cs) => forall i :: 0 <= i < |cs| ==> WellFormed(cat, cs[i])
    case Any(cs) => forall i :: 0 <= i < |cs| ==> WellFormed(cat, cs[i])
    case InTheRange(f, b) => SubjectOf(cat, f) != Nothing && !SubjectOf(cat, f).Many? && b.List? && |b.items| == 2
    case InTheLast(f, d) => RawColumn(cat, f).Some? && ParseInt(d).Some?
    case NotInTheLast(f, d) => RawColumn(cat, f).Some? && ParseInt(d).Some?
    case InPlaylist(id, path) => id != "" || path != ""
    case NotInPlaylist(id, path) => id != "" || path != ""
    case IsMissing(f, v) => v.Boolean? && CanBeMissing(cat, f)
    case IsPresent(f, v) => v.Boolean? && CanBeMissing(cat, f)
    case _ => SubjectOf(cat, x.field) != Nothing
  }

  ghost predicate CanBeMissing(cat: Catalog, f: string) {
    && f in cat.fields
    && (cat.fields[f].isTag || cat.fields[f].isRole || (cat.fields[f].nullable && RawColumn(cat, f).Some?))
  }

  /** A stretch of text reads as `t`, up to ASCII case; % in `t` stands for anything and _ for any character. */
  ghost predicate Reads(t: string, piece: string) {
    if Plain(t) then SameText(t, piece) else Fits(t, piece)
  }

  /** Some stretch of `s` reads as `t`: anywhere, at its start, or at its end. */
  ghost predicate Occurs(affix: Affix, t: string, s: string) {
    exists i, j :: 0 <= i <= j <= |s| && (affix.StartsText? ==> i == 0) && (affix.EndsText? ==> j == |s|)
      && Reads(t, s[i..j])
  }

  function TextOf(e: Engine, x: Value): string {
    match x case Null => "" case Num(n) => e.show(n) case Text(s) => s
  }

  ghost predicate Shows(e: Engine, x: Value, affix: Affix, t: string) {
    !x.Null? && Occurs(affix, t, TextOf(e, x))
  }

  ghost predicate ShowsSome(s: Subject, affix: Affix, t: string, e: Engine, row: Row) {
    if s.Many? then SomeValue(s.field, row, e, x => Shows(e, x, affix, t)) else Shows(e, ValueOf(s, row), affix, t)
  }

  /** A negated text rule asks for no matching value of a tag or role, and for a column value that does not match. */
  ghost predicate ShowsNone(s: Subject, affix: Affix, t: string, e: Engine, row: Row) {
    !ShowsSome(s, affix, t, e, row) && (s.Many? || !ValueOf(s, row).Null?)
  }

  /** The first day of the period, written as a date. */
  function PeriodStart(cat: Catalog, days: string): string
    requires ParseInt(days).Some?
  {
    cat.dateAt(PeriodOffset(ParseInt(days).value))
  }

  function RefOf(id: string, path: string): PlaylistRef { if id != "" then ById(id) else ByPath(path) }

  ghost predicate Matches(cat: Catalog, x: Expr, e: Engine, row: Row)
    requires WellFormed(cat, x)
    decreases x
  {
    match x
    case All(cs) => forall i :: 0 <= i < |cs| ==> Matches(cat, cs[i], e, row)
    case Any(cs) => exists i :: 0 <= i < |cs| && Matches(cat, cs[i], e, row)
    case Is(f, v) => Satisfies(SubjectOf(cat, f), CmpEq, v, e, row)
    case IsNot(f, v) =>
      if SubjectOf(cat, f).Many? then !Satisfies(SubjectOf(cat, f), CmpEq, v, e, row)
      else Satisfies(SubjectOf(cat, f), CmpNe, v, e, row)
    case Gt(f, v) => Satisfies(SubjectOf(cat, f), CmpGt, v, e, row)
    case After(f, v) => Satisfies(SubjectOf(cat, f), CmpGt, v, e, row)
    case Lt(f, v) => Satisfies(SubjectOf(cat, f), CmpLt, v, e, row)
    case Before(f, v) => Satisfies(SubjectOf(cat, f), CmpLt, v, e, row)
    case Contains(f, t) => ShowsSome(SubjectOf(cat, f), ContainsText, t, e, row)
    case NotContains(f, t) => ShowsNone(SubjectOf(cat, f), ContainsText, t, e, row)
    case StartsWith(f, t) => ShowsSome(SubjectOf(cat, f), StartsText, t, e, row)
    case EndsWith(f, t) => ShowsSome(SubjectOf(cat, f), EndsText, t, e, row)
    case InTheRange(f, b) =>
      Satisfies(SubjectOf(cat, f), CmpGe, b.items[0], e, row) && Satisfies(SubjectOf(cat, f), CmpLe, b.items[1], e, row)
    case InTheLast(f, d) => Holds(row.columns(RawColumn(cat, f).value), CmpGt, Word(PeriodStart(cat, d)))
    case NotInTheLast(f, d) =>
      var x := row.columns(RawColumn(cat, f).value);
      x.Null? || Holds(x, CmpLt, Word(PeriodStart(cat, d)))
    case InPlaylist(id, path) => row.listed(RefOf(id, path))
    case NotInPlaylist(id, path) => !row.listed(RefOf(id, path))
    case IsMissing(f, v) => v.b == Absent(cat, f, row)
    case IsPresent(f, v) => v.b != Absent(cat, f, row)
  }

  // ----- the plain compilation means the rules

  ghost predicate Says(c: Compiled, wellFormed: bool, matches: bool, e: Engine, row: Row) {
    (c.Ok? <==> wellFormed) && (c.Ok? ==> (Selected(e, c.value, row) <==> matches))
  }

  lemma ExistsMeans(e: Engine, f: JsonField, inner: Inner, negate: bool, row: Row, ok: Value -> bool)
    requires forall x :: ok(if f.Tag? && f.numeric then e.cast(x) else x) <==> InnerAt(e, f, inner, x) == True
    ensures Selected(e, Exists(f, Some(inner), negate), row) <==> negate != SomeValue(f, row, e, ok)
  {
    var xs := Elements(f, row);
    if SomeElement(e, f, inner, row) {
      var i :| 0 <= i < |xs| && InnerAt(e, f, inner, xs[i]) == True;
      assert xs[i] in xs;
    }
    if x :| x in xs && ok(if f.Tag? && f.numeric then e.cast(x) else x) {
      var i :| 0 <= i < |xs| && xs[i] == x;
      assert InnerAt(e, f, inner, xs[i]) == True;
    }
  }

  lemma ComparisonMeans(cat: Catalog, f: string, op: Cmp, v: Comparand, e: Engine, row: Row)
    ensures Says(ComparisonExpr(cat, f, op, v, false), SubjectOf(cat, f) != Nothing,
                 Satisfies(SubjectOf(cat, f), op, v, e, row), e, row)
  {
    hide Holds;
    hide Compare;
    forall x ensures Compare(x, op, v) == True <==> Holds(x, op, v) { HoldsIsTrue(x, op, v); }
    if SubjectOf(cat, f).Many? {
      ExistsMeans(e, SubjectOf(cat, f).field, InnerCmp(op, v), false, row, x => Holds(x, op, v));
    }
  }

  lemma IsNotMeans(cat: Catalog, f: string, v: Comparand, e: Engine, row: Row)
    ensures var s := SubjectOf(cat, f);
            Says(IsNotExpr(cat, f, v, false), s != Nothing,
                 if s.Many? then !Satisfies(s, CmpEq, v, e, row) else Satisfies(s, CmpNe, v, e, row), e, row)
  {
    if SubjectOf(cat, f).Many? {
      hide Holds;
      hide Compare;
      forall x ensures Compare(x, CmpEq, v) == True <==> Holds(x, CmpEq, v) { HoldsIsTrue(x, CmpEq, v); }
      ExistsMeans(e, SubjectOf(cat, f).field, InnerCmp(CmpEq, v), true, row, x => Holds(x, CmpEq, v));
    } else {
      ComparisonMeans(cat, f, CmpNe, v, e, row);
    }
  }

  lemma StretchFits(t: string, s: string)
    ensures Fits("%" + t, s) <==> exists i :: 0 <= i <= |s| && Fits(t, s[i..])
  {
    assert ("%" + t)[1..] == t;
  }

  lemma PrefixFits(t: string, s: string)
    ensures Fits(t + "%", s) <==> exists j :: 0 <= j <= |s| && Fits(t, s[..j])
  {
    FitsAppend(t, "%", s);
    if j :| 0 <= j <= |s| && Fits(t, s[..j]) {
      AnythingFits(s[j..]);
      SplitHere(t, "%", s, j);
    }
  }

  /** The text fits the compiled pattern exactly when a stretch of it, in the right place, fits the rule's text. */
  lemma PatternFits(affix: Affix, t: string, s: string)
    ensures Fits(Pattern(affix, t), s) <==>
            exists i, j :: 0 <= i <= j <= |s| && (affix.StartsText? ==> i == 0) && (affix.EndsText? ==> j == |s|)
              && Fits(t, s[i..j])
  {
    match affix
    case StartsText =>
      PrefixFits(t, s);
      assert forall j :: 0 <= j <= |s| ==> s[0..j] == s[..j];
    case EndsText =>
      StretchFits(t, s);
      assert forall i :: 0 <= i <= |s| ==> s[i..|s|] == s[i..];
    case ContainsText =>
      assert Pattern(affix, t) == "%" + (t + "%");
      StretchFits(t + "%", s);
      if i :| 0 <= i <= |s| && Fits(t + "%", s[i..]) {
        PrefixFits(t, s[i..]);
        var j :| 0 <= j <= |s[i..]| && Fits(t, s[i..][..j]);
        assert s[i..][..j] == s[i..i + j];
      }
      if i, j :| 0 <= i <= j <= |s| && Fits(t, s[i..j]) {
        assert s[i..j] == s[i..][..j - i];
        PrefixFits(t, s[i..]);
      }
  }

  /** LIKE with the compiled pattern finds exactly the texts in which the rule's text occurs. */
  lemma PatternOccurs(affix: Affix, t: string, s: string)
    ensures Like(Pattern(affix, t), s, None) <==> Occurs(affix, t, s)
  {
    LikeFits(Pattern(affix, t), s);
    PatternFits(affix, t, s);
    hide Fits;
    hide SameText;
    if Plain(t) {
      forall i, j | 0 <= i <= j <= |s| ensures Fits(t, s[i..j]) <==> SameText(t, s[i..j]) {
        PlainFits(t, s[i..j]);
      }
    }
  }

  /** The text stands in `s` as it is written, up to the case of ASCII letters. */
  ghost predicate Literally(affix: Affix, t: string, s: string) {
    exists i, j :: 0 <= i <= j <= |s| && (affix.StartsText? ==> i == 0) && (affix.EndsText? ==> j == |s|)
      && SameText(t, s[i..j])
  }

  lemma WildNotLiteral(affix: Affix, t: string)
    requires !Plain(t)
    ensures Like(Pattern(affix, t), Tamed(t), None) && !Literally(affix, t, Tamed(t))
  {
    var s := Tamed(t);
    TamedFits(t);
    assert s[0..|s|] == s;
    assert Reads(t, s[0..|s|]);
    PatternOccurs(affix, t, s);
    var k :| 0 <= k < |t| && Wild(t[k]);
    forall i, j | 0 <= i <= j <= |s| ensures !SameText(t, s[i..j]) {
      if j - i == |t| { assert Fold(s[i..j][k]) != Fold(t[k]); }
    }
  }

  /** A text rule finds its text as written, in every value, exactly when the text has neither % nor _ in it. */
  lemma LiteralExactly(affix: Affix, t: string)
    ensures (forall s :: Like(Pattern(affix, t), s, None) <==> Literally(affix, t, s)) <==> Plain(t)
  {
    if Plain(t) {
      forall s ensures Like(Pattern(affix, t), s, None) <==> Literally(affix, t, s) {
        PatternOccurs(affix, t, s);
      }
    } else {
      WildNotLiteral(affix, t);
    }
  }

  lemma ShowsIsTrue(e: Engine, x: Value, affix: Affix, t: string)
    ensures LikeAt(e, x, Pattern(affix, t)) == True <==> Shows(e, x, affix, t)
    ensures LikeAt(e, x, Pattern(affix, t)) == False <==> !x.Null? && !Shows(e, x, affix, t)
  {
    PatternOccurs(affix, t, TextOf(e, x));
  }

  lemma LikeMeans(cat: Catalog, f: string, affix: Affix, t: string, negate: bool, e: Engine, row: Row)
    ensures var s := SubjectOf(cat, f);
            Says(LikeExpr(cat, f, Pattern(affix, t), negate), s != Nothing,
                 if negate then ShowsNone(s, affix, t, e, row) else ShowsSome(s, affix, t, e, row), e, row)
  {
    hide Shows;
    hide LikeAt;
    hide Pattern;
    var p := Pattern(affix, t);
    forall x
      ensures LikeAt(e, x, p) == True <==> Shows(e, x, affix, t)
      ensures LikeAt(e, x, p) == False <==> !x.Null? && !Shows(e, x, affix, t)
    {
      ShowsIsTrue(e, x, affix, t);
    }
    if SubjectOf(cat, f).Many? {
      ExistsMeans(e, SubjectOf(cat, f).field, InnerLike(p), negate, row, x => Shows(e, x, affix, t));
    }
  }

  lemma RangeMeans(cat: Catalog, f: string, b: Comparand, e: Engine, row: Row)
    ensures var s := SubjectOf(cat, f);
            var ok := s != Nothing && !s.Many? && b.List? && |b.items| == 2;
            Says(RangeExpr(cat, f, b, false), ok,
                 ok && Satisfies(s, CmpGe, b.items[0], e, row) && Satisfies(s, CmpLe, b.items[1], e, row), e, row)
  {
    if b.List? && |b.items| == 2 {
      ComparisonMeans(cat, f, CmpGe, b.items[0], e, row);
      ComparisonMeans(cat, f, CmpLe, b.items[1], e, row);
      var x := RangeExpr(cat, f, b, false);
      if x.Ok? {
        AndSelected(e, x.value.conds, row);
        assert x.value.conds[0] in x.value.conds && x.value.conds[1] in x.value.conds;
      }
    }
  }

  /** The period rules, refused for a day count that is no 64-bit integer. */
  lemma PeriodMeans(cat: Catalog, f: string, d: string, negate: bool, e: Engine, row: Row)
    ensures var col := RawColumn(cat, f);
            var ok := col.Some? && ParseInt(d).Some?;
            Says(PeriodExpr(cat, f, d, negate), ok,
                 ok && var x, start := row.columns(col.value), Word(PeriodStart(cat, d));
                 if negate then x.Null? || Holds(x, CmpLt, start) else Holds(x, CmpGt, start), e, row)
  {
    hide Holds;
    hide Compare;
    hide ParseInt;
    var x := PeriodExpr(cat, f, d, negate);
    if x.Ok? {
      var start := Word(PeriodStart(cat, d));
      var y := row.columns(RawColumn(cat, f).value);
      HoldsIsTrue(y, CmpLt, start);
      HoldsIsTrue(y, CmpGt, start);
      if negate {
        OrSelected(e, x.value.conds, row);
        assert x.value.conds[0] in x.value.conds && x.value.conds[1] in x.value.conds;
      }
    }
  }

  /** The column tests for "missing" and for "present" are each other's negation. */
  lemma EmptyTestsMean(col: string, empties: seq<string>, e: Engine, row: Row)
    ensures var x := row.columns(col);
            var missing := x.Null? || (x.Text? && x.s in empties);
            && (Selected(e, Or([NullTest(col, false)] + EmptyTests(col, empties, CmpEq)), row) <==> missing)
            && (Selected(e, And([NullTest(col, true)] + EmptyTests(col, empties, CmpNe)), row) <==> !missing)
  {
    var x := row.columns(col);
    var eqs, nes := EmptyTests(col, empties, CmpEq), EmptyTests(col, empties, CmpNe);
    forall i | 0 <= i < |empties|
      ensures Selected(e, eqs[i], row) <==> x.Text? && x.s == empties[i]
      ensures !x.Null? ==> (Selected(e, nes[i], row) <==> !(x.Text? && x.s == empties[i]))
    {}
    var missing, present := [NullTest(col, false)] + eqs, [NullTest(col, true)] + nes;
    OrSelected(e, missing, row);
    AndSelected(e, present, row);
    assert missing[0] in missing && present[0] in present;
    forall i | 0 <= i < |empties| ensures eqs[i] in missing && nes[i] in present {
      assert missing[i + 1] == eqs[i] && present[i + 1] == nes[i];
    }
    if x.Text? && x.s in empties {
      var i :| 0 <= i < |empties| && empties[i] == x.s;
      assert eqs[i] in missing && nes[i] in present;
    }
  }

  lemma MissingMeans(cat: Catalog, f: string, v: Comparand, checkAbsence: bool, e: Engine, row: Row)
    ensures var ok := v.Boolean? && CanBeMissing(cat, f);
            Says(MissingExpr(cat, f, v, checkAbsence), ok, ok && ((checkAbsence == v.b) == Absent(cat, f, row)), e, row)
  {
    if v.Boolean? && CanBeMissing(cat, f) && RawColumn(cat, f).Some? {
      var info := cat.fields[f];
      var col := cat.columns[info.name];
      var empties := if info.numeric || info.boolean then [] else [""] + col.emptyValues;
      EmptyTestsMean(col.expr, empties, e, row);
      assert forall s :: s in empties <==> !info.numeric && !info.boolean && (s == "" || s in col.emptyValues);
    }
  }

  lemma RuleMeans(cat: Catalog, x: Expr, e: Engine, row: Row)
    requires !x.All? && !x.Any?
    ensures RuleSql(cat, x, false).Ok? <==> WellFormed(cat, x)
    ensures WellFormed(cat, x) ==> (Selected(e, RuleSql(cat, x, false).value, row) <==> Matches(cat, x, e, row))
  {
    hide Selected;
    hide Satisfies;
    hide ShowsSome;
    hide ShowsNone;
    hide Holds;
    hide Pattern;
    hide Absent;
    hide ComparisonExpr;
    hide IsNotExpr;
    hide LikeExpr;
    hide MissingExpr;
    hide RangeExpr;
    hide PeriodExpr;
    hide InList;
    match x
    case Is(f, v) => ComparisonMeans(cat, f, CmpEq, v, e, row);
    case IsNot(f, v) => IsNotMeans(cat, f, v, e, row);
    case Gt(f, v) => ComparisonMeans(cat, f, CmpGt, v, e, row);
    case After(f, v) => ComparisonMeans(cat, f, CmpGt, v, e, row);
    case Lt(f, v) => ComparisonMeans(cat, f, CmpLt, v, e, row);
    case Before(f, v) => ComparisonMeans(cat, f, CmpLt, v, e, row);
    case Contains(f, t) => LikeMeans(cat, f, ContainsText, t, false, e, row);
    case NotContains(f, t) => LikeMeans(cat, f, ContainsText, t, true, e, row);
    case StartsWith(f, t) => LikeMeans(cat, f, StartsText, t, false, e, row);
    case EndsWith(f, t) => LikeMeans(cat, f, EndsText, t, false, e, row);
    case InTheRange(f, b) => RangeMeans(cat, f, b, e, row);
    case InTheLast(f, c) => PeriodMeans(cat, f, c, false, e, row);
    case NotInTheLast(f, c) => PeriodMeans(cat, f, c, true, e, row);
    case IsMissing(f, v) => MissingMeans(cat, f, v, true, e, row);
    case IsPresent(f, v) => MissingMeans(cat, f, v, false, e, row);
    case InPlaylist(id, path) => MemberMeans(id, path, false, e, row);
    case NotInPlaylist(id, path) => MemberMeans(id, path, true, e, row);
  }

  lemma MemberMeans(id: string, path: string, negate: bool, e: Engine, row: Row)
    ensures Says(InList(id, path, negate), id != "" || path != "", negate != row.listed(RefOf(id, path)), e, row)
  {}

  lemma {:induction false} NaiveMeans(cat: Catalog, x: Expr, e: Engine, row: Row)
    ensures NaiveSql(cat, x).Ok? <==> WellFormed(cat, x)
    ensures WellFormed(cat, x) ==> (Selected(e, NaiveSql(cat, x).value, row) <==> Matches(cat, x, e, row))
    decreases x, 1
  {
    if x.All? || x.Any? {
      NaivesMean(cat, x.children, e, row);
      var cs := NaiveSqls(cat, x.children);
      if cs.Ok? {
        AndSelected(e, cs.value, row);
        OrSelected(e, cs.value, row);
        assert forall i :: 0 <= i < |cs.value| ==> cs.value[i] in cs.value;
      }
    } else {
      RuleMeans(cat, x, e, row);
    }
  }

  lemma {:induction false} NaivesMean(cat: Catalog, es: seq<Expr>, e: Engine, row: Row)
    ensures NaiveSqls(cat, es).Ok? <==> forall i :: 0 <= i < |es| ==> WellFormed(cat, es[i])
    ensures NaiveSqls(cat, es).Ok? ==> |NaiveSqls(cat, es).value| == |es|
    ensures NaiveSqls(cat, es).Ok? ==> forall i :: 0 <= i < |es| ==>
              (Selected(e, NaiveSqls(cat, es).value[i], row) <==> Matches(cat, es[i], e, row))
    decreases es, 0
  {
    if es != [] {
      NaiveMeans(cat, es[0], e, row);
      NaivesMean(cat, es[1..], e, row);
      assert forall i :: 0 <= i < |es| ==> es[i] == if i == 0 then es[0] else es[1..][i - 1];
    }
  }

  /**
   The compiler accepts exactly the well-formed rules, and what it compiles them to selects exactly the
   tracks they describe.
   */
  lemma CompilerMeansRules(cat: Catalog, x: Expr, e: Engine, row: Row)
    requires ConsistentTags(cat)
    ensures ExprSql(cat, x).Ok? <==> WellFormed(cat, x)
    ensures WellFormed(cat, x) ==> (Selected(e, ExprSql(cat, x).value, row) <==> Matches(cat, x, e, row))
  {
    CompilerSelectsNaive(cat, x, e, row);
    NaiveMeans(cat, x, e, row);
  }

  /** The whole WHERE clause: as above, and a playlist without rules selects every track. */
  lemma WhereMeansRules(cat: Catalog, rules: Option<Expr>, e: Engine, row: Row)
    requires ConsistentTags(cat)
    ensures Says(Where(cat, rules), rules.Some? ==> WellFormed(cat, rules.value),
                 rules.Some? && WellFormed(cat, rules.value) ==> Matches(cat, rules.value, e, row), e, row)
  {
    if rules.Some? { CompilerMeansRules(cat, rules.value, e, row); }
  }
}
