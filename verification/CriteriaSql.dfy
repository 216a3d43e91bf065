/**
 The smart-playlist criteria compiler: an All/Any tree of rules becomes one SQL condition.
 `ExprSql` is the compiler as written; `NaiveSql` is the plain form, one EXISTS per rule and
 COALESCE on every annotation comparison.
 */
module CriteriaSql {
  import opened Common
  import opened SqlCondition
  import opened ConditionMerge
  import opened DayCounts

  datatype Default = NumDefault(n: real) | BoolDefault(b: bool) {
    /** The literal in COALESCE(col, default). */
    function AsReal(): real { match this case NumDefault(n) => n case BoolDefault(b) => if b then 1.0 else 0.0 }
  }

  datatype FieldInfo = FieldInfo(name: string, isTag: bool, isRole: bool, numeric: bool, boolean: bool, nullable: bool)

  /** A column field; `expr` is empty for pseudo-fields such as random. */
  datatype ColumnDef = ColumnDef(expr: string, default: Option<Default>, emptyValues: seq<string>)

  /**
   The registered criteria fields (by lower-case name or alias), the columns behind them, and the date,
   written YYYY-MM-DD, at an offset in nanoseconds from the time of compilation.
   */
  datatype Catalog = Catalog(fields: map<string, FieldInfo>, columns: map<string, ColumnDef>, dateAt: int -> string)

  datatype Affix = ContainsText | StartsText | EndsText

  datatype Expr =
    | All(children: seq<Expr>)
    | Any(children: seq<Expr>)
    | Is(field: string, v: Comparand)
    | IsNot(field: string, v: Comparand)
    | Gt(field: string, v: Comparand)
    | Lt(field: string, v: Comparand)
    | Before(field: string, v: Comparand)
    | After(field: string, v: Comparand)
    | Contains(field: string, text: string)
    | NotContains(field: string, text: string)
    | StartsWith(field: string, text: string)
    | EndsWith(field: string, text: string)
    | InTheRange(field: string, bounds: Comparand)
    | InTheLast(field: string, days: string)
    | NotInTheLast(field: string, days: string)
    | InPlaylist(id: string, path: string)
    | NotInPlaylist(id: string, path: string)
    | IsMissing(field: string, v: Comparand)
    | IsPresent(field: string, v: Comparand)

  datatype Error = InvalidField(field: string) | RangeOnTag(field: string) | BadRange(field: string)
                 | NotBoolean(field: string) | Unsupported(field: string) | TagInPeriod(field: string)
                 | BadDays(days: string) | NoPlaylist

  type Compiled = Result<Cond, Error>

  // ----- rules

  function Pattern(affix: Affix, text: string): string {
    match affix
    case ContainsText => "%" + text + "%"
    case StartsText => text + "%"
    case EndsText => "%" + text
  }

  function JsonFieldOf(info: FieldInfo): JsonField {
    if info.isRole then Role(info.name) else Tag(info.name, info.numeric)
  }

  /** The column behind a field that is neither a tag nor a role. */
  function ColumnFor(cat: Catalog, field: string): Result<string, Error> {
    if field !in cat.fields then Err(InvalidField(field))
    else
      var info := cat.fields[field];
      if info.isTag || info.isRole then Err(TagInPeriod(field))
      else if info.name !in cat.columns || cat.columns[info.name].expr == "" then Err(InvalidField(field))
      else Ok(cat.columns[info.name].expr)
  }

  function AnnotationField(cat: Catalog, info: FieldInfo): Option<ColumnDef> {
    if info.name in cat.columns && cat.columns[info.name].default.Some? then Some(cat.columns[info.name]) else None
  }

  /** `ok` is None when the bare comparison cannot be reasoned about, else whether NULL rows must be put back. */
  function BareNullInclusion(d: Default, op: Cmp, v: Comparand): Option<bool> {
    match d
    case BoolDefault(b) =>
      if op.Ordering() then None
      else
        (match v
         case Boolean(w) => Some(op.Satisfy(BoolToReal(b), BoolToReal(w)))
         case Number(n) => if n == 1.0 || n == 0.0 then Some(op.Satisfy(BoolToReal(b), n)) else None
         case _ => None)
    case NumDefault(n) => if v.Number? then Some(op.Satisfy(n, v.n)) else None
  }

  function BoolToReal(b: bool): real { if b then 1.0 else 0.0 }

  /** The reference form: the comparison against COALESCE(col, default). */
  function CoalescedCond(col: string, d: Default, op: Cmp, v: Comparand): Cond {
    Compared(Coalesce(col, d.AsReal()), op, v)
  }

  function AnnotationCond(col: string, d: Default, op: Cmp, v: Comparand): Cond {
    match BareNullInclusion(d, op, v)
    case None => CoalescedCond(col, d, op, v)
    case Some(wrapNull) =>
      var base := Compared(Column(col), op, v);
      if wrapNull then Or([base, NullTest(col, false)]) else base
  }

  /** A comparison rule; `bare` chooses between the code's annotation form and the reference one. */
  function ComparisonExpr(cat: Catalog, field: string, op: Cmp, v: Comparand, bare: bool): Compiled {
    if field !in cat.fields then Err(InvalidField(field))
    else
      var info := cat.fields[field];
      if info.isTag || info.isRole then Ok(Exists(JsonFieldOf(info), Some(InnerCmp(op, v)), false))
      else if AnnotationField(cat, info).Some? then
        var f := AnnotationField(cat, info).value;
        var d := f.default.value;
        Ok(if bare then AnnotationCond(f.expr, d, op, v) else CoalescedCond(f.expr, d, op, v))
      else
        match ColumnFor(cat, field)
        case Ok(col) => Ok(Compared(Column(col), op, v))
        case Err(x) => Err(x)
  }

  function IsNotExpr(cat: Catalog, field: string, v: Comparand, bare: bool): Compiled {
    if field in cat.fields && (cat.fields[field].isTag || cat.fields[field].isRole) then
      Ok(Exists(JsonFieldOf(cat.fields[field]), Some(InnerCmp(CmpEq, v)), true))
    else ComparisonExpr(cat, field, CmpNe, v, bare)
  }

  function LikeExpr(cat: Catalog, field: string, pattern: string, negate: bool): Compiled {
    if field !in cat.fields then Err(InvalidField(field))
    else
      var info := cat.fields[field];
      if info.isTag || info.isRole then Ok(Exists(JsonFieldOf(info), Some(InnerLike(pattern)), negate))
      else if AnnotationField(cat, info).Some? then
        var f := AnnotationField(cat, info).value;
        Ok(Liked(Coalesce(f.expr, f.default.value.AsReal()), pattern, negate))
      else
        match ColumnFor(cat, field)
        case Ok(col) => Ok(Liked(Column(col), pattern, negate))
        case Err(x) => Err(x)
  }

  function RangeExpr(cat: Catalog, field: string, bounds: Comparand, bare: bool): Compiled {
    if field !in cat.fields then Err(InvalidField(field))
    else if cat.fields[field].isTag || cat.fields[field].isRole then Err(RangeOnTag(field))
    else if !bounds.List? || |bounds.items| != 2 then Err(BadRange(field))
    else
      match (ComparisonExpr(cat, field, CmpGe, bounds.items[0], bare),
             ComparisonExpr(cat, field, CmpLe, bounds.items[1], bare))
      case (Ok(low), Ok(high)) => Ok(And([low, high]))
      case (Err(x), _) => Err(x)
      case (_, Err(x)) => Err(x)
  }

  function PeriodExpr(cat: Catalog, field: string, days: string, negate: bool): Compiled {
    match ColumnFor(cat, field)
    case Err(x) => Err(x)
    case Ok(col) =>
      if ParseInt(days).None? then Err(BadDays(days))
      else
        var start := cat.dateAt(PeriodOffset(ParseInt(days).value));
        Ok(if negate then Or([Compared(Column(col), CmpLt, Word(start)), NullTest(col, false)])
           else Compared(Column(col), CmpGt, Word(start)))
  }

  function InList(id: string, path: string, negate: bool): Compiled {
    if id != "" then Ok(Member(ById(id), negate))
    else if path != "" then Ok(Member(ByPath(path), negate))
    else Err(NoPlaylist)
  }

  function EmptyTests(col: string, empties: seq<string>, op: Cmp): seq<Cond> {
    seq(|empties|, i requires 0 <= i < |empties| => Compared(Column(col), op, Word(empties[i])))
  }

  function MissingExpr(cat: Catalog, field: string, v: Comparand, checkAbsence: bool): Compiled {
    if field !in cat.fields then Err(InvalidField(field))
    else if !v.Boolean? then Err(NotBoolean(field))
    else
      var info := cat.fields[field];
      var negate := checkAbsence == v.b;
      if info.isTag || info.isRole then Ok(Exists(JsonFieldOf(info), None, negate))
      else if !info.nullable then Err(Unsupported(field))
      else if info.name !in cat.columns || cat.columns[info.name].expr == "" then Err(InvalidField(field))
      else
        var col := cat.columns[info.name];
        var empties := if info.numeric || info.boolean then [] else [""] + col.emptyValues;
        Ok(if negate then Or([NullTest(col.expr, false)] + EmptyTests(col.expr, empties, CmpEq))
           else And([NullTest(col.expr, true)] + EmptyTests(col.expr, empties, CmpNe)))
  }

  function RuleSql(cat: Catalog, e: Expr, bare: bool): Compiled
    requires !e.All? && !e.Any?
  {
    match e
    case Is(f, v) => ComparisonExpr(cat, f, CmpEq, v, bare)
    case IsNot(f, v) => IsNotExpr(cat, f, v, bare)
    case Gt(f, v) => ComparisonExpr(cat, f, CmpGt, v, bare)
    case Lt(f, v) => ComparisonExpr(cat, f, CmpLt, v, bare)
    case Before(f, v) => ComparisonExpr(cat, f, CmpLt, v, bare)
    case After(f, v) => ComparisonExpr(cat, f, CmpGt, v, bare)
    case Contains(f, t) => LikeExpr(cat, f, Pattern(ContainsText, t), false)
    case NotContains(f, t) => LikeExpr(cat, f, Pattern(ContainsText, t), true)
    case StartsWith(f, t) => LikeExpr(cat, f, Pattern(StartsText, t), false)
    case EndsWith(f, t) => LikeExpr(cat, f, Pattern(EndsText, t), false)
    case InTheRange(f, b) => RangeExpr(cat, f, b, bare)
    case InTheLast(f, c) => PeriodExpr(cat, f, c, false)
    case NotInTheLast(f, c) => PeriodExpr(cat, f, c, true)
    case InPlaylist(id, path) => InList(id, path, false)
    case NotInPlaylist(id, path) => InList(id, path, true)
    case IsMissing(f, v) => MissingExpr(cat, f, v, true)
    case IsPresent(f, v) => MissingExpr(cat, f, v, false)
  }

  // ----- trees

  function ExprSql(cat: Catalog, e: Expr): Compiled
    decreases e, 1
  {
    match e
    case All(children) =>
      (match ExprsSql(cat, children) case Ok(cs) => Ok(And(Merged(cs, true))) case Err(x) => Err(x))
    case Any(children) =>
      (match ExprsSql(cat, children) case Ok(cs) => Ok(Or(Merged(cs, false))) case Err(x) => Err(x))
    case _ => RuleSql(cat, e, true)
  }

  function ExprsSql(cat: Catalog, es: seq<Expr>): Result<seq<Cond>, Error>
    decreases es, 0
  {
    if es == [] then Ok([])
    else
      match ExprSql(cat, es[0])
      case Err(x) => Err(x)
      case Ok(c) => (match ExprsSql(cat, es[1..]) case Ok(cs) => Ok([c] + cs) case Err(x) => Err(x))
  }

  function NaiveSql(cat: Catalog, e: Expr): Compiled
    decreases e, 1
  {
    match e
    case All(children) =>
      (match NaiveSqls(cat, children) case Ok(cs) => Ok(And(cs)) case Err(x) => Err(x))
    case Any(children) =>
      (match NaiveSqls(cat, children) case Ok(cs) => Ok(Or(cs)) case Err(x) => Err(x))
    case _ => RuleSql(cat, e, false)
  }

  function NaiveSqls(cat: Catalog, es: seq<Expr>): Result<seq<Cond>, Error>
    decreases es, 0
  {
    if es == [] then Ok([])
    else
      match NaiveSql(cat, es[0])
      case Err(x) => Err(x)
      case Ok(c) => (match NaiveSqls(cat, es[1..]) case Ok(cs) => Ok([c] + cs) case Err(x) => Err(x))
  }

  /** The WHERE clause; a playlist without rules selects everything. */
  function Where(cat: Catalog, rules: Option<Expr>): Compiled {
    match rules case None => Ok(Constant(true)) case Some(e) => ExprSql(cat, e)
  }

  // ----- the annotation form

  /**
   The bare comparison, with NULL rows put back when the default matches, selects exactly the rows the
   COALESCE form selects.
   */
  lemma AnnotationCondSelects(e: Engine, col: string, d: Default, op: Cmp, v: Comparand, row: Row)
    ensures Selected(e, AnnotationCond(col, d, op, v), row) <==> Selected(e, CoalescedCond(col, d, op, v), row)
  {
    var incl := BareNullInclusion(d, op, v);
    if incl.Some? && incl.value {
      var base := Compared(Column(col), op, v);
      OrSelected(e, [base, NullTest(col, false)], row);
      assert base in [base, NullTest(col, false)] && NullTest(col, false) in [base, NullTest(col, false)];
    }
  }

  /** In terms of numbers: a missing annotation behaves as the default, any other as its stored value. */
  lemma AnnotationCondMeaning(e: Engine, col: string, d: Default, op: Cmp, v: Comparand, row: Row)
    requires v.Number? || v.Boolean?
    requires row.columns(col).Null? || row.columns(col).Num?
    ensures Selected(e, AnnotationCond(col, d, op, v), row) <==>
            op.Satisfy(if row.columns(col).Null? then d.AsReal() else row.columns(col).n,
                       if v.Number? then v.n else BoolToReal(v.b))
  {
    AnnotationCondSelects(e, col, d, op, v, row);
  }

  /** The two forms are not the same condition: on a missing annotation one is unknown, the other false. */
  lemma BareFormDiffers(e: Engine)
    ensures var row := Row(_ => Null, _ => [], _ => [], _ => false);
            && Eval(e, AnnotationCond("play_count", NumDefault(0.0), CmpGt, Number(3.0)), row) == Unknown
            && Eval(e, CoalescedCond("play_count", NumDefault(0.0), CmpGt, Number(3.0)), row) == False
  {}

  // ----- the whole tree

  ghost predicate SameRows(a: Compiled, b: Compiled, e: Engine, row: Row) {
    match (a, b)
    case (Ok(c), Ok(d)) => Selected(e, c, row) <==> Selected(e, d, row)
    case (Err(x), Err(y)) => x == y
    case _ => false
  }

  lemma ComparisonSelects(cat: Catalog, f: string, op: Cmp, v: Comparand, e: Engine, row: Row)
    ensures SameRows(ComparisonExpr(cat, f, op, v, true), ComparisonExpr(cat, f, op, v, false), e, row)
  {
    if f in cat.fields && AnnotationField(cat, cat.fields[f]).Some? {
      var def := AnnotationField(cat, cat.fields[f]).value;
      AnnotationCondSelects(e, def.expr, def.default.value, op, v, row);
    }
  }

  lemma RangeSelects(cat: Catalog, f: string, b: Comparand, e: Engine, row: Row)
    ensures SameRows(RangeExpr(cat, f, b, true), RangeExpr(cat, f, b, false), e, row)
  {
    if b.List? && |b.items| == 2 {
      ComparisonSelects(cat, f, CmpGe, b.items[0], e, row);
      ComparisonSelects(cat, f, CmpLe, b.items[1], e, row);
      var x, y := RangeExpr(cat, f, b, true), RangeExpr(cat, f, b, false);
      if x.Ok? && y.Ok? {
        AndSelected(e, x.value.conds, row);
        AndSelected(e, y.value.conds, row);
        assert forall i :: 0 <= i < 2 ==> x.value.conds[i] in x.value.conds && y.value.conds[i] in y.value.conds;
      }
    }
  }

  lemma RuleSelects(cat: Catalog, r: Expr, e: Engine, row: Row)
    requires !r.All? && !r.Any?
    ensures SameRows(RuleSql(cat, r, true), RuleSql(cat, r, false), e, row)
  {
    match r
    case Is(f, v) => ComparisonSelects(cat, f, CmpEq, v, e, row);
    case IsNot(f, v) => ComparisonSelects(cat, f, CmpNe, v, e, row);
    case Gt(f, v) => ComparisonSelects(cat, f, CmpGt, v, e, row);
    case Lt(f, v) => ComparisonSelects(cat, f, CmpLt, v, e, row);
    case Before(f, v) => ComparisonSelects(cat, f, CmpLt, v, e, row);
    case After(f, v) => ComparisonSelects(cat, f, CmpGt, v, e, row);
    case InTheRange(f, b) => RangeSelects(cat, f, b, e, row);
    case _ =>
  }

  /** No two registered fields read the same tag with different numeric flags. */
  ghost predicate ConsistentTags(cat: Catalog) {
    forall f, g :: f in cat.fields && g in cat.fields && SameTag(cat.fields[f], cat.fields[g])
                   ==> cat.fields[f].numeric == cat.fields[g].numeric
  }

  predicate TagNamed(info: FieldInfo) { info.isTag && !info.isRole }

  predicate SameTag(a: FieldInfo, b: FieldInfo) { TagNamed(a) && TagNamed(b) && a.name == b.name }

  /** Any tag a compiled condition reads comes, with its flag, from the catalogue. */
  ghost predicate FromCatalog(cat: Catalog, c: Cond) {
    c.Exists? && c.field.Tag? ==>
      exists f :: f in cat.fields && TagNamed(cat.fields[f]) && cat.fields[f].name == c.field.name
               && cat.fields[f].numeric == c.field.numeric
  }

  lemma CompiledFromCatalog(cat: Catalog, e: Expr)
    ensures ExprSql(cat, e).Ok? ==> FromCatalog(cat, ExprSql(cat, e).value)
  {}

  lemma {:induction false} CompiledUniform(cat: Catalog, es: seq<Expr>, negated: bool)
    requires ConsistentTags(cat) && ExprsSql(cat, es).Ok?
    ensures Uniform(ExprsSql(cat, es).value, negated)
  {
    AllFromCatalog(cat, es);
  }

  lemma {:induction false} AllFromCatalog(cat: Catalog, es: seq<Expr>)
    requires ExprsSql(cat, es).Ok?
    ensures forall c :: c in ExprsSql(cat, es).value ==> FromCatalog(cat, c)
  {
    if es != [] {
      CompiledFromCatalog(cat, es[0]);
      AllFromCatalog(cat, es[1..]);
    }
  }

  /**
   The compiler's condition and the naive one fail with the same error or select the same rows, for
   every tree of rules and every row.
   */
  lemma {:induction false} CompilerSelectsNaive(cat: Catalog, x: Expr, e: Engine, row: Row)
    requires ConsistentTags(cat)
    ensures SameRows(ExprSql(cat, x), NaiveSql(cat, x), e, row)
    decreases x, 1
  {
    if x.All? || x.Any? {
      ChildrenSelectNaive(cat, x.children, e, row);
      var a, b := ExprsSql(cat, x.children), NaiveSqls(cat, x.children);
      if a.Ok? {
        CompiledUniform(cat, x.children, x.All?);
        if x.All? {
          MergedAndSelects(e, a.value, row);
          AndSelected(e, a.value, row);
          AndSelected(e, b.value, row);
        } else {
          MergedOrSelects(e, a.value, row);
          OrSelected(e, a.value, row);
          OrSelected(e, b.value, row);
        }
      }
    } else {
      RuleSelects(cat, x, e, row);
    }
  }

  lemma {:induction false} ChildrenSelectNaive(cat: Catalog, es: seq<Expr>, e: Engine, row: Row)
    requires ConsistentTags(cat)
    ensures var a, b := ExprsSql(cat, es), NaiveSqls(cat, es);
            match (a, b)
            case (Ok(cs), Ok(ds)) =>
              && |cs| == |ds|
              && forall i :: 0 <= i < |cs| ==> (Selected(e, cs[i], row) <==> Selected(e, ds[i], row))
            case (Err(p), Err(q)) => p == q
            case _ => false
    decreases es, 0
  {
    if es != [] {
      CompilerSelectsNaive(cat, es[0], e, row);
      ChildrenSelectNaive(cat, es[1..], e, row);
    }
  }

  // ----- the one thing the theorem asks of the catalogue

  lemma PairEntries(a: Cond, b: Cond)
    requires MergeKey(a, false).Some? && MergeKey(a, false) == MergeKey(b, false)
    ensures Entries([a, b], false, MergeKey(a, false).value) == [a, b]
    ensures SortedKeys([a, b], false) == [MergeKey(a, false).value]
  {
    var k := MergeKey(a, false).value;
    assert [a, b][..1] == [a] && [a][..0] == [];
    assert Entries([a], false, k) == [] + [a];
    assert SortedKeys([a], false) == InsertKey([], k);
  }

  lemma PairKept(a: Cond, b: Cond)
    requires Grouped([a, b], false, a) && Grouped([a, b], false, b)
    ensures Kept([a, b], false) == []
  {
    assert [a, b][..1] == [a] && [a][..0] == [];
    assert Ungrouped([a], [a, b], false) == [];
  }

  /** Two conditions of one OR group under one key become a single batch read through the first field. */
  lemma PairMerges(a: Cond, b: Cond)
    requires MergeKey(a, false).Some? && MergeKey(a, false) == MergeKey(b, false)
    ensures Merged([a, b], false) == [ExistsAny(a.field, [InnerOf(a), InnerOf(b)], false)]
  {
    var cs, k := [a, b], MergeKey(a, false).value;
    PairEntries(a, b);
    PairKept(a, b);
    var inners := [InnerOf(a), InnerOf(b)];
    assert Inners(cs) == inners;
    assert Chunks(inners, BATCH_SIZE) == [inners];
    var f := key => GroupBatches(cs, false, key);
    assert [k][..0] == [];
    assert FlatMap([k], f) == [] + f(k);
  }

  lemma PairCompiles(cat: Catalog, p: Expr, q: Expr)
    requires ExprSql(cat, p).Ok? && ExprSql(cat, q).Ok?
    ensures ExprsSql(cat, [p, q]) == Ok([ExprSql(cat, p).value, ExprSql(cat, q).value])
  {
    var a, b := ExprSql(cat, p).value, ExprSql(cat, q).value;
    assert [p, q][1..] == [q] && [q][1..] == [];
    assert ExprsSql(cat, [q]) == Ok([b] + []);
    assert [a] + ([b] + []) == [a, b];
  }

  lemma PairCompilesNaive(cat: Catalog, p: Expr, q: Expr)
    requires NaiveSql(cat, p).Ok? && NaiveSql(cat, q).Ok?
    ensures NaiveSqls(cat, [p, q]) == Ok([NaiveSql(cat, p).value, NaiveSql(cat, q).value])
  {
    var a, b := NaiveSql(cat, p).value, NaiveSql(cat, q).value;
    assert [p, q][1..] == [q] && [q][1..] == [];
    assert NaiveSqls(cat, [q]) == Ok([b] + []);
    assert [a] + ([b] + []) == [a, b];
  }

  /** The tag holds one value `y`; cast to a number it equals neither comparand, as text it equals the second. */
  ghost predicate Telling(name: string, v: Comparand, w: Comparand, y: Value, e: Engine, row: Row) {
    && row.tags(name) == [y]
    && Compare(e.cast(y), CmpEq, v) != True && Compare(e.cast(y), CmpEq, w) != True
    && Compare(y, CmpEq, w) == True
  }

  lemma CastFindsNothing(name: string, v: Comparand, w: Comparand, y: Value, e: Engine, row: Row)
    requires Telling(name, v, w, y, e, row)
    ensures !SomeElementAny(e, Tag(name, true), [InnerCmp(CmpEq, v), InnerCmp(CmpEq, w)], row)
    ensures SomeElement(e, Tag(name, false), InnerCmp(CmpEq, w), row)
  {
    var f, m, n := Tag(name, true), InnerCmp(CmpEq, v), InnerCmp(CmpEq, w);
    forall x | x in [m, n] ensures !SomeElement(e, f, x, row) {
      assert InnerAt(e, f, x, y) != True;
    }
    BatchSplits(e, f, [m, n], row);
    assert InnerAt(e, Tag(name, false), n, Elements(Tag(name, false), row)[0]) == True;
  }

  lemma OneSelects(e: Engine, c: Cond, row: Row)
    ensures Selected(e, Or([c]), row) <==> Selected(e, c, row)
  {
    OrSelected(e, [c], row);
    assert c in [c];
  }

  lemma PairSelects(e: Engine, a: Cond, b: Cond, row: Row)
    requires MergeKey(a, false).Some? && MergeKey(a, false) == MergeKey(b, false)
    ensures Selected(e, Or(Merged([a, b], false)), row) <==> SomeElementAny(e, a.field, [InnerOf(a), InnerOf(b)], row)
  {
    PairMerges(a, b);
    OneSelects(e, ExistsAny(a.field, [InnerOf(a), InnerOf(b)], false), row);
  }

  lemma SecondSelects(e: Engine, a: Cond, b: Cond, row: Row)
    requires Selected(e, b, row)
    ensures Selected(e, Or([a, b]), row)
  {
    OrSelected(e, [a, b], row);
    assert b in [a, b];
  }

  lemma MixedPairDiffers(name: string, v: Comparand, w: Comparand, y: Value, e: Engine, row: Row, a: Cond, b: Cond)
    requires Telling(name, v, w, y, e, row)
    requires a == Exists(Tag(name, true), Some(InnerCmp(CmpEq, v)), false)
    requires b == Exists(Tag(name, false), Some(InnerCmp(CmpEq, w)), false)
    ensures !Selected(e, Or(Merged([a, b], false)), row) && Selected(e, Or([a, b]), row)
  {
    CastFindsNothing(name, v, w, y, e, row);
    PairSelects(e, a, b, row);
    SecondSelects(e, a, b, row);
  }

  /** The plain form of the rules selects the row and the compiled one does not. */
  ghost predicate LosesRow(cat: Catalog, x: Expr, e: Engine, row: Row) {
    && ExprSql(cat, x).Ok? && !Selected(e, ExprSql(cat, x).value, row)
    && NaiveSql(cat, x).Ok? && Selected(e, NaiveSql(cat, x).value, row)
  }

  lemma AnyLoses(cat: Catalog, es: seq<Expr>, cs: seq<Cond>, ds: seq<Cond>, e: Engine, row: Row)
    requires ExprsSql(cat, es) == Ok(cs) && NaiveSqls(cat, es) == Ok(ds)
    requires !Selected(e, Or(Merged(cs, false)), row) && Selected(e, Or(ds), row)
    ensures LosesRow(cat, Any(es), e, row)
  {}

  lemma PairLoses(cat: Catalog, p: Expr, q: Expr, a: Cond, b: Cond, e: Engine, row: Row)
    requires ExprSql(cat, p) == NaiveSql(cat, p) == Ok(a) && ExprSql(cat, q) == NaiveSql(cat, q) == Ok(b)
    requires !Selected(e, Or(Merged([a, b], false)), row) && Selected(e, Or([a, b]), row)
    ensures LosesRow(cat, Any([p, q]), e, row)
  {
    PairCompiles(cat, p, q);
    PairCompilesNaive(cat, p, q);
    AnyLoses(cat, [p, q], [a, b], [a, b], e, row);
  }

  lemma MixedFlagsDiffer(cat: Catalog, f: string, g: string, v: Comparand, w: Comparand, y: Value, e: Engine,
                         row: Row)
    requires f in cat.fields && g in cat.fields && SameTag(cat.fields[f], cat.fields[g])
    requires cat.fields[f].numeric && !cat.fields[g].numeric
    requires Telling(cat.fields[f].name, v, w, y, e, row)
    ensures LosesRow(cat, Any([Is(f, v), Is(g, w)]), e, row)
  {
    var name := cat.fields[f].name;
    var a := Exists(Tag(name, true), Some(InnerCmp(CmpEq, v)), false);
    var b := Exists(Tag(name, false), Some(InnerCmp(CmpEq, w)), false);
    MixedPairDiffers(name, v, w, y, e, row, a, b);
    PairLoses(cat, Is(f, v), Is(g, w), a, b, e, row);
  }

  /** As in SQLite, a text that does not begin like a number casts to 0. */
  ghost predicate CastsWords(e: Engine) { e.cast(Text("y")) == Num(0.0) }

  /** The row of a track whose only value of every tag is "y". */
  function TaggedRow(): Row { Row(_ => Null, _ => [Text("y")], _ => [], _ => false) }

  /** Any(numeric view is "x", text view is "y") loses a track tagged "y". */
  lemma MixedFlagsLoseRows(cat: Catalog, f: string, g: string, e: Engine)
    requires f in cat.fields && g in cat.fields && SameTag(cat.fields[f], cat.fields[g])
    requires cat.fields[f].numeric && !cat.fields[g].numeric && CastsWords(e)
    ensures LosesRow(cat, Any([Is(f, Word("x")), Is(g, Word("y"))]), e, TaggedRow())
  {
    MixedFlagsDiffer(cat, f, g, Word("x"), Word("y"), Text("y"), e, TaggedRow());
  }

  /**
   Whatever SQLite's LIKE and CAST do with other values, merging is safe for every rule tree and every row
   exactly when no tag has two numeric flags.
   */
  lemma MergingSafeExactly(cat: Catalog, e: Engine)
    requires CastsWords(e)
    ensures ConsistentTags(cat) <==> forall x, row :: SameRows(ExprSql(cat, x), NaiveSql(cat, x), e, row)
  {
    if ConsistentTags(cat) {
      forall x, row ensures SameRows(ExprSql(cat, x), NaiveSql(cat, x), e, row) {
        CompilerSelectsNaive(cat, x, e, row);
      }
    } else {
      var f, g :| f in cat.fields && g in cat.fields && SameTag(cat.fields[f], cat.fields[g])
                  && cat.fields[f].numeric != cat.fields[g].numeric;
      if !cat.fields[f].numeric { f, g := g, f; }
      MixedFlagsLoseRows(cat, f, g, e);
      var x, row := Any([Is(f, Word("x")), Is(g, Word("y"))]), TaggedRow();
      assert !SameRows(ExprSql(cat, x), NaiveSql(cat, x), e, row);
    }
  }

  // ----- refusals

  /** Why a rule is refused. */
  ghost predicate Reason(cat: Catalog, x: Expr, why: Error)
    requires !x.All? && !x.Any?
  {
    if x.InPlaylist? || x.NotInPlaylist? then why == NoPlaylist
    else
      var f := x.field;
      if f !in cat.fields then why == InvalidField(f)
      else
        var many := cat.fields[f].isTag || cat.fields[f].isRole;
        if x.InTheRange? && many then why == RangeOnTag(f)
        else if x.InTheRange? && !(x.bounds.List? && |x.bounds.items| == 2) then why == BadRange(f)
        else if (x.InTheLast? || x.NotInTheLast?) && many then why == TagInPeriod(f)
        else if (x.IsMissing? || x.IsPresent?) && !x.v.Boolean? then why == NotBoolean(f)
        else if (x.IsMissing? || x.IsPresent?) && !cat.fields[f].nullable then why == Unsupported(f)
        else if cat.fields[f].name !in cat.columns || cat.columns[cat.fields[f].name].expr == "" then
          why == InvalidField(f)
        else (x.InTheLast? || x.NotInTheLast?) && why == BadDays(x.days)
  }

  lemma RefusedBecause(cat: Catalog, x: Expr, bare: bool)
    requires !x.All? && !x.Any? && RuleSql(cat, x, bare).Err?
    ensures Reason(cat, x, RuleSql(cat, x, bare).error)
  {}

  /** A group is refused for its first refused member. */
  lemma {:induction false} FirstRefusal(cat: Catalog, es: seq<Expr>) returns (i: nat)
    requires ExprsSql(cat, es).Err?
    ensures i < |es| && ExprSql(cat, es[i]) == Err(ExprsSql(cat, es).error)
    ensures forall j :: 0 <= j < i ==> ExprSql(cat, es[j]).Ok?
  {
    hide ExprSql;
    i := 0;
    if ExprSql(cat, es[0]).Ok? {
      var k := FirstRefusal(cat, es[1..]);
      i := k + 1;
      forall j | 0 <= j < i ensures ExprSql(cat, es[j]).Ok? {
        if j > 0 { assert es[j] == es[1..][j - 1]; }
      }
    }
  }
}
