/**
 The SQL conditions a smart playlist compiles to, with their three-valued meaning.
 A track is selected exactly when its condition evaluates to `True`.
 */
module SqlCondition {
  import opened Common
  import opened SqlLike

  datatype Truth = True | False | Unknown

  function Not(t: Truth): Truth {
    match t case True => False case False => True case Unknown => Unknown
  }

  function Both(a: Truth, b: Truth): Truth {
    if a == False || b == False then False
    else if a == Unknown || b == Unknown then Unknown
    else True
  }

  function Either(a: Truth, b: Truth): Truth {
    Not(Both(Not(a), Not(b)))
  }

  function FromBool(b: bool): Truth { if b then True else False }

  /** A stored value; SQLite keeps booleans as the numbers 0 and 1. */
  datatype Value = Null | Num(n: real) | Text(s: string)

  datatype Cmp = CmpEq | CmpNe | CmpGt | CmpGe | CmpLt | CmpLe {
    predicate Ordering() { !CmpEq? && !CmpNe? }

    /** The operator as a predicate on numbers. */
    predicate Satisfy(a: real, b: real) {
      match this
      case CmpEq => a == b
      case CmpNe => a != b
      case CmpGt => a > b
      case CmpGe => a >= b
      case CmpLt => a < b
      case CmpLe => a <= b
    }
  }

  /** What a rule compares against. `Word` is a string that reads neither as a number nor as a boolean. */
  datatype Comparand = Number(n: real) | Boolean(b: bool) | Word(s: string) | List(items: seq<Comparand>)

  function Bound(v: Comparand): Value {
    match v
    case Number(n) => Num(n)
    case Boolean(b) => Num(if b then 1.0 else 0.0)
    case Word(s) => Text(s)
    case List(_) => Null
  }

  predicate StringLess(a: string, b: string) {
    if b == "" then false
    else if a == "" then true
    else a[0] < b[0] || (a[0] == b[0] && StringLess(a[1..], b[1..]))
  }

  /** Texts are ordered by the first character they differ in, and before it by nothing; a prefix comes first. */
  lemma {:induction false} StringLessMeans(a: string, b: string)
    ensures StringLess(a, b) <==>
            exists k :: 0 <= k <= |a| && k < |b| && a[..k] == b[..k] && (k == |a| || a[k] < b[k])
  {
    if a != "" && b != "" {
      StringLessMeans(a[1..], b[1..]);
      if a[0] == b[0] && StringLess(a[1..], b[1..]) {
        var k :| 0 <= k <= |a[1..]| && k < |b[1..]| && a[1..][..k] == b[1..][..k]
                 && (k == |a[1..]| || a[1..][k] < b[1..][k]);
        assert a[..k + 1] == [a[0]] + a[1..][..k] && b[..k + 1] == [b[0]] + b[1..][..k];
      }
      if k :| 0 <= k <= |a| && k < |b| && a[..k] == b[..k] && (k == |a| || a[k] < b[k]) {
        if k > 0 {
          assert a[0] == a[..k][0] == b[..k][0] == b[0];
          assert a[1..][..k - 1] == a[..k][1..] && b[1..][..k - 1] == b[..k][1..];
        }
      }
    } else if a == "" && b != "" {
      assert a[..0] == b[..0];
    }
  }

  /** Scalar comparison: NULL makes it unknown, and every number sorts before every text. */
  function CompareScalar(a: Value, op: Cmp, b: Value): Truth {
    match (a, b)
    case (Null, _) => Unknown
    case (_, Null) => Unknown
    case (Num(x), Num(y)) => FromBool(op.Satisfy(x, y))
    case (Num(_), Text(_)) => FromBool(op.Satisfy(0.0, 1.0))
    case (Text(_), Num(_)) => FromBool(op.Satisfy(1.0, 0.0))
    case (Text(s), Text(t)) =>
      FromBool(op.Satisfy(if s == t then 0.0 else if StringLess(s, t) then -1.0 else 1.0, 0.0))
  }

  /** `=` and `<>` against a list are IN and NOT IN; the SQL builder renders no ordering against a list. */
  function Compare(a: Value, op: Cmp, v: Comparand): Truth {
    match v
    case List(items) =>
      if op.Ordering() then Unknown
      else if items == [] then FromBool(op.CmpNe?)
      else if a == Null then Unknown
      else
        var found := FromBool(exists i :: 0 <= i < |items| && CompareScalar(a, CmpEq, Bound(items[i])) == True);
        if op.CmpEq? then found else Not(found)
    case _ => CompareScalar(a, op, Bound(v))
  }

  datatype PlaylistRef = ById(id: string) | ByPath(path: string)

  /** One row of the joined query: its columns and the multi-valued tags and participants of the track. */
  datatype Row = Row(columns: string -> Value, tags: string -> seq<Value>, roles: string -> seq<Value>,
                     listed: PlaylistRef -> bool)

  /** The parts of SQLite taken as given: the text of a number, and CAST(value AS REAL). */
  datatype Engine = Engine(show: real -> string, cast: Value -> Value)

  /** `value LIKE pattern`: NULL makes it unknown, and a number is read as its text. */
  function LikeAt(e: Engine, x: Value, pattern: string): Truth {
    match x
    case Null => Unknown
    case Num(n) => FromBool(Like(pattern, e.show(n), None))
    case Text(s) => FromBool(Like(pattern, s, None))
  }

  datatype Operand = Column(name: string) | Coalesce(name: string, default: real)

  function Operate(o: Operand, row: Row): Value {
    match o
    case Column(c) => row.columns(c)
    case Coalesce(c, d) => if row.columns(c) == Null then Num(d) else row.columns(c)
  }

  datatype Inner = InnerCmp(op: Cmp, v: Comparand) | InnerLike(pattern: string)

  datatype JsonField = Role(name: string) | Tag(name: string, numeric: bool)

  datatype Cond =
    | Constant(holds: bool)
    | Compared(operand: Operand, op: Cmp, v: Comparand)
    | NullTest(column: string, negate: bool)
    | Liked(operand: Operand, pattern: string, negate: bool)
    | Member(ref: PlaylistRef, negate: bool)
    | Exists(field: JsonField, inner: Option<Inner>, negate: bool)
    | ExistsAny(field: JsonField, inners: seq<Inner>, negate: bool)
    | And(conds: seq<Cond>)
    | Or(conds: seq<Cond>)

  /** The truth of one inner condition at one value of a tag or role. */
  function InnerAt(e: Engine, field: JsonField, inner: Inner, x: Value): Truth {
    var x' := if field.Tag? && field.numeric then e.cast(x) else x;
    match inner
    case InnerCmp(op, v) => Compare(x', op, v)
    case InnerLike(p) => LikeAt(e, x', p)
  }

  function Elements(field: JsonField, row: Row): seq<Value> {
    match field case Role(r) => row.roles(r) case Tag(t, _) => row.tags(t)
  }

  /** `exists (select 1 ... where inner)`: some value makes the inner condition true. */
  predicate SomeElement(e: Engine, field: JsonField, inner: Inner, row: Row) {
    exists i :: 0 <= i < |Elements(field, row)| && InnerAt(e, field, inner, Elements(field, row)[i]) == True
  }

  function DisjunctionAt(e: Engine, field: JsonField, inners: seq<Inner>, x: Value): Truth {
    if inners == [] then False
    else Either(InnerAt(e, field, inners[0], x), DisjunctionAt(e, field, inners[1..], x))
  }

  predicate SomeElementAny(e: Engine, field: JsonField, inners: seq<Inner>, row: Row) {
    exists i :: 0 <= i < |Elements(field, row)| && DisjunctionAt(e, field, inners, Elements(field, row)[i]) == True
  }

  function Negated(negate: bool, b: bool): Truth { FromBool(if negate then !b else b) }

  function Eval(e: Engine, c: Cond, row: Row): Truth
    decreases c, 1
  {
    match c
    case Constant(b) => FromBool(b)
    case Compared(o, op, v) => Compare(Operate(o, row), op, v)
    case NullTest(col, negate) => Negated(negate, row.columns(col) == Null)
    case Liked(o, p, negate) => var t := LikeAt(e, Operate(o, row), p); if negate then Not(t) else t
    case Member(ref, negate) => Negated(negate, row.listed(ref))
    case Exists(f, None, negate) => Negated(negate, Elements(f, row) != [])
    case Exists(f, Some(inner), negate) => Negated(negate, SomeElement(e, f, inner, row))
    case ExistsAny(f, inners, negate) => Negated(negate, SomeElementAny(e, f, inners, row))
    case And(cs) => EvalAll(e, cs, row)
    case Or(cs) => EvalAny(e, cs, row)
  }

  function EvalAll(e: Engine, cs: seq<Cond>, row: Row): Truth
    decreases cs, 0
  {
    if cs == [] then True else Both(Eval(e, cs[0], row), EvalAll(e, cs[1..], row))
  }

  function EvalAny(e: Engine, cs: seq<Cond>, row: Row): Truth
    decreases cs, 0
  {
    if cs == [] then False else Either(Eval(e, cs[0], row), EvalAny(e, cs[1..], row))
  }

  ghost predicate Selected(e: Engine, c: Cond, row: Row) { Eval(e, c, row) == True }

  /** An AND group selects a row exactly when each member does, whatever the unknowns. */
  lemma {:induction false} AllSelected(e: Engine, cs: seq<Cond>, row: Row)
    ensures EvalAll(e, cs, row) == True <==> forall c :: c in cs ==> Selected(e, c, row)
  {
    if cs != [] {
      AllSelected(e, cs[1..], row);
      assert forall c :: c in cs <==> c == cs[0] || c in cs[1..];
      assert Selected(e, cs[0], row) <==> Eval(e, cs[0], row) == True;
    }
  }

  lemma {:induction false} AnySelected(e: Engine, cs: seq<Cond>, row: Row)
    ensures EvalAny(e, cs, row) == True <==> exists c :: c in cs && Selected(e, c, row)
  {
    if cs != [] {
      AnySelected(e, cs[1..], row);
      assert forall c :: c in cs <==> c == cs[0] || c in cs[1..];
      assert Selected(e, cs[0], row) <==> Eval(e, cs[0], row) == True;
    }
  }

  lemma AndSelected(e: Engine, cs: seq<Cond>, row: Row)
    ensures Selected(e, And(cs), row) <==> forall c :: c in cs ==> Selected(e, c, row)
  {
    AllSelected(e, cs, row);
  }

  lemma OrSelected(e: Engine, cs: seq<Cond>, row: Row)
    ensures Selected(e, Or(cs), row) <==> exists c :: c in cs && Selected(e, c, row)
  {
    AnySelected(e, cs, row);
  }

  lemma {:induction false} DisjunctionTrue(e: Engine, f: JsonField, inners: seq<Inner>, x: Value)
    ensures DisjunctionAt(e, f, inners, x) == True <==> exists n :: n in inners && InnerAt(e, f, n, x) == True
  {
    if inners != [] {
      DisjunctionTrue(e, f, inners[1..], x);
      assert inners == [inners[0]] + inners[1..];
    }
  }

  /** One EXISTS over an OR of conditions finds a value exactly when one of the separate EXISTS does. */
  lemma BatchSplits(e: Engine, f: JsonField, inners: seq<Inner>, row: Row)
    ensures SomeElementAny(e, f, inners, row) <==> exists n :: n in inners && SomeElement(e, f, n, row)
  {
    forall x
      ensures DisjunctionAt(e, f, inners, x) == True <==> exists n :: n in inners && InnerAt(e, f, n, x) == True
    {
      DisjunctionTrue(e, f, inners, x);
    }
    if SomeElementAny(e, f, inners, row) {
      var i :| 0 <= i < |Elements(f, row)| && DisjunctionAt(e, f, inners, Elements(f, row)[i]) == True;
      var n :| n in inners && InnerAt(e, f, n, Elements(f, row)[i]) == True;
      assert SomeElement(e, f, n, row);
    }
    if n :| n in inners && SomeElement(e, f, n, row) {
      var i :| 0 <= i < |Elements(f, row)| && InnerAt(e, f, n, Elements(f, row)[i]) == True;
      assert DisjunctionAt(e, f, inners, Elements(f, row)[i]) == True;
    }
  }
}
