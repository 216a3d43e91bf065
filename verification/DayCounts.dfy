/** Day counts of period rules: read as 64-bit integers and turned into a distance from now in nanoseconds. */
module DayCounts {
  import opened Common

  const TWO63 := 0x8000_0000_0000_0000
  const HOUR := 3_600_000_000_000

  /** Go's int64 arithmetic wraps around. */
  function Wrap64(x: int): int { (x + TWO63) % (2 * TWO63) - TWO63 }

  /** Where a period of that many days starts, in nanoseconds from now. */
  function PeriodOffset(days: int): int { Wrap64(Wrap64(-24 * days) * HOUR) }

  /** The period starts that many days ago exactly up to 106751 days, some 292 years, either way. */
  lemma PeriodOffsetExact(days: int)
    ensures PeriodOffset(days) == -24 * days * 3_600_000_000_000 <==> -106751 <= days <= 106751
  {}

  lemma WrapMeans(x: int) returns (k: int)
    ensures Wrap64(x) == x + k * 0x1_0000_0000_0000_0000
    ensures -0x8000_0000_0000_0000 <= Wrap64(x) < 0x8000_0000_0000_0000
  {
    k := -((x + TWO63) / (2 * TWO63));
  }

  /** Beyond that it is off by a multiple of 2^64 nanoseconds, as 64-bit durations are. */
  lemma PeriodOffsetWraps(days: int) returns (k: int)
    ensures PeriodOffset(days) == -24 * days * 3_600_000_000_000 + k * 0x1_0000_0000_0000_0000
    ensures -0x8000_0000_0000_0000 <= PeriodOffset(days) < 0x8000_0000_0000_0000
  {
    var hours := Wrap64(-24 * days);
    var j := WrapMeans(-24 * days);
    var m := WrapMeans(hours * HOUR);
    k := j * HOUR + m;
  }

  // ----- reading a number

  predicate Digit(c: char) { '0' <= c <= '9' }

  predicate AllDigits(s: string) { s != [] && forall i :: 0 <= i < |s| ==> Digit(s[i]) }

  function DigitsValue(s: string): int {
    if s == [] then 0 else 10 * DigitsValue(s[..|s| - 1]) + ((s[|s| - 1] as int) - ('0' as int))
  }

  /** A decimal 64-bit integer with an optional sign. */
  function ParseInt(s: string): Option<int> {
    var signed := s != [] && (s[0] == '-' || s[0] == '+');
    var digits := if signed then s[1..] else s;
    if !AllDigits(digits) then None
    else
      var n := if signed && s[0] == '-' then -DigitsValue(digits) else DigitsValue(digits);
      if -TWO63 <= n < TWO63 then Some(n) else None
  }

  /** The number written out. */
  function Decimal(n: nat): (s: string)
    ensures s != [] && forall i :: 0 <= i < |s| ==> Digit(s[i])
  {
    if n < 10 then [('0' as int + n) as char] else Decimal(n / 10) + [('0' as int + n % 10) as char]
  }

  lemma {:induction false} DecimalReads(n: nat)
    ensures DigitsValue(Decimal(n)) == n
  {
    if n >= 10 {
      DecimalReads(n / 10);
      var s := Decimal(n);
      assert s[..|s| - 1] == Decimal(n / 10);
    }
  }

  lemma {:induction false} LeadingZero(s: string)
    ensures DigitsValue("0" + s) == DigitsValue(s)
  {
    var z := "0" + s;
    if s == [] {
      assert z[..0] == [];
    } else {
      LeadingZero(s[..|s| - 1]);
      assert z[..|z| - 1] == "0" + s[..|s| - 1];
    }
  }

  /** A 64-bit integer is read back from the way it is written, with or without a plus sign; a larger one is refused. */
  lemma ParsePrinted(n: nat)
    ensures ParseInt(Decimal(n)) == ParseInt("+" + Decimal(n)) ==
            if n < 0x8000_0000_0000_0000 then Some(n) else None
    ensures ParseInt("-" + Decimal(n)) == if n <= 0x8000_0000_0000_0000 then Some(0 - n as int) else None
  {
    DecimalReads(n);
    var d := Decimal(n);
    assert Digit(d[0]);
    assert ("+" + d)[1..] == d && ("-" + d)[1..] == d;
  }

  /** What is read has only digits after its sign, and at least one of them. */
  lemma ParseRefuses(s: string)
    requires ParseInt(s).Some?
    ensures var digits := if s != [] && (s[0] == '-' || s[0] == '+') then s[1..] else s;
            digits != [] && forall i :: 0 <= i < |digits| ==> '0' <= digits[i] <= '9'
  {
    var digits := if s != [] && (s[0] == '-' || s[0] == '+') then s[1..] else s;
    assert AllDigits(digits);
    forall i | 0 <= i < |digits| ensures '0' <= digits[i] <= '9' { assert Digit(digits[i]); }
  }
}
