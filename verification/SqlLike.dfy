/** SQLite's LIKE on text, and what its patterns say without the backtracking. */
module SqlLike {
  import opened Common

  /** LIKE folds the case of ASCII letters. */
  function Fold(c: char): char {
    if 'A' <= c <= 'Z' then (c as int + 32) as char else c
  }

  predicate Letter(c: char) { 'A' <= c <= 'Z' || 'a' <= c <= 'z' }

  /** `s LIKE pattern`, with the ESCAPE character if there is one. */
  predicate Like(pattern: string, s: string, esc: Option<char>)
    decreases |pattern|, |s|
  {
    if pattern == [] then s == []
    else if esc == Some(pattern[0]) then
      |pattern| > 1 && s != [] && Fold(s[0]) == Fold(pattern[1]) && Like(pattern[2..], s[1..], esc)
    else if pattern[0] == '%' then Like(pattern[1..], s, esc) || (s != [] && Like(pattern, s[1..], esc))
    else if s == [] then false
    else (pattern[0] == '_' || Fold(s[0]) == Fold(pattern[0])) && Like(pattern[1..], s[1..], esc)
  }

  // ----- patterns without ESCAPE

  predicate Wild(c: char) { c == '%' || c == '_' }

  ghost predicate Plain(t: string) { forall i :: 0 <= i < |t| ==> !Wild(t[i]) }

  /** `s` reads as `t`, up to the case of ASCII letters. */
  ghost predicate SameText(t: string, s: string) {
    |s| == |t| && forall i :: 0 <= i < |t| ==> Fold(s[i]) == Fold(t[i])
  }

  /** `s` is `t` with each `_` standing for one character and each `%` for any stretch of them. */
  ghost predicate Fits(t: string, s: string)
    decreases |t|
  {
    if t == [] then s == []
    else if t[0] == '%' then exists k :: 0 <= k <= |s| && Fits(t[1..], s[k..])
    else s != [] && (t[0] == '_' || Fold(s[0]) == Fold(t[0])) && Fits(t[1..], s[1..])
  }

  lemma FitsStretch(t: string, s: string)
    requires t != [] && t[0] == '%'
    ensures Fits(t, s) <==> Fits(t[1..], s) || (s != [] && Fits(t, s[1..]))
  {
    if k :| 0 <= k <= |s| && Fits(t[1..], s[k..]) {
      if k == 0 { assert s[0..] == s; } else { assert s[k..] == s[1..][k - 1..]; }
    }
    if Fits(t[1..], s) { assert s[0..] == s; }
    if s != [] && Fits(t, s[1..]) {
      var k :| 0 <= k <= |s[1..]| && Fits(t[1..], s[1..][k..]);
      assert s[1..][k..] == s[k + 1..];
    }
  }

  /** The backtracking match decides exactly whether the text fits the pattern. */
  lemma {:induction false} LikeFits(t: string, s: string)
    ensures Like(t, s, None) <==> Fits(t, s)
    decreases |t|, |s|
  {
    if t != [] {
      if t[0] == '%' {
        FitsStretch(t, s);
        LikeFits(t[1..], s);
        if s != [] { LikeFits(t, s[1..]); }
      } else if s != [] {
        LikeFits(t[1..], s[1..]);
      }
    }
  }

  ghost predicate FitsSplit(a: string, b: string, s: string) {
    exists k :: 0 <= k <= |s| && Fits(a, s[..k]) && Fits(b, s[k..])
  }

  lemma SplitHere(a: string, b: string, s: string, k: nat)
    requires k <= |s| && Fits(a, s[..k]) && Fits(b, s[k..])
    ensures FitsSplit(a, b, s)
  {}

  /** A text fits one pattern after another exactly when it can be cut so that each part fits its own. */
  lemma {:induction false} FitsAppend(a: string, b: string, s: string)
    ensures Fits(a + b, s) <==> FitsSplit(a, b, s)
    decreases |a|
  {
    if a == [] {
      assert a + b == b;
      if Fits(b, s) { assert s[0..] == s && s[..0] == []; SplitHere(a, b, s, 0); }
      if FitsSplit(a, b, s) { assert s[0..] == s; }
    } else {
      assert (a + b)[1..] == a[1..] + b;
      if a[0] == '%' { FitsAppendStretch(a, b, s); } else { FitsAppendOne(a, b, s); }
    }
  }

  lemma FitsFrom(t: string, s: string, k: nat)
    requires t != [] && t[0] == '%' && k <= |s| && Fits(t[1..], s[k..])
    ensures Fits(t, s)
  {}

  lemma StretchStart(t: string, s: string) returns (k: nat)
    requires t != [] && t[0] == '%' && Fits(t, s)
    ensures k <= |s| && Fits(t[1..], s[k..])
  {
    k :| 0 <= k <= |s| && Fits(t[1..], s[k..]);
  }

  lemma CutTwice(s: string, k: nat, m: nat)
    requires k + m <= |s|
    ensures s[k..][..m] == s[..k + m][k..] && s[k..][m..] == s[k + m..]
  {}

  lemma {:induction false} FitsAppendStretch(a: string, b: string, s: string)
    requires a != [] && a[0] == '%' && (a + b)[1..] == a[1..] + b
    ensures Fits(a + b, s) <==> FitsSplit(a, b, s)
    decreases |a|, 0
  {
    hide Fits;
    hide FitsSplit;
    if Fits(a + b, s) {
      var k := StretchStart(a + b, s);
      var rest := s[k..];
      FitsAppend(a[1..], b, rest);
      var m := SplitPoint(a[1..], b, rest);
      CutTwice(s, k, m);
      FitsFrom(a, s[..k + m], k);
      SplitHere(a, b, s, k + m);
    }
    if FitsSplit(a, b, s) {
      var m := SplitPoint(a, b, s);
      var k := StretchStart(a, s[..m]);
      CutTwice(s, k, m - k);
      SplitHere(a[1..], b, s[k..], m - k);
      FitsAppend(a[1..], b, s[k..]);
      FitsFrom(a + b, s, k);
    }
  }

  lemma SplitPoint(a: string, b: string, s: string) returns (k: nat)
    requires FitsSplit(a, b, s)
    ensures k <= |s| && Fits(a, s[..k]) && Fits(b, s[k..])
  {
    k :| 0 <= k <= |s| && Fits(a, s[..k]) && Fits(b, s[k..]);
  }

  predicate CharFits(t: char, c: char) { t == '_' || Fold(c) == Fold(t) }

  lemma FitsFirst(t: string, s: string)
    requires t != [] && t[0] != '%'
    ensures Fits(t, s) <==> s != [] && CharFits(t[0], s[0]) && Fits(t[1..], s[1..])
  {}

  lemma {:induction false} FitsAppendOne(a: string, b: string, s: string)
    requires a != [] && a[0] != '%' && (a + b)[1..] == a[1..] + b
    ensures Fits(a + b, s) <==> FitsSplit(a, b, s)
    decreases |a|, 0
  {
    hide Fits;
    hide FitsSplit;
    hide CharFits;
    FitsFirst(a + b, s);
    if Fits(a + b, s) {
      FitsAppend(a[1..], b, s[1..]);
      var m := SplitPoint(a[1..], b, s[1..]);
      CutTwice(s, 1, m);
      FitsFirst(a, s[..m + 1]);
      SplitHere(a, b, s, m + 1);
    }
    if FitsSplit(a, b, s) {
      var m := SplitPoint(a, b, s);
      FitsFirst(a, s[..m]);
      CutTwice(s, 1, m - 1);
      SplitHere(a[1..], b, s[1..], m - 1);
      FitsAppend(a[1..], b, s[1..]);
    }
  }

  lemma {:induction false} AnythingFits(s: string)
    ensures Fits("%", s)
  {
    assert "%"[1..] == "" && s[|s|..] == [];
  }

  /** A pattern without wildcards is fitted by itself alone, up to case. */
  lemma {:induction false} PlainFits(t: string, s: string)
    requires Plain(t)
    ensures Fits(t, s) <==> SameText(t, s)
  {
    if t != [] && s != [] {
      assert !Wild(t[0]);
      PlainFits(t[1..], s[1..]);
      assert forall i :: 0 < i < |t| && i < |s| ==> t[i] == t[1..][i - 1] && s[i] == s[1..][i - 1];
      if SameText(t, s) {
        forall i | 0 <= i < |t| - 1 ensures Fold(s[1..][i]) == Fold(t[1..][i]) {
          assert Fold(s[i + 1]) == Fold(t[i + 1]);
        }
      }
      if Fold(s[0]) == Fold(t[0]) && SameText(t[1..], s[1..]) {
        forall i | 0 <= i < |t| ensures Fold(s[i]) == Fold(t[i]) {
          if i > 0 { assert Fold(s[1..][i - 1]) == Fold(t[1..][i - 1]); }
        }
      }
    }
  }

  /** The text with each `%` taken out and each `_` turned into a letter: it fits, and has no wildcard left. */
  function Tamed(t: string): string {
    if t == [] then []
    else (if t[0] == '%' then "" else if t[0] == '_' then "x" else [t[0]]) + Tamed(t[1..])
  }

  lemma {:induction false} TamedFits(t: string)
    ensures Fits(t, Tamed(t)) && Plain(Tamed(t)) && |Tamed(t)| <= |t|
  {
    if t != [] {
      TamedFits(t[1..]);
      var r, q := Tamed(t), Tamed(t[1..]);
      if t[0] == '%' {
        assert r == q && r[0..] == r;
      } else {
        assert r[1..] == q;
        forall i | 0 <= i < |r| ensures !Wild(r[i]) {
          if i > 0 { assert !Wild(q[i - 1]); }
        }
      }
    }
  }
}
