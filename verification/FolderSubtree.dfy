/** Selecting a folder's subtree with LIKE on an escaped path prefix. */
module FolderSubtree {
  import opened Common
  import SqlLike

  // ----- LIKE ... ESCAPE '\'

  predicate Like(pattern: string, s: string) { SqlLike.Like(pattern, s, Some('\\')) }

  function EscapeChar(c: char): string {
    if c == '\\' || c == '%' || c == '_' then ['\\', c] else [c]
  }

  function EscapeLikePrefix(s: string): string {
    if s == [] then [] else EscapeChar(s[0]) + EscapeLikePrefix(s[1..])
  }

  function SubtreePattern(path: string): string { EscapeLikePrefix(path) + "/%" }

  /** `s` begins with `p`, up to the case of ASCII letters. */
  ghost predicate BeginsFolded(s: string, p: string) {
    |p| <= |s| && forall i :: 0 <= i < |p| ==> SqlLike.Fold(s[i]) == SqlLike.Fold(p[i])
  }

  lemma {:induction false} AnyTail(s: string)
    ensures Like("%", s)
  {
    if s != [] { AnyTail(s[1..]); }
  }

  /** An escaped character matches itself alone. */
  lemma EscapedStep(c: char, rest: string, s: string)
    ensures Like(EscapeChar(c) + rest, s) <==> s != [] && SqlLike.Fold(s[0]) == SqlLike.Fold(c) && Like(rest, s[1..])
  {
    var p := EscapeChar(c) + rest;
    if c == '\\' || c == '%' || c == '_' {
      assert p[2..] == rest;
    } else {
      assert p[1..] == rest;
    }
  }

  lemma SlashTail(s: string)
    ensures Like("/%", s) <==> s != [] && s[0] == '/'
  {
    assert "/%"[1..] == "%";
    if s != [] { AnyTail(s[1..]); }
  }

  /**
   For every path, wildcards and backslashes included, the pattern matches exactly what begins with the
   path and a slash, up to LIKE's case folding.
   */
  lemma {:induction false} PatternIsPrefix(path: string, s: string)
    ensures Like(SubtreePattern(path), s) <==> BeginsFolded(s, path + "/")
  {
    if path == [] {
      assert EscapeLikePrefix(path) + "/%" == "/%" && path + "/" == "/";
      SlashTail(s);
    } else {
      var tail := path[1..];
      assert SubtreePattern(path) == EscapeChar(path[0]) + SubtreePattern(tail);
      EscapedStep(path[0], SubtreePattern(tail), s);
      var p, q := path + "/", tail + "/";
      assert forall i :: 0 <= i < |q| ==> q[i] == p[i + 1];
      if s != [] {
        PatternIsPrefix(tail, s[1..]);
        assert forall i :: 0 <= i < |s| - 1 ==> s[1..][i] == s[i + 1];
        assert BeginsFolded(s, p) <==> SqlLike.Fold(s[0]) == SqlLike.Fold(p[0]) && BeginsFolded(s[1..], q) by {
          if SqlLike.Fold(s[0]) == SqlLike.Fold(p[0]) && BeginsFolded(s[1..], q) {
            forall i | 0 <= i < |p| ensures SqlLike.Fold(s[i]) == SqlLike.Fold(p[i]) {
              if i > 0 { assert SqlLike.Fold(s[1..][i - 1]) == SqlLike.Fold(q[i - 1]); }
            }
          }
          if BeginsFolded(s, p) {
            forall i | 0 <= i < |q| ensures SqlLike.Fold(s[1..][i]) == SqlLike.Fold(q[i]) {
              assert SqlLike.Fold(s[i + 1]) == SqlLike.Fold(p[i + 1]);
            }
          }
        }
      }
    }
  }

  function OtherCase(c: char): char {
    if 'A' <= c <= 'Z' then (c as int + 32) as char
    else if 'a' <= c <= 'z' then (c as int - 32) as char
    else c
  }

  /**
   The pattern selects exactly the true descendants' paths, whatever is in the library, exactly when the
   path has no ASCII letter: with one, a folder that differs only in its case is taken in as well.
   */
  lemma ExactWithoutLetters(path: string)
    ensures (forall s :: Like(SubtreePattern(path), s) <==> path + "/" <= s)
       <==> (forall i :: 0 <= i < |path| ==> !SqlLike.Letter(path[i]))
  {
    if i :| 0 <= i < |path| && SqlLike.Letter(path[i]) {
      var s := path[i := OtherCase(path[i])] + "/";
      PatternIsPrefix(path, s);
      assert s[i] != (path + "/")[i];
      assert BeginsFolded(s, path + "/");
      assert Like(SubtreePattern(path), s) && !(path + "/" <= s);
    } else {
      forall s ensures Like(SubtreePattern(path), s) <==> path + "/" <= s {
        PatternIsPrefix(path, s);
        var p := path + "/";
        assert forall j :: 0 <= j < |p| ==> !SqlLike.Letter(p[j]);
        if BeginsFolded(s, p) {
          forall j | 0 <= j < |p| ensures s[j] == p[j] { assert SqlLike.Fold(s[j]) == SqlLike.Fold(p[j]); }
        }
      }
    }
  }

  // ----- the filter

  /** A folder's `path` is its parent's; it is "." for the top folders and empty for the library's root. */
  datatype Folder = Folder(id: string, path: string, name: string, library: int, missing: bool)

  /** Where the folder is in the library. */
  function Location(f: Folder): string {
    if f.path == "" || f.path == "." then f.name else f.path + "/" + f.name
  }

  /** The folder as it is stored: its name is one path element and its id is that of its location. */
  ghost predicate Stored(f: Folder, idOf: string -> string) {
    f.name != "" && (forall i :: 0 <= i < |f.name| ==> f.name[i] != '/') && f.id == idOf(Location(f))
  }

  datatype PathTest = HasId(id: string) | HasPath(path: string) | PathLike(pattern: string)

  /** Either the whole library, or the folders some test accepts. */
  datatype Filter = Whole(library: int) | Tests(library: int, tests: seq<PathTest>)

  predicate Passes(t: PathTest, f: Folder) {
    match t
    case HasId(id) => f.id == id
    case HasPath(p) => f.path == p
    case PathLike(pattern) => Like(pattern, f.path)
  }

  ghost predicate PassesSome(tests: seq<PathTest>, f: Folder) {
    exists t :: t in tests && Passes(t, f)
  }

  ghost predicate Selects(flt: Filter, f: Folder) {
    f.library == flt.library && !f.missing && (flt.Tests? ==> PassesSome(flt.tests, f))
  }

  /** What the filter's three tests accept. */
  ghost predicate InSubtree(f: Folder, path: string, idOf: string -> string) {
    f.id == idOf(path) || f.path == path || BeginsFolded(f.path, path + "/")
  }

  /** The folder at the path. */
  ghost predicate At(f: Folder, path: string) { Location(f) == path }

  /** A folder somewhere below the path, whose ASCII letters may be in the other case except just below it. */
  ghost predicate Under(f: Folder, path: string) {
    BeginsFolded(Location(f), path + "/") && (|f.path| == |path| ==> f.path == path)
  }

  /** For stored folders and every path but the root, the tests accept the folder at the path and those below it. */
  lemma SubtreeMeans(f: Folder, path: string, idOf: string -> string)
    requires Stored(f, idOf) && path != "" && path != "." && forall p, q :: idOf(p) == idOf(q) ==> p == q
    ensures InSubtree(f, path, idOf) <==> At(f, path) || Under(f, path)
  {
    var p, full := path + "/", Location(f);
    if f.path == "" || f.path == "." {
      assert BeginsFolded(full, p) ==> SqlLike.Fold(full[|path|]) == SqlLike.Fold(p[|path|]);
    } else {
      assert full[..|f.path|] == f.path && full[|f.path|] == '/';
      if BeginsFolded(f.path, p) {
        assert forall i :: 0 <= i < |p| ==> full[i] == f.path[i];
      }
      if |f.path| < |path| < |full| {
        assert full[|path|] == f.name[|path| - |f.path| - 1] && SqlLike.Fold(full[|path|]) != SqlLike.Fold(p[|path|]);
      }
      if BeginsFolded(full, p) && |f.path| > |path| {
        forall i | 0 <= i < |p| ensures SqlLike.Fold(f.path[i]) == SqlLike.Fold(p[i]) {
          assert full[i] == f.path[i];
        }
      }
    }
  }

  /** The folder's location is the path or begins with the path and a slash. */
  ghost predicate Within(f: Folder, path: string) { Location(f) == path || path + "/" <= Location(f) }

  lemma WithinWithoutLetters(f: Folder, path: string, idOf: string -> string)
    requires Stored(f, idOf) && path != "" && path != "." && forall p, q :: idOf(p) == idOf(q) ==> p == q
    requires forall i :: 0 <= i < |path| ==> !SqlLike.Letter(path[i])
    ensures InSubtree(f, path, idOf) <==> Within(f, path)
  {
    SubtreeMeans(f, path, idOf);
    ExactWithoutLetters(path);
    PatternIsPrefix(path, Location(f));
    assert Like(SubtreePattern(path), Location(f)) <==> path + "/" <= Location(f);
    var p, full := path + "/", Location(f);
    if |f.path| == |path| {
      if f.path == "." {
        assert |full| > |path| ==> full[|path|] != p[|path|];
      } else {
        assert full[..|path|] == f.path && p[..|path|] == path;
        assert p <= full ==> full[..|path|] == p[..|path|];
      }
    }
  }

  lemma OtherCaseTaken(path: string, i: nat, idOf: string -> string) returns (f: Folder)
    requires i < |path| && SqlLike.Letter(path[i])
    ensures Stored(f, idOf) && InSubtree(f, path, idOf) && !Within(f, path)
  {
    var parent := path[i := OtherCase(path[i])] + "/b";
    f := Folder(idOf(parent + "/c"), parent, "c", 0, false);
    assert Location(f) == parent + "/c";
    assert BeginsFolded(parent, path + "/");
    assert Location(f)[i] == parent[i] != path[i] == (path + "/")[i];
  }

  /** The tests take exactly the folders within the path, whatever is stored, exactly when it has no ASCII letter. */
  lemma SubtreeExactly(path: string, idOf: string -> string)
    requires path != "" && path != "." && forall p, q :: idOf(p) == idOf(q) ==> p == q
    ensures (forall f :: Stored(f, idOf) ==> (InSubtree(f, path, idOf) <==> Within(f, path)))
       <==> (forall i :: 0 <= i < |path| ==> !SqlLike.Letter(path[i]))
  {
    if i :| 0 <= i < |path| && SqlLike.Letter(path[i]) {
      var f := OtherCaseTaken(path, i, idOf);
      assert Stored(f, idOf);
    } else {
      forall f | Stored(f, idOf) ensures InSubtree(f, path, idOf) <==> Within(f, path) {
        WithinWithoutLetters(f, path, idOf);
      }
    }
  }

  /** The folder is in the subtree of one of the first `n` paths. */
  ghost predicate InSome(f: Folder, paths: seq<string>, n: nat, clean: string -> string, idOf: string -> string)
    requires n <= |paths|
  {
    exists i :: 0 <= i < n && InSubtree(f, clean(paths[i]), idOf)
  }

  lemma PathTestsMean(f: Folder, path: string, idOf: string -> string, t: PathTest)
    ensures (t in [HasId(idOf(path)), HasPath(path), PathLike(SubtreePattern(path))] && Passes(t, f))
            ==> InSubtree(f, path, idOf)
    ensures InSubtree(f, path, idOf) ==>
            exists u :: u in [HasId(idOf(path)), HasPath(path), PathLike(SubtreePattern(path))] && Passes(u, f)
  {
    PatternIsPrefix(path, f.path);
    var tests := [HasId(idOf(path)), HasPath(path), PathLike(SubtreePattern(path))];
    assert tests[0] in tests && tests[1] in tests && tests[2] in tests;
  }

  /** `clean` strips a leading slash and normalises; `idOf` is the folder id at a path of the library. */
  method FolderSubtreeFilter(library: int, paths: seq<string>, clean: string -> string, idOf: string -> string)
    returns (flt: Filter)
    ensures forall f :: Selects(flt, f) <==>
              && f.library == library && !f.missing
              && ((exists i :: 0 <= i < |paths| && clean(paths[i]) == ".") || InSome(f, paths, |paths|, clean, idOf))
  {
    var tests: seq<PathTest> := [];
    for i := 0 to |paths|
      invariant forall j :: 0 <= j < i ==> clean(paths[j]) != "."
      invariant forall f :: PassesSome(tests, f) <==> InSome(f, paths, i, clean, idOf)
    {
      var p := clean(paths[i]);
      if p == "." {
        return Whole(library);
      }
      ghost var before := tests;
      var own := [HasId(idOf(p)), HasPath(p), PathLike(SubtreePattern(p))];
      tests := tests + own;
      forall f ensures PassesSome(tests, f) <==> InSome(f, paths, i + 1, clean, idOf) {
        AddedTests(f, before, own, p, idOf);
      }
    }
    flt := Tests(library, tests);
  }

  lemma AddedTests(f: Folder, before: seq<PathTest>, own: seq<PathTest>, path: string, idOf: string -> string)
    requires own == [HasId(idOf(path)), HasPath(path), PathLike(SubtreePattern(path))]
    ensures PassesSome(before + own, f) <==> PassesSome(before, f) || InSubtree(f, path, idOf)
  {
    if t :| t in before + own && Passes(t, f) {
      PathTestsMean(f, path, idOf, t);
    }
    PathTestsMean(f, path, idOf, HasPath(path));
    if t :| t in before && Passes(t, f) {
      assert t in before + own;
    }
    if t :| t in own && Passes(t, f) {
      assert t in before + own;
    }
  }
}
