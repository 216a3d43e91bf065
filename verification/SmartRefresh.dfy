/**
 Refreshing a smart playlist first refreshes the playlists its rules refer to. References may form
 cycles; a set of visited playlists, shared by the whole recursion, keeps it finite.
 */
module SmartRefresh {
  import opened Common

  /** Where a playlist's own refresh goes wrong, if it does. */
  datatype Fault = NoFault | AtDelete | AtChildren | AtInsert | AfterInsert

  /**
   The playlists, the accessible playlists each one's rules refer to, which ones are due for a refresh,
   and the database failures of the run.
   */
  datatype Library = Library(all: set<string>, kids: string -> seq<string>, due: string -> bool,
                             fault: string -> Fault) {
    ghost predicate Closed() {
      forall p, c :: p in all && c in kids(p) ==> c in all
    }
  }

  /** The trace: a repeated visit, the start and end of a first visit, and the two rewrites of its tracks. */
  datatype Event = Repeat(id: string) | Enter(id: string) | Cleared(id: string) | Filled(id: string) | Exit(id: string)

  datatype State = State(visited: set<string>, log: seq<Event>)

  function Logged(s: State, e: Event): State { s.(log := s.log + [e]) }

  function Refresh(g: Library, s: State, id: string): (r: State)
    requires g.Closed() && s.visited <= g.all && id in g.all
    ensures s.visited <= r.visited <= g.all && id in r.visited
    decreases |g.all - s.visited|, 0
  {
    if id in s.visited then Logged(s, Repeat(id))
    else
      var s1 := State(s.visited + {id}, s.log + [Enter(id)]);
      assert g.all - s1.visited < g.all - s.visited;
      assert |g.all - s1.visited| < |g.all - s.visited| by { Smaller(g.all - s1.visited, g.all - s.visited); }
      if !g.due(id) || g.fault(id) == AtDelete then Logged(s1, Exit(id))
      else
        var s2 := Logged(s1, Cleared(id));
        if g.fault(id) == AtChildren then Logged(s2, Exit(id))
        else
          var s3 := RefreshAll(g, s2, g.kids(id));
          if g.fault(id) == AtInsert then Logged(s3, Exit(id)) else Logged(Logged(s3, Filled(id)), Exit(id))
  }

  function RefreshAll(g: Library, s: State, ids: seq<string>): (r: State)
    requires g.Closed() && s.visited <= g.all && forall c :: c in ids ==> c in g.all
    ensures s.visited <= r.visited <= g.all && forall c :: c in ids ==> c in r.visited
    decreases |g.all - s.visited|, |ids| + 1
  {
    if ids == [] then s
    else
      var s1 := Refresh(g, s, ids[0]);
      assert g.all - s1.visited <= g.all - s.visited;
      assert |g.all - s1.visited| <= |g.all - s.visited| by { NotLarger(g.all - s1.visited, g.all - s.visited); }
      RefreshAll(g, s1, ids[1..])
  }

  lemma NotLarger(a: set<string>, b: set<string>)
    requires a <= b
    ensures |a| <= |b|
  {
    assert b == a + (b - a);
  }

  lemma Smaller(a: set<string>, b: set<string>)
    requires a < b
    ensures |a| < |b|
  {
    assert !(b <= a);
    var x :| x in b && x !in a;
    NotLarger(a, b - {x});
  }

  // ----- what every refresh keeps

  /** A visit to the playlist refreshes the ones it refers to. */
  predicate Expands(g: Library, id: string) { g.due(id) && g.fault(id) != AtDelete && g.fault(id) != AtChildren }

  /** A visit to the playlist fills it. */
  predicate Fills(g: Library, id: string) { Expands(g, id) && g.fault(id) != AtInsert }

  /** A chain of references that a refresh follows. */
  ghost predicate IsPath(g: Library, path: seq<string>, a: string, b: string) {
    && |path| > 0 && path[0] == a && path[|path| - 1] == b
    && forall i :: 0 <= i < |path| - 1 ==> Expands(g, path[i]) && path[i + 1] in g.kids(path[i])
  }

  ghost predicate Reaches(g: Library, a: string, b: string) {
    exists path :: IsPath(g, path, a, b)
  }

  lemma ReachesKid(g: Library, a: string, b: string, c: string)
    requires Reaches(g, a, b) && Expands(g, b) && c in g.kids(b)
    ensures Reaches(g, a, c)
  {
    var path :| IsPath(g, path, a, b);
    assert IsPath(g, path + [c], a, c);
  }

  lemma ReachesSelf(g: Library, a: string)
    ensures Reaches(g, a, a)
  {
    assert IsPath(g, [a], a, a);
  }

  /** Visits and rewrites happen once. */
  ghost predicate Once(log: seq<Event>) {
    forall i, j :: 0 <= i < j < |log| && log[i] == log[j] ==> log[i].Repeat?
  }

  /** The visited playlists are those entered; those of `open` have not been left. */
  ghost predicate Accounted(s: State, open: set<string>) {
    && open <= s.visited
    && (forall x :: Enter(x) in s.log <==> x in s.visited)
    && (forall x :: Exit(x) in s.log <==> x in s.visited && x !in open)
    && (forall x :: Cleared(x) in s.log || Filled(x) in s.log ==> x in s.visited)
  }

  /** A playlist is not rewritten once its refresh has ended. */
  ghost predicate Finished(log: seq<Event>) {
    forall i, j :: 0 <= i < j < |log| && log[i].Exit? ==> log[j] != Filled(log[i].id)
  }

  /**
   When a playlist is filled, every playlist it refers to has been entered, and one that has not been
   left yet is one whose own refresh led here.
   */
  ghost predicate FilledAfterKids(g: Library, log: seq<Event>, i: nat)
    requires i < |log|
  {
    log[i].Filled? ==>
      && (forall c :: c in g.kids(log[i].id) ==> Enter(c) in log[..i])
      && (forall c :: Enter(c) in log[..i] && Exit(c) !in log[..i] ==> Reaches(g, c, log[i].id))
  }

  ghost predicate Good(g: Library, s: State, open: set<string>) {
    && Accounted(s, open) && Once(s.log) && Finished(s.log)
    && forall i :: 0 <= i < |s.log| ==> FilledAfterKids(g, s.log, i)
  }

  /** The events a call adds are about playlists it was the first to visit. */
  ghost predicate AboutNew(s: State, r: State) {
    s.log <= r.log && forall e :: e in r.log && e !in s.log && !e.Repeat? ==> e.id !in s.visited
  }

  lemma OldPositions(g: Library, log: seq<Event>, e: Event, i: nat)
    requires i < |log| && FilledAfterKids(g, log, i)
    ensures FilledAfterKids(g, log + [e], i)
  {
    assert (log + [e])[..i] == log[..i];
  }

  lemma Appended(g: Library, s: State, open: set<string>, e: Event)
    requires Good(g, s, open) && (e.Repeat? || e !in s.log)
    requires e.Filled? ==> Exit(e.id) !in s.log
    requires e.Filled? ==>
      && (forall c :: c in g.kids(e.id) ==> Enter(c) in s.log)
      && (forall c :: c in open ==> Reaches(g, c, e.id))
    ensures Once(s.log + [e]) && Finished(s.log + [e])
    ensures forall i :: 0 <= i < |s.log| + 1 ==> FilledAfterKids(g, s.log + [e], i)
  {
    var log := s.log + [e];
    assert log[..|s.log|] == s.log;
    forall i | 0 <= i < |log| ensures FilledAfterKids(g, log, i) {
      if i < |s.log| { OldPositions(g, s.log, e, i); }
    }
  }

  lemma RepeatStep(g: Library, s: State, open: set<string>, id: string)
    requires Good(g, s, open)
    ensures Good(g, Logged(s, Repeat(id)), open) && AboutNew(s, Logged(s, Repeat(id)))
  {
    Appended(g, s, open, Repeat(id));
  }

  /** The playlist is open and its tracks have not been filled. */
  ghost predicate InProgress(g: Library, s: State, open: set<string>, id: string) {
    Good(g, s, open) && id in open && Filled(id) !in s.log
  }

  lemma EnterStep(g: Library, s: State, open: set<string>, id: string)
    requires Good(g, s, open) && id !in s.visited
    ensures var t := State(s.visited + {id}, s.log + [Enter(id)]);
            InProgress(g, t, open + {id}, id) && AboutNew(s, t) && Cleared(id) !in t.log
  {
    Appended(g, s, open, Enter(id));
  }

  lemma ClearStep(g: Library, s: State, open: set<string>, id: string)
    requires InProgress(g, s, open, id) && Cleared(id) !in s.log
    ensures InProgress(g, Logged(s, Cleared(id)), open, id)
  {
    Appended(g, s, open, Cleared(id));
  }

  lemma FillStep(g: Library, s: State, open: set<string>, id: string)
    requires InProgress(g, s, open, id)
    requires (forall c :: c in g.kids(id) ==> c in s.visited) && (forall o :: o in open ==> Reaches(g, o, id))
    ensures Good(g, Logged(s, Filled(id)), open)
  {
    Appended(g, s, open, Filled(id));
  }

  lemma ExitStep(g: Library, s: State, open: set<string>, id: string)
    requires Good(g, s, open + {id}) && id !in open
    ensures Good(g, Logged(s, Exit(id)), open)
  {
    Appended(g, s, open + {id}, Exit(id));
  }

  lemma KidsKeepProgress(g: Library, s: State, r: State, open: set<string>, id: string)
    requires InProgress(g, s, open, id) && Good(g, r, open) && AboutNew(s, r)
    ensures InProgress(g, r, open, id)
  {}

  lemma AboutNewStep(s: State, t: State, e: Event)
    requires AboutNew(s, t) && e.id !in s.visited
    ensures AboutNew(s, Logged(t, e))
  {}

  lemma AboutNewTrans(s: State, t: State, u: State)
    requires AboutNew(s, t) && AboutNew(t, u) && s.visited <= t.visited
    ensures AboutNew(s, u)
  {}

  lemma {:induction false} RefreshGood(g: Library, s: State, id: string, open: set<string>)
    requires g.Closed() && s.visited <= g.all && id in g.all
    requires Good(g, s, open) && open <= s.visited && forall o :: o in open ==> Reaches(g, o, id)
    ensures Good(g, Refresh(g, s, id), open) && AboutNew(s, Refresh(g, s, id))
    decreases |g.all - s.visited|, 0
  {
    hide Good;
    hide AboutNew;
    hide Reaches;
    hide InProgress;
    if id in s.visited {
      RepeatStep(g, s, open, id);
      return;
    }
    var s1, open1 := State(s.visited + {id}, s.log + [Enter(id)]), open + {id};
    EnterStep(g, s, open, id);
    ProgressIsGood(g, s1, open1, id);
    AboutNewStep(s, s1, Exit(id));
    Smaller(g.all - s1.visited, g.all - s.visited);
    if !g.due(id) || g.fault(id) == AtDelete {
      ExitStep(g, s1, open, id);
      return;
    }
    var s2 := Logged(s1, Cleared(id));
    ClearStep(g, s1, open1, id);
    ProgressIsGood(g, s2, open1, id);
    AboutNewStep(s, s1, Cleared(id));
    AboutNewStep(s, s2, Exit(id));
    if g.fault(id) == AtChildren {
      ExitStep(g, s2, open, id);
      return;
    }
    ReachesSelf(g, id);
    RefreshAllGood(g, s2, g.kids(id), open1, id);
    var s3 := RefreshAll(g, s2, g.kids(id));
    AboutNewTrans(s, s2, s3);
    AboutNewStep(s, s3, Exit(id));
    if g.fault(id) == AtInsert {
      ExitStep(g, s3, open, id);
      return;
    }
    KidsKeepProgress(g, s2, s3, open1, id);
    FillStep(g, s3, open1, id);
    AboutNewStep(s, s3, Filled(id));
    AboutNewStep(s, Logged(s3, Filled(id)), Exit(id));
    ExitStep(g, Logged(s3, Filled(id)), open, id);
  }

  lemma ProgressIsGood(g: Library, s: State, open: set<string>, id: string)
    requires InProgress(g, s, open, id)
    ensures Good(g, s, open) && open <= s.visited
  {}

  lemma {:induction false} RefreshAllGood(g: Library, s: State, ids: seq<string>, open: set<string>, parent: string)
    requires g.Closed() && s.visited <= g.all && parent in g.all && Expands(g, parent)
    requires forall c :: c in ids ==> c in g.kids(parent) && c in g.all
    requires Good(g, s, open) && open <= s.visited && forall o :: o in open ==> Reaches(g, o, parent)
    ensures Good(g, RefreshAll(g, s, ids), open) && AboutNew(s, RefreshAll(g, s, ids))
    decreases |g.all - s.visited|, |ids| + 1
  {
    if ids != [] {
      forall o | o in open ensures Reaches(g, o, ids[0]) {
        ReachesKid(g, o, parent, ids[0]);
      }
      RefreshGood(g, s, ids[0], open);
      var s1 := Refresh(g, s, ids[0]);
      NotLarger(g.all - s1.visited, g.all - s.visited);
      RefreshAllGood(g, s1, ids[1..], open, parent);
    }
  }

  /** The trace of a whole refresh, from an empty visited set. */
  function Trace(g: Library, id: string): seq<Event>
    requires g.Closed() && id in g.all
  {
    Refresh(g, State({}, []), id).log
  }

  lemma TraceGood(g: Library, id: string)
    requires g.Closed() && id in g.all
    ensures Good(g, Refresh(g, State({}, []), id), {})
  {
    RefreshGood(g, State({}, []), id, {});
  }

  /** Whatever the references, each playlist is visited and has its tracks cleared and filled at most once. */
  lemma RewrittenOnce(g: Library, id: string, i: nat, j: nat)
    requires g.Closed() && id in g.all && i < j < |Trace(g, id)| && !Trace(g, id)[i].Repeat?
    ensures Trace(g, id)[i] != Trace(g, id)[j]
  {
    TraceGood(g, id);
  }

  /**
   When a playlist is filled, the refresh of every playlist `c` it refers to has ended, and `c` is not
   rewritten any more, unless `c` is still open because it refers back, directly or through others.
   */
  lemma FilledAfterReferences(g: Library, id: string, i: nat, c: string)
    requires g.Closed() && id in g.all && i < |Trace(g, id)|
    requires Trace(g, id)[i].Filled? && c in g.kids(Trace(g, id)[i].id)
    ensures Enter(c) in Trace(g, id)[..i]
    ensures Exit(c) in Trace(g, id)[..i] || Reaches(g, c, Trace(g, id)[i].id)
    ensures Exit(c) in Trace(g, id)[..i] ==> forall k :: i <= k < |Trace(g, id)| ==> Trace(g, id)[k] != Filled(c)
  {
    TraceGood(g, id);
    var log := Trace(g, id);
    assert FilledAfterKids(g, log, i);
    if Exit(c) in log[..i] {
      var e :| 0 <= e < i && log[..i][e] == Exit(c);
      assert log[e] == Exit(c);
    }
  }

  // ----- which playlists are filled

  /** What visits that are over have done: followed the references, and filled what can be filled. */
  ghost predicate Complete(g: Library, s: State, open: set<string>) {
    && (forall x, c :: x in s.visited && x !in open && Expands(g, x) && c in g.kids(x) ==> c in s.visited)
    && (forall x :: x in s.visited && x !in open && Fills(g, x) ==> Filled(x) in s.log)
    && (forall x :: Filled(x) in s.log ==> Fills(g, x))
  }

  lemma CompleteStep(g: Library, s: State, open: set<string>, e: Event)
    requires Complete(g, s, open) && (e.Filled? ==> Fills(g, e.id))
    ensures Complete(g, Logged(s, e), open)
  {}

  lemma CloseStep(g: Library, s: State, open: set<string>, id: string)
    requires Complete(g, s, open + {id})
    requires Expands(g, id) ==> forall c :: c in g.kids(id) ==> c in s.visited
    requires Fills(g, id) ==> Filled(id) in s.log
    ensures Complete(g, Logged(s, Exit(id)), open)
  {}

  lemma {:induction false} RefreshComplete(g: Library, s: State, id: string, open: set<string>)
    requires g.Closed() && s.visited <= g.all && id in g.all && Complete(g, s, open)
    ensures Complete(g, Refresh(g, s, id), open)
    decreases |g.all - s.visited|, 0
  {
    hide Complete;
    if id in s.visited {
      CompleteStep(g, s, open, Repeat(id));
      return;
    }
    var s1, open1 := State(s.visited + {id}, s.log + [Enter(id)]), open + {id};
    EnterComplete(g, s, open, id);
    Smaller(g.all - s1.visited, g.all - s.visited);
    if !g.due(id) || g.fault(id) == AtDelete {
      CloseStep(g, s1, open, id);
      return;
    }
    var s2 := Logged(s1, Cleared(id));
    CompleteStep(g, s1, open1, Cleared(id));
    if g.fault(id) == AtChildren {
      CloseStep(g, s2, open, id);
      return;
    }
    RefreshAllComplete(g, s2, g.kids(id), open1);
    var s3 := RefreshAll(g, s2, g.kids(id));
    if g.fault(id) == AtInsert {
      CloseStep(g, s3, open, id);
      return;
    }
    CompleteStep(g, s3, open1, Filled(id));
    CloseStep(g, Logged(s3, Filled(id)), open, id);
  }

  lemma EnterComplete(g: Library, s: State, open: set<string>, id: string)
    requires Complete(g, s, open)
    ensures Complete(g, State(s.visited + {id}, s.log + [Enter(id)]), open + {id})
  {}

  lemma {:induction false} RefreshAllComplete(g: Library, s: State, ids: seq<string>, open: set<string>)
    requires g.Closed() && s.visited <= g.all && (forall c :: c in ids ==> c in g.all) && Complete(g, s, open)
    ensures Complete(g, RefreshAll(g, s, ids), open)
    decreases |g.all - s.visited|, |ids| + 1
  {
    hide Complete;
    if ids != [] {
      RefreshComplete(g, s, ids[0], open);
      var s1 := Refresh(g, s, ids[0]);
      NotLarger(g.all - s1.visited, g.all - s.visited);
      RefreshAllComplete(g, s1, ids[1..], open);
    }
  }

  lemma {:induction false} PathVisited(g: Library, s: State, path: seq<string>, a: string, b: string)
    requires Complete(g, s, {}) && a in s.visited && IsPath(g, path, a, b)
    ensures b in s.visited
    decreases |path|
  {
    if |path| > 1 {
      PathVisited(g, s, path[1..], path[1], b);
    }
  }

  /** A refresh reaches and fills whatever can be filled along its references. */
  lemma ReachedIsFilled(g: Library, a: string, b: string)
    requires g.Closed() && a in g.all && Reaches(g, a, b) && Fills(g, b)
    ensures Filled(b) in Trace(g, a)
  {
    var s := Refresh(g, State({}, []), a);
    RefreshComplete(g, State({}, []), a, {});
    var path :| IsPath(g, path, a, b);
    PathVisited(g, s, path, a, b);
  }

  lemma TraceEnds(g: Library, id: string)
    requires g.Closed() && id in g.all
    ensures Trace(g, id) != [] && Trace(g, id)[|Trace(g, id)| - 1] == Exit(id)
  {}

  /** At event `i`, which fills `p`, the refresh of every playlist `p` refers to has ended. */
  ghost predicate ReferencesDone(g: Library, id: string, i: nat, p: string)
    requires g.Closed() && id in g.all
  {
    i < |Trace(g, id)| && Trace(g, id)[i] == Filled(p) ==> forall c :: c in g.kids(p) ==> Exit(c) in Trace(g, id)[..i]
  }

  lemma BackReferenceOpen(g: Library, p: string, c: string) returns (i: nat)
    requires g.Closed() && p in g.all && Fills(g, p) && c in g.kids(p) && Reaches(g, c, p)
    ensures !ReferencesDone(g, c, i, p)
  {
    ReachedIsFilled(g, c, p);
    TraceGood(g, c);
    TraceEnds(g, c);
    var log := Trace(g, c);
    i :| 0 <= i < |log| && log[i] == Filled(p);
    var last := |log| - 1;
    assert forall e :: 0 <= e < last ==> log[e] != log[last];
    assert forall e :: 0 <= e < i ==> log[..i][e] == log[e];
  }

  /**
   Wherever the refresh starts, a playlist is filled only after every playlist it refers to has finished,
   exactly when it cannot be filled at all or none of those leads back to it.
   */
  lemma ReferencesDoneExactly(g: Library, p: string)
    requires g.Closed() && p in g.all
    ensures (forall id, i: nat :: id in g.all ==> ReferencesDone(g, id, i, p))
       <==> !(Fills(g, p) && exists c :: c in g.kids(p) && Reaches(g, c, p))
  {
    if Fills(g, p) && exists c :: c in g.kids(p) && Reaches(g, c, p) {
      var c :| c in g.kids(p) && Reaches(g, c, p);
      var i := BackReferenceOpen(g, p, c);
    } else {
      forall id, i: nat | id in g.all ensures ReferencesDone(g, id, i, p) {
        if i < |Trace(g, id)| && Trace(g, id)[i] == Filled(p) {
          RefreshComplete(g, State({}, []), id, {});
          assert Fills(g, p);
          forall c | c in g.kids(p) ensures Exit(c) in Trace(g, id)[..i] {
            FilledAfterReferences(g, id, i, c);
          }
        }
      }
    }
  }

  /** Two playlists that refer to each other: the second is filled while the first is cleared and still empty. */
  lemma CycleFillsFromEmpty(g: Library, a: string, b: string)
    requires g.Closed() && a in g.all && a != b && g.kids(a) == [b] && g.kids(b) == [a] && Fills(g, a) && Fills(g, b)
    ensures Trace(g, a) ==
            [Enter(a), Cleared(a), Enter(b), Cleared(b), Repeat(a), Filled(b), Exit(b), Filled(a), Exit(a)]
  {
    var s2 := State({a}, [Enter(a), Cleared(a)]);
    var t2 := State({a, b}, [Enter(a), Cleared(a), Enter(b), Cleared(b)]);
    OneKid(g, t2, a);
    OneKid(g, s2, b);
    assert Refresh(g, t2, a) == Logged(t2, Repeat(a));
    assert s2.visited + {b} == t2.visited && s2.log + [Enter(b)] + [Cleared(b)] == t2.log;
    assert Refresh(g, s2, b) == Logged(Logged(RefreshAll(g, t2, [a]), Filled(b)), Exit(b));
    assert State({}, []).visited + {a} == s2.visited && [] + [Enter(a)] + [Cleared(a)] == s2.log;
    assert Refresh(g, State({}, []), a) == Logged(Logged(RefreshAll(g, s2, [b]), Filled(a)), Exit(a));
  }

  lemma OneKid(g: Library, s: State, id: string)
    requires g.Closed() && s.visited <= g.all && id in g.all
    ensures RefreshAll(g, s, [id]) == Refresh(g, s, id)
  {
    assert [id][1..] == [];
    assert RefreshAll(g, Refresh(g, s, id), []) == Refresh(g, s, id);
  }

  /** Every call that starts also ends, so all visits are over when the refresh returns. */
  lemma EveryVisitEnds(g: Library, id: string, x: string)
    requires g.Closed() && id in g.all && Enter(x) in Trace(g, id)
    ensures Exit(x) in Trace(g, id)
  {
    TraceGood(g, id);
  }

  class Refresher {
    const g: Library
    var visited: set<string>
    var log: seq<Event>

    constructor (g: Library)
      ensures this.g == g && visited == {} && log == []
    {
      this.g := g;
      visited, log := {}, [];
    }

    ghost function Now(): State
      reads this
    {
      State(visited, log)
    }

    method RefreshTree(id: string) returns (ok: bool)
      requires g.Closed() && visited <= g.all && id in g.all
      modifies this
      ensures Now() == Refresh(g, old(Now()), id)
      ensures ok <==> id !in old(visited) && g.due(id) && g.fault(id) == NoFault
      ensures ok ==> Filled(id) in log
      decreases |g.all - visited|, 0
    {
      if id in visited {
        log := log + [Repeat(id)];
        return false;
      }
      ghost var before := visited;
      visited := visited + {id};
      log := log + [Enter(id)];
      Smaller(g.all - visited, g.all - before);
      if !g.due(id) || g.fault(id) == AtDelete {
        log := log + [Exit(id)];
        return false;
      }
      log := log + [Cleared(id)];
      var loaded := RefreshChildren(id);
      if !loaded || g.fault(id) == AtInsert {
        log := log + [Exit(id)];
        return false;
      }
      log := log + [Filled(id)];
      ok := g.fault(id) != AfterInsert;
      log := log + [Exit(id)];
    }

    method RefreshChildren(id: string) returns (loaded: bool)
      requires g.Closed() && visited <= g.all && id in g.all
      modifies this
      ensures loaded == (g.fault(id) != AtChildren)
      ensures Now() == if loaded then RefreshAll(g, old(Now()), g.kids(id)) else old(Now())
      decreases |g.all - visited|, 1
    {
      if g.fault(id) == AtChildren { return false; }
      var kids := g.kids(id);
      ghost var start := Now();
      for i := 0 to |kids|
        invariant start.visited <= visited <= g.all
        invariant RefreshAll(g, start, kids) == RefreshAll(g, Now(), kids[i..])
      {
        NotLarger(g.all - visited, g.all - start.visited);
        assert kids[i..][1..] == kids[i + 1..];
        var _ := RefreshTree(kids[i]);
      }
      return true;
    }
  }
}
