/**
 The schedule of statistics refreshes: a pending mark, a failure count and time stamps in the property
 table decide when a conditional ANALYZE runs. All operations hold one mutex, so a run is a sequence.
 */
module AnalyzeSchedule {
  import opened Common

  const HOUR := 3600
  const MAX_AGE := 24 * HOUR

  /** A stored time; one that does not parse is garbled. */
  datatype Stamp = At(t: int) | Garbled

  /** The four properties. A failure count that does not parse reads as 0. */
  datatype Props = Props(pending: Option<string>, lastAnalyze: Option<Stamp>, failures: Option<int>,
                         lastAttempt: Option<Stamp>)

  /** The wait, in seconds, grows from half an hour to a day. */
  function RetryDelay(failures: int): (d: int)
    ensures failures == 1 ==> d == 1800
    ensures failures == 2 ==> d == 3600
    ensures failures == 3 ==> d == 7200
    ensures failures < 1 || failures > 3 ==> d == 86400
  {
    if failures == 1 then HOUR / 2 else if failures == 2 then HOUR else if failures == 3 then 2 * HOUR else 24 * HOUR
  }

  predicate BackingOff(p: Props, now: int) {
    && p.failures.Some? && p.failures.value >= 1
    && p.lastAttempt.Some? && p.lastAttempt.value.At?
    && p.lastAttempt.value.t <= now && now - p.lastAttempt.value.t < RetryDelay(p.failures.value)
  }

  predicate IsPending(p: Props) { p.pending == Some("1") }

  predicate Due(p: Props, now: int) {
    if BackingOff(p, now) then false
    else if IsPending(p) then true
    else if p.lastAnalyze.None? || p.lastAnalyze.value.Garbled? || p.lastAnalyze.value.t > now then true
    else now - p.lastAnalyze.value.t >= MAX_AGE
  }

  // ----- writes

  function Marked(p: Props): Props { p.(pending := Some("1")) }

  function Succeeded(p: Props, now: int): Props {
    p.(lastAnalyze := Some(At(now)), pending := Some("0"), failures := Some(0))
  }

  function FailCount(p: Props): nat { if p.failures.Some? then Max(p.failures.value, 0) else 0 }

  function Failed(p: Props, now: int): Props {
    Props(Some("1"), p.lastAnalyze, Some(FailCount(p) + 1), Some(At(now)))
  }

  /** Which database steps go wrong during one call. */
  datatype Faults = Faults(read: bool, mark: bool, analyze: bool, recordSuccess: bool, recordFailure: bool)

  datatype Ending = Success | FailureRecorded | FailureLost

  function Outcome(f: Faults): Ending {
    if !f.mark && !f.analyze && !f.recordSuccess then Success
    else if f.recordFailure then FailureLost
    else FailureRecorded
  }

  /** A refresh: mark pending first, so that a crash leaves the mark, then analyse and record. */
  function Refreshed(p: Props, now: int, f: Faults): Props {
    var marked := if f.mark then p else Marked(p);
    match Outcome(f)
    case Success => Succeeded(marked, now)
    case FailureRecorded => Failed(marked, now)
    case FailureLost => marked
  }

  class Analyzer {
    var props: Props

    constructor ()
      ensures props == Props(None, None, None, None)
    {
      props := Props(None, None, None, None);
    }

    method MarkOptimizePending(fails: bool) returns (ok: bool)
      modifies this
      ensures ok == !fails && props == if ok then Marked(old(props)) else old(props)
    {
      if fails { return false; }
      props := props.(pending := Some("1"));
      return true;
    }

    method OptimizeDue(now: int) returns (due: bool)
      ensures due == Due(props, now)
      ensures due ==> !BackingOff(props, now)
      ensures IsPending(props) ==> due == !BackingOff(props, now)
      ensures !IsPending(props) && !BackingOff(props, now) ==>
                (!due <==> props.lastAnalyze.Some? && props.lastAnalyze.value.At?
                           && now - 86400 < props.lastAnalyze.value.t <= now)
    {
      var backingOff := AnalyzeRetryBackoffActive(now);
      if backingOff { return false; }
      if props.pending == Some("1") { return true; }
      if props.lastAnalyze == None { return true; }
      if props.lastAnalyze.value == Garbled || props.lastAnalyze.value.t > now { return true; }
      return now - props.lastAnalyze.value.t >= MAX_AGE;
    }

    method AnalyzeRetryBackoffActive(now: int) returns (active: bool)
      ensures active == BackingOff(props, now)
    {
      if props.failures == None { return false; }
      if props.failures.value < 1 { return false; }
      if props.lastAttempt == None { return false; }
      if props.lastAttempt.value == Garbled || props.lastAttempt.value.t > now { return false; }
      return now - props.lastAttempt.value.t < RetryDelay(props.failures.value);
    }

    method OptimizeAt(now: int, f: Faults) returns (ok: bool)
      modifies this
      ensures props == Refreshed(old(props), now, f) && ok == Outcome(f).Success?
      ensures ok ==> !IsPending(props) && FailCount(props) == 0
      ensures ok ==> props.lastAnalyze == Some(At(now)) && forall t :: now <= t < now + 86400 ==> !Due(props, t)
      ensures !ok ==> (IsPending(props) <==> IsPending(old(props)) || !f.mark || !f.recordFailure)
      ensures !ok && !f.recordFailure ==>
                && FailCount(props) == FailCount(old(props)) + 1
                && forall t :: now <= t < now + RetryDelay(FailCount(props)) ==> !Due(props, t)
    {
      var marked := MarkOptimizePending(f.mark);
      if !marked || f.analyze || f.recordSuccess {
        if !f.recordFailure {
          props := Props(Some("1"), props.lastAnalyze, Some(FailCount(props) + 1), Some(At(now)));
        }
        return false;
      }
      props := props.(lastAnalyze := Some(At(now)), pending := Some("0"), failures := Some(0));
      return true;
    }

    method OptimizeIfNeeded(now: int, f: Faults) returns (ran: bool)
      modifies this
      ensures ran == Starts(old(props), IfNeeded(now, f))
      ensures props == Next(old(props), IfNeeded(now, f))
      ensures BackingOff(old(props), now) ==> !ran && props == old(props)
    {
      if f.read { return false; }
      var due := OptimizeDue(now);
      if !due { return false; }
      var ok := OptimizeAt(now, f);
      return true;
    }
  }

  // ----- runs

  datatype Event = Mark(fails: bool) | Optimize(now: int, f: Faults) | IfNeeded(now: int, f: Faults)

  /** The event runs an analysis. */
  predicate Starts(p: Props, e: Event) {
    match e
    case Mark(_) => false
    case Optimize(_, _) => true
    case IfNeeded(now, f) => !f.read && Due(p, now)
  }

  function Next(p: Props, e: Event): Props {
    if Starts(p, e) then Refreshed(p, e.now, e.f)
    else if e.Mark? && !e.fails then Marked(p)
    else p
  }

  function Run(p: Props, es: seq<Event>): Props {
    if es == [] then p else Next(Run(p, es[..|es| - 1]), es[|es| - 1])
  }

  predicate RecordsSuccess(p: Props, e: Event) { Starts(p, e) && Outcome(e.f).Success? }

  predicate RecordsFailure(p: Props, e: Event) { Starts(p, e) && Outcome(e.f).FailureRecorded? }

  /** A pending mark is cleared only by a refresh recorded as successful after it. */
  lemma {:induction false} MarkOutlastsAllButSuccess(p: Props, es: seq<Event>)
    requires IsPending(p) && !IsPending(Run(p, es))
    ensures exists i :: 0 <= i < |es| && RecordsSuccess(Run(p, es[..i]), es[i])
  {
    if es != [] {
      var n := |es| - 1;
      if IsPending(Run(p, es[..n])) {
        assert RecordsSuccess(Run(p, es[..n]), es[n]);
      } else {
        MarkOutlastsAllButSuccess(p, es[..n]);
        var i :| 0 <= i < n && RecordsSuccess(Run(p, es[..n][..i]), es[..n][i]);
        assert es[..n][..i] == es[..i];
      }
    }
  }

  /** Recorded failures since the last recorded success. */
  function Streak(p: Props, es: seq<Event>): nat {
    if es == [] then 0
    else
      var n := |es| - 1;
      var s := Run(p, es[..n]);
      if RecordsSuccess(s, es[n]) then 0
      else Streak(p, es[..n]) + if RecordsFailure(s, es[n]) then 1 else 0
  }

  /** When the latest failure was recorded. */
  function LastFailure(p: Props, es: seq<Event>): int {
    if es == [] then 0
    else
      var n := |es| - 1;
      if RecordsFailure(Run(p, es[..n]), es[n]) then es[n].now else LastFailure(p, es[..n])
  }

  /** The properties carry the streak: its length, its last time, and, while it lasts, the pending mark. */
  lemma {:induction false} PropsCarryStreak(p: Props, es: seq<Event>)
    requires FailCount(p) == 0
    ensures FailCount(Run(p, es)) == Streak(p, es)
    ensures Streak(p, es) > 0 ==>
              && Run(p, es).lastAttempt == Some(At(LastFailure(p, es)))
              && IsPending(Run(p, es))
  {
    if es != [] {
      PropsCarryStreak(p, es[..|es| - 1]);
    }
  }

  /**
   After f consecutive recorded failures, the last at time a, a conditional refresh at a time not before a
   starts exactly from a plus the delay for f on.
   */
  lemma BackoffExact(p: Props, es: seq<Event>, now: int, f: Faults)
    requires FailCount(p) == 0 && Streak(p, es) > 0 && !f.read
    ensures now >= LastFailure(p, es) ==>
              (Starts(Run(p, es), IfNeeded(now, f)) <==> now >= LastFailure(p, es) + RetryDelay(Streak(p, es)))
    ensures now < LastFailure(p, es) ==> Starts(Run(p, es), IfNeeded(now, f))
  {
    PropsCarryStreak(p, es);
  }

  /** The clock never runs backwards over the run. */
  ghost predicate ClockOrdered(es: seq<Event>) {
    forall i, j :: 0 <= i < j < |es| && !es[i].Mark? && !es[j].Mark? ==> es[i].now <= es[j].now
  }

  lemma {:induction false} LastFailureHappened(p: Props, es: seq<Event>) returns (i: nat)
    requires Streak(p, es) > 0
    ensures i < |es| && !es[i].Mark? && es[i].now == LastFailure(p, es)
  {
    var n := |es| - 1;
    if RecordsFailure(Run(p, es[..n]), es[n]) {
      i := n;
    } else {
      i := LastFailureHappened(p, es[..n]);
    }
  }

  /** In a run on a clock that never runs backwards, no conditional refresh starts inside the backoff. */
  lemma NoStartInsideBackoff(p: Props, es: seq<Event>, i: nat)
    requires FailCount(p) == 0 && ClockOrdered(es) && i < |es| && es[i].IfNeeded?
    requires Streak(p, es[..i]) > 0 && Starts(Run(p, es[..i]), es[i])
    ensures es[i].now >= LastFailure(p, es[..i]) + RetryDelay(Streak(p, es[..i]))
  {
    var k := LastFailureHappened(p, es[..i]);
    assert es[..i][k] == es[k];
    BackoffExact(p, es[..i], es[i].now, es[i].f);
  }
}
