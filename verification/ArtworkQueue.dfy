/**
 The artwork queue: producers upsert rows, workers read due rows without locking and finish with a
 compare-and-set on `retry_at`. The statements are methods of `Queue`; the protocol they make up is a
 state machine over atomic steps with the snapshots workers hold.
 */
module ArtworkQueue {
  import opened Common

  const PRIMARY := "primary"
  const ENQUEUE_CHUNK := 100

  datatype Key = Key(kind: string, id: string, imageType: string)

  datatype Item = Item(priority: int, attempts: nat, retryAt: int, enqueuedAt: int)

  datatype Request = Request(kind: string, id: string, imageType: string, priority: int)

  type Table = map<Key, Item>

  function KeyFor(r: Request): Key {
    Key(r.kind, r.id, if r.imageType == "" then PRIMARY else r.imageType)
  }

  /** A request names the row of its kind and id, and of its image type or else the primary image. */
  lemma KeyForMeans(r: Request)
    ensures KeyFor(r).kind == r.kind && KeyFor(r).id == r.id
    ensures r.imageType != "" ==> KeyFor(r).imageType == r.imageType
    ensures r.imageType == "" ==> KeyFor(r).imageType == "primary"
  {}

  // ----- what each statement does to the table

  function Fresh(priority: int, now: int): Item { Item(priority, 0, now, now) }

  function Enqueued(t: Table, k: Key, priority: int, now: int): Table {
    t[k := Fresh(if k in t then Max(t[k].priority, priority) else priority, now)]
  }

  function Preserved(t: Table, k: Key, priority: int, now: int): Table {
    t[k := if k in t then t[k].(priority := Max(t[k].priority, priority)) else Fresh(priority, now)]
  }

  function InsertedIfAbsent(t: Table, k: Key, priority: int, now: int): Table {
    if k in t then t else t[k := Fresh(priority, now)]
  }

  predicate Matches(t: Table, k: Key, seen: int) { k in t && t[k].retryAt == seen }

  function MarkedFailed(t: Table, k: Key, seen: int, retryAt: int): Table {
    if Matches(t, k, seen) then t[k := t[k].(attempts := t[k].attempts + 1, retryAt := retryAt)] else t
  }

  function DeletedIf(t: Table, k: Key, seen: int): Table {
    if Matches(t, k, seen) then t - {k} else t
  }

  /** What an insert does about a row already queued: start it afresh, only raise its priority, or leave it. */
  datatype Conflict = Restart | KeepBackoff | Skip

  function Upserted(t: Table, how: Conflict, r: Request, now: int): Table {
    match how
    case Restart => Enqueued(t, KeyFor(r), r.priority, now)
    case KeepBackoff => Preserved(t, KeyFor(r), r.priority, now)
    case Skip => InsertedIfAbsent(t, KeyFor(r), r.priority, now)
  }

  function UpsertedAll(t: Table, how: Conflict, rs: seq<Request>, now: int): Table {
    if rs == [] then t
    else var n := |rs| - 1; Upserted(UpsertedAll(t, how, rs[..n], now), how, rs[n], now)
  }

  lemma UpsertedNext(t: Table, how: Conflict, rs: seq<Request>, i: nat, now: int)
    requires i < |rs|
    ensures UpsertedAll(t, how, rs[..i + 1], now) == Upserted(UpsertedAll(t, how, rs[..i], now), how, rs[i], now)
  {
    hide Upserted;
    assert rs[..i + 1][..i] == rs[..i];
  }

  // ----- the protocol

  /** What a worker remembers of a row: its key and the retry_at it saw. `version` names that write of the row. */
  datatype Snapshot = Snapshot(key: Key, seen: int, version: nat)

  /** `version` gives, per row, the step that last wrote its retry_at. */
  datatype State = State(table: Table, version: map<Key, nat>, snaps: set<Snapshot>, lastDequeue: int, steps: nat)

  datatype Event =
    | Enqueue(k: Key, priority: int, now: int)
    | EnqueuePreserving(k: Key, priority: int, now: int)
    | InsertMissing(k: Key, priority: int, now: int)
    | Dequeue(batch: set<Key>, now: int)
    | Fail(snap: Snapshot, retryAt: int)
    | Finish(snap: Snapshot)
    | Purge(doomed: set<Key>)

  /** The rows whose retry_at the event writes. */
  function Writes(s: State, e: Event): set<Key> {
    match e
    case Enqueue(k, _, _) => {k}
    case EnqueuePreserving(k, _, _) => if k in s.table then {} else {k}
    case InsertMissing(k, _, _) => if k in s.table then {} else {k}
    case Fail(snap, _) => if Matches(s.table, snap.key, snap.seen) then {snap.key} else {}
    case _ => {}
  }

  function TableAfter(t: Table, e: Event): Table {
    match e
    case Enqueue(k, p, now) => Enqueued(t, k, p, now)
    case EnqueuePreserving(k, p, now) => Preserved(t, k, p, now)
    case InsertMissing(k, p, now) => InsertedIfAbsent(t, k, p, now)
    case Dequeue(_, _) => t
    case Fail(snap, retryAt) => MarkedFailed(t, snap.key, snap.seen, retryAt)
    case Finish(snap) => DeletedIf(t, snap.key, snap.seen)
    case Purge(doomed) => t - doomed
  }

  /** The snapshots a dequeue takes: the version and retry_at of each row of the batch that is due. */
  function Taken(s: State, e: Event): set<Snapshot> {
    if e.Dequeue? then
      set k | k in e.batch && k in s.table && s.table[k].retryAt <= e.now && k in s.version
        :: Snapshot(k, s.table[k].retryAt, s.version[k])
    else {}
  }

  function Next(s: State, e: Event): State {
    State(TableAfter(s.table, e),
          map k | k in s.version.Keys + Writes(s, e) :: if k in Writes(s, e) then s.steps else s.version[k],
          s.snaps + Taken(s, e),
          if e.Dequeue? then Max(s.lastDequeue, e.now) else s.lastDequeue,
          s.steps + 1)
  }

  /** No worker has seen the row at that retry_at. */
  ghost predicate Unseen(s: State, k: Key, at: int) {
    forall p :: p in s.snaps && p.key == k ==> p.seen != at
  }

  /**
   What the protocol assumes: a retry_at written to a row is not one some worker has seen there, a failure's
   backoff does not lie before what the worker saw, and only a snapshot some worker took is completed.
   */
  ghost predicate Admissible(s: State, e: Event) {
    match e
    case Enqueue(k, _, now) => Unseen(s, k, now)
    case EnqueuePreserving(k, _, now) => k in s.table || Unseen(s, k, now)
    case InsertMissing(k, _, now) => k in s.table || Unseen(s, k, now)
    case Fail(p, retryAt) =>
      p in s.snaps && (Matches(s.table, p.key, p.seen) ==> retryAt >= p.seen && Unseen(s, p.key, retryAt))
    case Finish(p) => p in s.snaps
    case _ => true
  }

  /** The clock reading an enqueue writes, or the retry time a failure does, lies after every earlier dequeue. */
  ghost predicate ClockAhead(s: State, e: Event) {
    match e
    case Enqueue(_, _, now) => now > s.lastDequeue
    case EnqueuePreserving(_, _, now) => now > s.lastDequeue
    case InsertMissing(_, _, now) => now > s.lastDequeue
    case Fail(p, retryAt) => p in s.snaps && retryAt > s.lastDequeue
    case Finish(p) => p in s.snaps
    case _ => true
  }

  function Run(s: State, es: seq<Event>): State {
    if es == [] then s else Next(Run(s, es[..|es| - 1]), es[|es| - 1])
  }

  ghost predicate AdmissibleRun(s: State, es: seq<Event>) {
    forall i :: 0 <= i < |es| ==> Admissible(Run(s, es[..i]), es[i])
  }

  function StepFor(how: Conflict, r: Request, now: int): Event {
    match how
    case Restart => Enqueue(KeyFor(r), r.priority, now)
    case KeepBackoff => EnqueuePreserving(KeyFor(r), r.priority, now)
    case Skip => InsertMissing(KeyFor(r), r.priority, now)
  }

  /** The steps of one call that queues several requests under one clock reading. */
  function Steps(how: Conflict, rs: seq<Request>, now: int): seq<Event> {
    if rs == [] then [] else Steps(how, rs[..|rs| - 1], now) + [StepFor(how, rs[|rs| - 1], now)]
  }

  lemma StepUpserts(s: State, how: Conflict, r: Request, now: int)
    ensures var t := Next(s, StepFor(how, r, now));
            t.table == Upserted(s.table, how, r, now) && t.snaps == s.snaps
    ensures Unseen(s, KeyFor(r), now) ==> Admissible(s, StepFor(how, r, now))
  {}

  lemma RunSnoc(s: State, es: seq<Event>, e: Event)
    ensures Run(s, es + [e]) == Next(Run(s, es), e)
    ensures AdmissibleRun(s, es) && Admissible(Run(s, es), e) ==> AdmissibleRun(s, es + [e])
  {
    hide Next;
    hide Admissible;
    var all := es + [e];
    assert all[..|es|] == es;
    forall i | 0 <= i < |es| ensures all[..i] == es[..i] {}
  }

  /** No worker saw the call's clock reading at any of its rows. */
  ghost predicate AllUnseen(s: State, rs: seq<Request>, now: int) {
    forall r :: r in rs ==> Unseen(s, KeyFor(r), now)
  }

  lemma StepsNext(how: Conflict, rs: seq<Request>, now: int)
    requires rs != []
    ensures Steps(how, rs, now) == Steps(how, rs[..|rs| - 1], now) + [StepFor(how, rs[|rs| - 1], now)]
  {}

  lemma NoSteps(s: State, how: Conflict, now: int)
    ensures Run(s, Steps(how, [], now)) == s && AdmissibleRun(s, Steps(how, [], now))
  {}

  lemma UnseenStays(s: State, t: State, rs: seq<Request>, now: int)
    requires t.snaps == s.snaps && rs != [] && AllUnseen(s, rs, now)
    ensures AllUnseen(s, rs[..|rs| - 1], now) && Unseen(t, KeyFor(rs[|rs| - 1]), now)
  {
    var n := |rs| - 1;
    assert forall r :: r in rs[..n] ==> r in rs;
    assert rs[n] in rs;
  }

  /** A call that queues several requests is a run of the protocol, allowed if no worker saw its clock reading. */
  lemma {:induction false} CallIsRun(s: State, how: Conflict, rs: seq<Request>, now: int)
    ensures Run(s, Steps(how, rs, now)).table == UpsertedAll(s.table, how, rs, now)
    ensures Run(s, Steps(how, rs, now)).snaps == s.snaps
    ensures AllUnseen(s, rs, now) ==> AdmissibleRun(s, Steps(how, rs, now))
  {
    hide Run;
    hide AdmissibleRun;
    hide Steps;
    hide Next;
    hide Admissible;
    hide Upserted;
    hide StepFor;
    hide AllUnseen;
    hide Unseen;
    if rs == [] {
      NoSteps(s, how, now);
    } else {
      var n := |rs| - 1;
      var init := Steps(how, rs[..n], now);
      var mid := Run(s, init);
      CallIsRun(s, how, rs[..n], now);
      StepsNext(how, rs, now);
      StepUpserts(mid, how, rs[n], now);
      RunSnoc(s, init, StepFor(how, rs[n], now));
      if AllUnseen(s, rs, now) { UnseenStays(s, mid, rs, now); }
    }
  }

  const EMPTY := State(map[], map[], {}, 0, 0)

  /** A snapshoafters retry_at matches the row exactly when it is a snapshot of the row's latest write. */
  ghost predicate Inv(s: State) {
    && (forall k :: k in s.table ==> k in s.version && s.version[k] < s.steps)
    && (forall k :: k in s.table ==> s.table[k].enqueuedAt <= s.table[k].retryAt)
    && (forall p :: p in s.snaps ==> p.seen <= s.lastDequeue && p.version < s.steps)
    && (forall p :: p in s.snaps && p.key in s.table ==>
          (Matches(s.table, p.key, p.seen) <==> s.version[p.key] == p.version))
  }

  lemma EmptyInv()
    ensures Inv(EMPTY)
  {}

  /** A clock that is ahead of every earlier dequeue gives what the protocol assumes. */
  lemma ClockAheadSuffices(s: State, e: Event)
    requires Inv(s) && ClockAhead(s, e)
    ensures Admissible(s, e)
  {}

  lemma StepKeepsInv(s: State, e: Event)
    requires Inv(s) && Admissible(s, e)
    ensures Inv(Next(s, e))
  {
    var t := Next(s, e);
    forall p | p in t.snaps && p.key in t.table
      ensures Matches(t.table, p.key, p.seen) <==> t.version[p.key] == p.version
    {
      if p in Taken(s, e) {
        assert t.table == s.table;
      } else {
        assert p in s.snaps;
        if p.key !in Writes(s, e) {
          assert t.table[p.key].retryAt == s.table[p.key].retryAt;
        }
      }
    }
  }

  lemma {:induction false} RunKeepsInv(s: State, es: seq<Event>)
    requires Inv(s) && AdmissibleRun(s, es)
    ensures Inv(Run(s, es))
  {
    if es != [] {
      var n := |es| - 1;
      PrefixAdmissible(s, es, n);
      RunKeepsInv(s, es[..n]);
      StepKeepsInv(Run(s, es[..n]), es[n]);
    }
  }

  lemma PrefixAdmissible(s: State, es: seq<Event>, n: nat)
    requires n <= |es| && AdmissibleRun(s, es)
    ensures AdmissibleRun(s, es[..n])
  {
    forall i | 0 <= i < n ensures Admissible(Run(s, es[..n][..i]), es[..n][i]) {
      assert es[..n][..i] == es[..i];
    }
  }

  // ----- versions

  /** The row was written since the snapshoafters version of it, or is gone. */
  ghost predicate Outdated(s: State, p: Snapshot) {
    p.key !in s.table || (p.key in s.version && s.version[p.key] != p.version)
  }

  /** A completion takes effect exactly when its snapshot is of the row's latest write. */
  lemma CompletionEffect(s: State, p: Snapshot, retryAt: int)
    requires Inv(s) && p in s.snaps
    ensures DeletedIf(s.table, p.key, p.seen) == if Outdated(s, p) then s.table else s.table - {p.key}
    ensures MarkedFailed(s.table, p.key, p.seen, retryAt) ==
            if Outdated(s, p) then s.table
            else s.table[p.key := s.table[p.key].(attempts := s.table[p.key].attempts + 1, retryAt := retryAt)]
  {}

  // ----- what a worker saw

  /** Once a row is not, or no longer, at the retry_at a worker saw, it never is again. */
  lemma {:induction false} SeenNeverReturns(s: State, es: seq<Event>, p: Snapshot)
    requires AdmissibleRun(s, es) && p in s.snaps && !Matches(s.table, p.key, p.seen)
    ensures !Matches(Run(s, es).table, p.key, p.seen) && p in Run(s, es).snaps
  {
    if es != [] {
      var n := |es| - 1;
      PrefixAdmissible(s, es, n);
      SeenNeverReturns(s, es[..n], p);
      SeenStep(Run(s, es[..n]), es[n], p);
    }
  }

  lemma SeenStep(s: State, e: Event, p: Snapshot)
    requires Admissible(s, e) && p in s.snaps && !Matches(s.table, p.key, p.seen)
    ensures !Matches(Next(s, e).table, p.key, p.seen) && p in Next(s, e).snaps
  {}

  /** The completion `e` of a snapshot takes effect in `s`. */
  ghost predicate Effective(s: State, e: Event) {
    (e.Fail? || e.Finish?) && Matches(s.table, e.snap.key, e.snap.seen)
  }

  lemma EffectiveConsumes(s: State, e: Event)
    requires Admissible(s, e) && Effective(s, e)
    ensures !Matches(Next(s, e).table, e.snap.key, e.snap.seen) && e.snap in Next(s, e).snaps
  {}

  /**
   Each dequeued version of a row, its key and retry_at, is consumed by at most one completion, however many
   workers hold it and whatever happens in between: every later one of them leaves the table alone.
   */
  lemma ConsumedOnce(s: State, e: Event, es: seq<Event>, late: Event)
    requires Admissible(s, e) && Effective(s, e) && AdmissibleRun(Next(s, e), es)
    requires (late.Fail? || late.Finish?) && late.snap.key == e.snap.key && late.snap.seen == e.snap.seen
    ensures Next(Run(Next(s, e), es), late).table == Run(Next(s, e), es).table
  {
    EffectiveConsumes(s, e);
    SeenNeverReturns(Next(s, e), es, e.snap);
  }

  /** The event completes a snapshot of `k` held in `s`. */
  ghost predicate CompletesOld(s: State, e: Event, k: Key) {
    (e.Fail? || e.Finish?) && e.snap in s.snaps && e.snap.key == k
  }

  /** Whatever follows, completing a snapshot of `k` that is held in `s` leaves the table as it is. */
  ghost predicate OldWorkHarmless(s: State, t: State, k: Key) {
    forall es: seq<Event>, late: Event :: AdmissibleRun(t, es) && CompletesOld(s, late, k)
      ==> Next(Run(t, es), late).table == Run(t, es).table
  }

  lemma EarlierSnapshotCannotTouch(s: State, k: Key, priority: int, now: int, es: seq<Event>, late: Event)
    requires Unseen(s, k, now) && AdmissibleRun(Next(s, Enqueue(k, priority, now)), es)
    requires CompletesOld(s, late, k)
    ensures var u := Run(Next(s, Enqueue(k, priority, now)), es); Next(u, late).table == u.table
  {
    SeenNeverReturns(Next(s, Enqueue(k, priority, now)), es, late.snap);
  }

  /**
   From every state, a fresh request is safe from all work begun before it, over every run that follows,
   exactly when no worker holds a snapshot of the row at the requesafters own clock reading.
   */
  lemma RequestSafeExactly(s: State, k: Key, priority: int, now: int)
    ensures OldWorkHarmless(s, Next(s, Enqueue(k, priority, now)), k) <==> Unseen(s, k, now)
  {
    var t := Next(s, Enqueue(k, priority, now));
    if Unseen(s, k, now) {
      forall es: seq<Event>, late: Event | AdmissibleRun(t, es) && CompletesOld(s, late, k)
        ensures Next(Run(t, es), late).table == Run(t, es).table
      {
        EarlierSnapshotCannotTouch(s, k, priority, now, es, late);
      }
    } else {
      var p :| p in s.snaps && p.key == k && p.seen == now;
      assert AdmissibleRun(t, []) && Run(t, []) == t;
      assert CompletesOld(s, Finish(p), k) && k in t.table && k !in Next(t, Finish(p)).table;
    }
  }

  /** Every completion of `k` in the run is of a snapshot from `held`, and no purge names `k`. */
  ghost predicate OnlyOldWork(es: seq<Event>, k: Key, held: set<Snapshot>) {
    forall e :: e in es ==>
      && ((e.Fail? || e.Finish?) && e.snap.key == k ==> e.snap in held)
      && (e.Purge? ==> k !in e.doomed)
  }

  /** A requested row nothing has been done about yet. */
  ghost predicate Waiting(t: Table, k: Key, priority: int) {
    k in t && t[k].attempts == 0 && t[k].retryAt == t[k].enqueuedAt && t[k].priority >= priority
  }

  lemma WaitingStep(t: Table, e: Event, k: Key, priority: int)
    requires Waiting(t, k, priority)
    requires (e.Fail? || e.Finish?) && e.snap.key == k ==> TableAfter(t, e) == t
    requires e.Purge? ==> k !in e.doomed
    ensures Waiting(TableAfter(t, e), k, priority)
  {}

  /**
   The requested row stays, not backed off and due from its latest request on, until a completion whose
   snapshot was taken after the request, or a purge.
   */
  lemma {:induction false} RequestSurvives(s: State, k: Key, priority: int, now: int, es: seq<Event>)
    requires Unseen(s, k, now)
    requires AdmissibleRun(Next(s, Enqueue(k, priority, now)), es) && OnlyOldWork(es, k, s.snaps)
    ensures Waiting(Run(Next(s, Enqueue(k, priority, now)), es).table, k, priority)
  {
    if es != [] {
      var n, t := |es| - 1, Next(s, Enqueue(k, priority, now));
      PrefixAdmissible(t, es, n);
      assert forall e :: e in es[..n] ==> e in es;
      RequestSurvives(s, k, priority, now, es[..n]);
      assert es[n] in es;
      if (es[n].Fail? || es[n].Finish?) && es[n].snap.key == k {
        EarlierSnapshotCannotTouch(s, k, priority, now, es[..n], es[n]);
      }
      WaitingStep(Run(t, es[..n]).table, es[n], k, priority);
    }
  }

  /** A worker can hold such a snapshot: one that takes the row at the very instant it was queued. */
  lemma SameInstantLosesRequest(k: Key, priority: int, now: int)
    ensures var s := Run(EMPTY, [Enqueue(k, priority, now), Dequeue({k}, now)]);
            var p := Snapshot(k, now, 0);
            && AdmissibleRun(EMPTY, [Enqueue(k, priority, now), Dequeue({k}, now)])
            && p in s.snaps && k !in Next(Next(s, Enqueue(k, priority, now)), Finish(p)).table
  {
    var e, d := Enqueue(k, priority, now), Dequeue({k}, now);
    RunSnoc(EMPTY, [], e);
    RunSnoc(EMPTY, [e], d);
    assert [] + [e] == [e] && [e] + [d] == [e, d];
    SnapshotTaken(k, priority, now);
    RemovedByFinish(Run(EMPTY, [e, d]), Snapshot(k, now, 0), priority);
  }

  lemma SnapshotTaken(k: Key, priority: int, now: int)
    ensures Snapshot(k, now, 0) in Next(Next(EMPTY, Enqueue(k, priority, now)), Dequeue({k}, now)).snaps
  {
    var s := Next(EMPTY, Enqueue(k, priority, now));
    assert Snapshot(k, now, 0) in Taken(s, Dequeue({k}, now));
  }

  lemma RemovedByFinish(s: State, p: Snapshot, priority: int)
    ensures p.key !in Next(Next(s, Enqueue(p.key, priority, p.seen)), Finish(p)).table
  {}

  // ----- what a living row keeps

  /** The row is there after every prefix of the run. */
  ghost predicate Lives(s: State, es: seq<Event>, k: Key) {
    forall i :: 0 <= i <= |es| ==> k in Run(s, es[..i]).table
  }

  lemma PrefixLives(s: State, es: seq<Event>, n: nat, k: Key)
    requires n <= |es| && Lives(s, es, k)
    ensures Lives(s, es[..n], k)
  {
    forall i | 0 <= i <= n ensures k in Run(s, es[..n][..i]).table {
      assert es[..n][..i] == es[..i];
    }
  }

  /** Priority never falls while the row lives. */
  lemma {:induction false} PriorityNeverFalls(s: State, es: seq<Event>, k: Key)
    requires k in s.table && Lives(s, es, k)
    ensures k in Run(s, es).table && Run(s, es).table[k].priority >= s.table[k].priority
  {
    assert es[..|es|] == es;
    if es != [] {
      var n := |es| - 1;
      PrefixLives(s, es, n, k);
      PriorityNeverFalls(s, es[..n], k);
    }
  }

  /** How many failures of `k` took effect during the run. */
  ghost function EffectiveFailures(s: State, es: seq<Event>, k: Key): nat {
    if es == [] then 0
    else
      var n := |es| - 1;
      EffectiveFailures(s, es[..n], k) +
      if es[n].Fail? && es[n].snap.key == k && Effective(Run(s, es[..n]), es[n]) then 1 else 0
  }

  lemma AttemptsStep(t: Table, e: Event, k: Key)
    requires k in t && k in TableAfter(t, e) && !(e.Enqueue? && e.k == k)
    ensures TableAfter(t, e)[k].enqueuedAt == t[k].enqueuedAt
    ensures !(e.Fail? && e.snap.key == k && Matches(t, k, e.snap.seen)) ==> TableAfter(t, e)[k].retryAt == t[k].retryAt
    ensures TableAfter(t, e)[k].attempts ==
            t[k].attempts + if e.Fail? && e.snap.key == k && Matches(t, k, e.snap.seen) then 1 else 0
  {}

  /**
   Between fresh requests a living row's attempts grow by exactly the failures that took effect, and
   nothing but such a failure moves its retry_at: a preserving enqueue never resets a backoff.
   */
  lemma {:induction false} AttemptsCountFailures(s: State, es: seq<Event>, k: Key)
    requires k in s.table && Lives(s, es, k)
    requires forall e :: e in es ==> !(e.Enqueue? && e.k == k)
    ensures k in Run(s, es).table
    ensures Run(s, es).table[k].attempts == s.table[k].attempts + EffectiveFailures(s, es, k)
    ensures Run(s, es).table[k].enqueuedAt == s.table[k].enqueuedAt
    ensures EffectiveFailures(s, es, k) == 0 ==> Run(s, es).table[k].retryAt == s.table[k].retryAt
  {
    assert es[..|es|] == es;
    if es != [] {
      var n := |es| - 1;
      PrefixLives(s, es, n, k);
      assert forall e :: e in es[..n] ==> e in es;
      AttemptsCountFailures(s, es[..n], k);
      assert es[n] in es;
      AttemptsStep(Run(s, es[..n]).table, es[n], k);
    }
  }

  /** The event starts the row's life, or starts it afresh: it writes enqueued_at. */
  predicate StartsRow(t: Table, e: Event, k: Key) {
    match e
    case Enqueue(j, _, _) => j == k
    case EnqueuePreserving(j, _, _) => j == k && k !in t
    case InsertMissing(j, _, _) => j == k && k !in t
    case _ => false
  }

  /** Step `j` of the run from the empty queue is a failure of `k` that takes effect. */
  ghost predicate FailsAt(es: seq<Event>, j: nat, k: Key)
    requires j < |es|
  {
    es[j].Fail? && es[j].snap.key == k && Effective(Run(EMPTY, es[..j]), es[j])
  }

  ghost predicate StartsAt(es: seq<Event>, j: nat, k: Key)
    requires j < |es|
  {
    StartsRow(Run(EMPTY, es[..j]).table, es[j], k)
  }

  ghost function FailuresAfter(es: seq<Event>, i: nat, k: Key): set<nat> {
    set j | i < j < |es| && FailsAt(es, j, k)
  }

  lemma RowStep(t: Table, e: Event, k: Key)
    requires k in TableAfter(t, e)
    ensures StartsRow(t, e, k) ==> TableAfter(t, e)[k].attempts == 0 && TableAfter(t, e)[k].enqueuedAt == e.now
    ensures !StartsRow(t, e, k) ==>
              && k in t && TableAfter(t, e)[k].enqueuedAt == t[k].enqueuedAt
              && TableAfter(t, e)[k].attempts ==
                 t[k].attempts + if e.Fail? && e.snap.key == k && Matches(t, k, e.snap.seen) then 1 else 0
  {}

  lemma FailuresStep(es: seq<Event>, n: nat, i: nat, k: Key)
    requires es != [] && n == |es| - 1 && i < n
    ensures |FailuresAfter(es, i, k)| == |FailuresAfter(es[..n], i, k)| + if FailsAt(es, n, k) then 1 else 0
  {
    forall j | 0 <= j < n ensures FailsAt(es[..n], j, k) <==> FailsAt(es, j, k) {
      assert es[..n][..j] == es[..j];
    }
    var before, after := FailuresAfter(es[..n], i, k), FailuresAfter(es, i, k);
    assert after == if FailsAt(es, n, k) then before + {n} else before;
  }

  /**
   In every run from the empty queue, a row's attempts are the failures that took effect since the step that
   last wrote its enqueued_at, whichever way that step queued it.
   */
  lemma {:induction false} AttemptsSinceStart(es: seq<Event>, k: Key) returns (i: nat)
    requires k in Run(EMPTY, es).table
    ensures i < |es| && StartsAt(es, i, k) && forall j :: i < j < |es| ==> !StartsAt(es, j, k)
    ensures Run(EMPTY, es).table[k].attempts == |FailuresAfter(es, i, k)|
    ensures Run(EMPTY, es).table[k].enqueuedAt == es[i].now
  {
    hide Next;
    hide Effective;
    assert es != [];
    var n := |es| - 1;
    var t := Run(EMPTY, es[..n]).table;
    NextTable(Run(EMPTY, es[..n]), es[n]);
    RowStep(t, es[n], k);
    hide StartsRow;
    if StartsAt(es, n, k) {
      i := n;
      assert FailuresAfter(es, i, k) == {};
    } else {
      i := AttemptsSinceStart(es[..n], k);
      forall j | 0 <= j < n ensures StartsAt(es[..n], j, k) <==> StartsAt(es, j, k) {
        assert es[..n][..j] == es[..j];
      }
      FailuresStep(es, n, i, k);
      FailsMeans(es, n, k);
    }
  }

  lemma NextTable(s: State, e: Event)
    ensures Next(s, e).table == TableAfter(s.table, e)
  {}

  lemma FailsMeans(es: seq<Event>, n: nat, k: Key)
    requires n < |es|
    ensures FailsAt(es, n, k) <==>
            es[n].Fail? && es[n].snap.key == k && Matches(Run(EMPTY, es[..n]).table, k, es[n].snap.seen)
  {}

  /** In every admissible run from the empty queue no row's retry comes before its request. */
  lemma RetryAfterRequest(es: seq<Event>, k: Key)
    requires AdmissibleRun(EMPTY, es) && k in Run(EMPTY, es).table
    ensures Run(EMPTY, es).table[k].enqueuedAt <= Run(EMPTY, es).table[k].retryAt
  {
    EmptyInv();
    RunKeepsInv(EMPTY, es);
  }

  /** A batch of due rows is a dequeue of the protocol that takes one snapshot of each of them. */
  lemma BatchIsDequeue(s: State, batch: set<Key>, now: int)
    requires Inv(s) && forall k :: k in batch ==> k in s.table && s.table[k].retryAt <= now
    ensures Admissible(s, Dequeue(batch, now)) && Next(s, Dequeue(batch, now)).table == s.table
    ensures forall p :: p in Next(s, Dequeue(batch, now)).snaps <==>
              p in s.snaps || (p.key in batch && p.seen == s.table[p.key].retryAt && p.version == s.version[p.key])
  {
    forall p: Snapshot | p.key in batch && p.seen == s.table[p.key].retryAt && p.version == s.version[p.key]
      ensures p in Taken(s, Dequeue(batch, now))
    {
      assert p == Snapshot(p.key, s.table[p.key].retryAt, s.version[p.key]);
    }
  }

  // ----- the statements

  /** Row order of a drain: higher priority first, then the longest queued. */
  predicate Before(t: Table, a: Key, b: Key) {
    && a in t && b in t
    && (t[a].priority > t[b].priority || (t[a].priority == t[b].priority && t[a].enqueuedAt < t[b].enqueuedAt))
  }

  predicate Due(t: Table, k: Key, now: int, kinds: seq<string>) {
    k in t && t[k].retryAt <= now && (kinds == [] || k.kind in kinds)
  }

  /** The row may be retried by now and is of a kind asked for. */
  ghost predicate Wanted(t: Table, k: Key, now: int, kinds: seq<string>) {
    k in t && t[k].retryAt <= now && (kinds == [] || k.kind in kinds)
  }

  /** Row `a` has the larger priority, or the same one and was queued no later. */
  ghost predicate NotAfter(t: Table, a: Key, b: Key) {
    && a in t && b in t
    && (t[a].priority > t[b].priority || (t[a].priority == t[b].priority && t[a].enqueuedAt <= t[b].enqueuedAt))
  }

  lemma {:induction false} FirstExists(t: Table, ks: set<Key>) returns (first: Key)
    requires ks != {} && ks <= t.Keys
    ensures first in ks && forall k :: k in ks ==> !Before(t, k, first)
  {
    first :| first in ks;
    if ks != {first} {
      var others := ks - {first};
      var rest := FirstExists(t, others);
      assert forall k :: k in ks ==> k == first || k in others;
      if !Before(t, first, rest) { first := rest; }
    }
  }

  ghost predicate Asked(rs: seq<Request>, k: Key) { exists r :: r in rs && KeyFor(r) == k }

  /** `p` is the largest of the row's old priority, if it was there, and those requested for it. */
  ghost predicate IsLargest(p: int, t: Table, rs: seq<Request>, k: Key) {
    && (forall r :: r in rs && KeyFor(r) == k ==> r.priority <= p)
    && (k in t ==> t[k].priority <= p)
    && ((k in t && p == t[k].priority) || exists r :: r in rs && KeyFor(r) == k && p == r.priority)
  }

  ghost predicate SameRow(t: Table, after: Table, k: Key) {
    (k in after <==> k in t) && (k in t ==> after[k] == t[k])
  }

  /** The row is queued afresh under the largest priority. */
  ghost predicate Restarted(t: Table, after: Table, rs: seq<Request>, now: int, k: Key) {
    k in after && IsLargest(after[k].priority, t, rs, k) && after[k] == Item(after[k].priority, 0, now, now)
  }

  /** The row has the largest priority, and is otherwise as it was if it was there. */
  ghost predicate Raised(t: Table, after: Table, rs: seq<Request>, now: int, k: Key) {
    && k in after && IsLargest(after[k].priority, t, rs, k)
    && after[k] == if k in t then t[k].(priority := after[k].priority) else Item(after[k].priority, 0, now, now)
  }

  lemma LargestStep(p: int, t: Table, rs: seq<Request>, k: Key)
    requires rs != [] && KeyFor(rs[|rs| - 1]) == k
    requires IsLargest(p, t, rs[..|rs| - 1], k) || (k !in t && !Asked(rs[..|rs| - 1], k) && p <= rs[|rs| - 1].priority)
    ensures IsLargest(Max(p, rs[|rs| - 1].priority), t, rs, k)
  {
    var n := |rs| - 1;
    assert forall r :: r in rs <==> r in rs[..n] || r == rs[n];
  }

  /** What a call leaves of a row, however often the row is asked for in it. */
  ghost predicate RowAfter(t: Table, after: Table, how: Conflict, rs: seq<Request>, now: int, k: Key) {
    if !Asked(rs, k) then SameRow(t, after, k)
    else if how.Restart? then Restarted(t, after, rs, now, k)
    else Raised(t, after, rs, now, k)
  }

  lemma AskedStep(t: Table, u: Table, how: Conflict, rs: seq<Request>, now: int, k: Key)
    requires !how.Skip? && rs != [] && KeyFor(rs[|rs| - 1]) == k && RowAfter(t, u, how, rs[..|rs| - 1], now, k)
    ensures RowAfter(t, Upserted(u, how, rs[|rs| - 1], now), how, rs, now, k)
  {
    hide IsLargest;
    var n := |rs| - 1;
    if !Asked(rs[..n], k) && k in t { OldIsLargest(t, rs[..n], k); }
    LargestStep(if k in u then u[k].priority else rs[n].priority, t, rs, k);
    assert rs[n] in rs;
  }

  lemma OtherStep(t: Table, u: Table, how: Conflict, rs: seq<Request>, now: int, k: Key)
    requires !how.Skip? && rs != [] && KeyFor(rs[|rs| - 1]) != k && RowAfter(t, u, how, rs[..|rs| - 1], now, k)
    ensures RowAfter(t, Upserted(u, how, rs[|rs| - 1], now), how, rs, now, k)
  {
    hide IsLargest;
    var n := |rs| - 1;
    assert forall r :: r in rs <==> r in rs[..n] || r == rs[n];
    if k in u { LargestElsewhere(u[k].priority, t, rs, k); }
  }

  lemma {:induction false} UpsertedRow(t: Table, how: Conflict, rs: seq<Request>, now: int, k: Key)
    requires !how.Skip?
    ensures RowAfter(t, UpsertedAll(t, how, rs, now), how, rs, now, k)
  {
    if rs != [] {
      hide RowAfter;
      var n := |rs| - 1;
      UpsertedRow(t, how, rs[..n], now, k);
      var u := UpsertedAll(t, how, rs[..n], now);
      if KeyFor(rs[n]) == k { AskedStep(t, u, how, rs, now, k); } else { OtherStep(t, u, how, rs, now, k); }
    }
  }

  lemma OldIsLargest(t: Table, rs: seq<Request>, k: Key)
    requires k in t && !Asked(rs, k)
    ensures IsLargest(t[k].priority, t, rs, k)
  {}

  lemma LargestElsewhere(p: int, t: Table, rs: seq<Request>, k: Key)
    requires rs != [] && KeyFor(rs[|rs| - 1]) != k
    ensures IsLargest(p, t, rs[..|rs| - 1], k) <==> IsLargest(p, t, rs, k)
  {
    var n := |rs| - 1;
    assert forall r :: r in rs <==> r in rs[..n] || r == rs[n];
  }

  /** The row is queued as the first of its requests has it. */
  ghost predicate AddedFresh(after: Table, rs: seq<Request>, now: int, k: Key) {
    exists i :: 0 <= i < |rs| && KeyFor(rs[i]) == k && (forall j :: 0 <= j < i ==> KeyFor(rs[j]) != k)
      && k in after && after[k] == Item(rs[i].priority, 0, now, now)
  }

  lemma StillAdded(u: Table, next: Table, rs: seq<Request>, now: int, k: Key)
    requires rs != [] && AddedFresh(u, rs[..|rs| - 1], now, k) && SameRow(u, next, k)
    ensures AddedFresh(next, rs, now, k)
  {
    var n := |rs| - 1;
    var i :| 0 <= i < n && KeyFor(rs[..n][i]) == k && (forall j :: 0 <= j < i ==> KeyFor(rs[..n][j]) != k)
             && k in u && u[k] == Item(rs[..n][i].priority, 0, now, now);
    assert forall j :: 0 <= j < n ==> rs[..n][j] == rs[j];
    assert KeyFor(rs[i]) == k;
  }

  lemma AddedNow(next: Table, rs: seq<Request>, now: int, k: Key)
    requires rs != [] && !Asked(rs[..|rs| - 1], k) && KeyFor(rs[|rs| - 1]) == k
    requires k in next && next[k] == Item(rs[|rs| - 1].priority, 0, now, now)
    ensures AddedFresh(next, rs, now, k)
  {
    var n := |rs| - 1;
    assert forall j :: 0 <= j < n ==> rs[j] in rs[..n];
    assert KeyFor(rs[n]) == k;
  }

  /** Requeueing what may already be queued changes no row that is, and adds the others. */
  lemma {:induction false} SkipKeeps(t: Table, rs: seq<Request>, now: int, k: Key)
    ensures k in t || !Asked(rs, k) ==> SameRow(t, UpsertedAll(t, Skip, rs, now), k)
    ensures k !in t && Asked(rs, k) ==> AddedFresh(UpsertedAll(t, Skip, rs, now), rs, now, k)
  {
    hide AddedFresh;
    if rs != [] {
      var n := |rs| - 1;
      var u, next := UpsertedAll(t, Skip, rs[..n], now), UpsertedAll(t, Skip, rs, now);
      SkipKeeps(t, rs[..n], now, k);
      assert Asked(rs, k) <==> Asked(rs[..n], k) || KeyFor(rs[n]) == k by {
        assert forall r :: r in rs <==> r in rs[..n] || r == rs[n];
      }
      hide Asked;
      if k !in t && Asked(rs[..n], k) {
        AddedIsThere(u, rs[..n], now, k);
        StillAdded(u, next, rs, now, k);
      } else if k !in t && KeyFor(rs[n]) == k {
        AddedNow(next, rs, now, k);
      }
    }
  }

  lemma AddedIsThere(after: Table, rs: seq<Request>, now: int, k: Key)
    requires AddedFresh(after, rs, now, k)
    ensures k in after
  {}

  class Queue {
    var table: Table

    constructor ()
      ensures table == map[]
    {
      table := map[];
    }

    /** Inserts every request under one clock reading, 100 rows to a statement. */
    method Upsert(how: Conflict, items: seq<Request>, now: int)
      modifies this
      ensures table == UpsertedAll(old(table), how, items, now)
    {
      hide Upserted;
      assert items[..0] == [];
      var done := 0;
      while done < |items|
        invariant done <= |items| && table == UpsertedAll(old(table), how, items[..done], now)
      {
        var end := Min(done + ENQUEUE_CHUNK, |items|);
        for i := done to end
          invariant table == UpsertedAll(old(table), how, items[..i], now)
        {
          UpsertedNext(old(table), how, items, i, now);
          hide UpsertedAll;
          table := Upserted(table, how, items[i], now);
        }
        done := end;
      }
      assert items[..|items|] == items;
    }

    method Enqueue(items: seq<Request>, now: int)
      modifies this
      ensures table == UpsertedAll(old(table), Restart, items, now)
      ensures forall k :: Asked(items, k) ==> Restarted(old(table), table, items, now, k)
      ensures forall k :: !Asked(items, k) ==> SameRow(old(table), table, k)
    {
      Upsert(Restart, items, now);
      hide Asked;
      hide Restarted;
      hide SameRow;
      forall k
        ensures Asked(items, k) ==> Restarted(old(table), table, items, now, k)
        ensures !Asked(items, k) ==> SameRow(old(table), table, k)
      {
        UpsertedRow(old(table), Restart, items, now, k);
      }
    }

    method EnqueuePreservingBackoff(items: seq<Request>, now: int)
      modifies this
      ensures table == UpsertedAll(old(table), KeepBackoff, items, now)
      ensures forall k :: Asked(items, k) ==> Raised(old(table), table, items, now, k)
      ensures forall k :: !Asked(items, k) ==> SameRow(old(table), table, k)
    {
      Upsert(KeepBackoff, items, now);
      hide Asked;
      hide Raised;
      hide SameRow;
      forall k
        ensures Asked(items, k) ==> Raised(old(table), table, items, now, k)
        ensures !Asked(items, k) ==> SameRow(old(table), table, k)
      {
        UpsertedRow(old(table), KeepBackoff, items, now, k);
      }
    }

    /** `items` are the rows the caller's query selects. */
    method InsertIfNotQueued(items: seq<Request>, now: int)
      modifies this
      ensures table == UpsertedAll(old(table), Skip, items, now)
      ensures forall k :: k in old(table) || !Asked(items, k) ==> SameRow(old(table), table, k)
      ensures forall k :: k !in old(table) && Asked(items, k) ==> AddedFresh(table, items, now, k)
    {
      Upsert(Skip, items, now);
      hide Asked;
      hide AddedFresh;
      hide SameRow;
      forall k
        ensures k in old(table) || !Asked(items, k) ==> SameRow(old(table), table, k)
        ensures k !in old(table) && Asked(items, k) ==> AddedFresh(table, items, now, k)
      {
        SkipKeeps(old(table), items, now, k);
      }
    }

    /** The `n` due rows that come first, in drain order. */
    method DequeueBatch(n: nat, kinds: seq<string>, now: int) returns (batch: seq<Key>)
      ensures |batch| <= n
      ensures forall k :: k in batch ==> Wanted(table, k, now, kinds)
      ensures forall i, j :: 0 <= i < j < |batch| ==> batch[i] != batch[j] && NotAfter(table, batch[i], batch[j])
      ensures forall k :: Wanted(table, k, now, kinds) && k !in batch ==>
                |batch| == n && forall b :: b in batch ==> NotAfter(table, b, k)
    {
      batch := [];
      var todo := set k | k in table && Due(table, k, now, kinds);
      while |batch| < n && todo != {}
        invariant |batch| <= n && todo <= table.Keys
        invariant forall k :: k in todo ==> k !in batch
        invariant forall k :: Due(table, k, now, kinds) <==> k in todo || k in batch
        invariant forall i, j :: 0 <= i < j < |batch| ==> batch[i] != batch[j] && !Before(table, batch[j], batch[i])
        invariant forall b, k :: b in batch && k in todo ==> !Before(table, k, b)
        decreases todo
      {
        ghost var some := FirstExists(table, todo);
        var first :| first in todo && forall k :: k in todo ==> !Before(table, k, first);
        batch := batch + [first];
        todo := todo - {first};
      }
    }

    method MarkFailedIfUnchanged(k: Key, seen: int, retryAt: int)
      modifies this
      ensures table == MarkedFailed(old(table), k, seen, retryAt)
    {
      if k in table && table[k].retryAt == seen {
        table := table[k := table[k].(attempts := table[k].attempts + 1, retryAt := retryAt)];
      }
    }

    method DeleteIfUnchanged(k: Key, seen: int)
      modifies this
      ensures table == DeletedIf(old(table), k, seen)
    {
      if k in table && table[k].retryAt == seen {
        table := table - {k};
      }
    }
  }
}
