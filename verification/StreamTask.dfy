/**
 The task behind one price stream, `price_stream_task` with `connect_with_retries` in
 price-reporter/src/price_stream_manager.rs, for a pair that is not a unit pair. It supervises a
 connection and, when that fails, retries within the reconnect budget (RetryBudget). The cancel
 token of the stream (StreamRegistry) is polled only beside the supervised connection: while the
 task connects or retries, nothing looks at it. Times are milliseconds on the monotonic clock.
 */
module StreamTask {
  import opened RetryBudget
  import opened Wrappers

  datatype Exit = Cancelled | GivenUp(error: ConnectError)

  datatype Phase =
    | Connecting
    | Supervising(id: nat)
    | Retrying(error: ConnectError, wake: int)
    | Exited(exit: Exit)

  datatype State = State(clock: int, phase: Phase, timestamps: seq<int>, cancelled: bool)

  /** A connection attempt starts at `now` and has its result at `done`. */
  datatype Event =
    | Cancel
    | Connect(now: int, done: int, result: ConnectResult)
    | ConnectionFails(now: int, error: ConnectError)
    | Retry(now: int, done: int, result: ConnectResult)
    | NoticeCancel

  function Started(now: int): State {
    State(now, Connecting, [], false)
  }

  predicate Enabled(s: State, e: Event) {
    match e
    case Cancel => true
    case Connect(now, done, _) => s.phase.Connecting? && s.clock <= now <= done
    case ConnectionFails(now, _) => s.phase.Supervising? && s.clock <= now
    case Retry(now, done, _) => s.phase.Retrying? && s.phase.wake <= now <= done
    case NoticeCancel => s.phase.Supervising? && s.cancelled
  }

  /** The sleep that comes before the next retry. */
  function Sleeping(error: ConnectError, now: int): Phase {
    Retrying(error, now + RetryDelay(error))
  }

  function Next(s: State, e: Event): State
    requires Enabled(s, e)
  {
    match e
    case Cancel => s.(cancelled := true)
    case Connect(_, done, result) =>
      s.(clock := done, phase := if result.Conn? then Supervising(result.id) else Sleeping(result.error, done))
    case ConnectionFails(now, error) => s.(clock := now, phase := Sleeping(error, now))
    case Retry(now, done, result) =>
      var ts := Recent(s.timestamps, now) + [now];
      var phase :=
        match RetryOutcome(ts, result)
        case Reconnected(id) => Supervising(id)
        case Failed(error) => Sleeping(error, done)
        case MaxRetries => Exited(GivenUp(s.phase.error));
      s.(clock := done, timestamps := ts, phase := phase)
    case NoticeCancel => s.(phase := Exited(Cancelled))
  }

  ghost predicate IsTrace(ss: seq<State>, es: seq<Event>) {
    && |ss| == |es| + 1
    && ss[0] == Started(ss[0].clock)
    && forall i :: 0 <= i < |es| ==> Enabled(ss[i], es[i]) && ss[i + 1] == Next(ss[i], es[i])
  }

  /** The task carried out event by event, with the budget kept by a `RetryTracker`. */
  method Perform(tracker: RetryTracker, s: State, e: Event) returns (s': State)
    requires Enabled(s, e) && s.timestamps == tracker.timestamps
    modifies tracker
    ensures s' == Next(s, e) && s'.timestamps == tracker.timestamps
  {
    s' := s;
    match e {
      case Cancel => s' := s'.(cancelled := true);
      case Connect(_, done, result) =>
        s' := s'.(clock := done);
        match result {
          case Conn(id) => s' := s'.(phase := Supervising(id));
          case Err(error) => s' := s'.(phase := Sleeping(error, done));
        }
      case ConnectionFails(now, error) => s' := s'.(clock := now, phase := Sleeping(error, now));
      case Retry(now, done, result) =>
        var r := tracker.RetryConnection(now, result);
        s' := s'.(clock := done, timestamps := tracker.timestamps);
        match r {
          case Reconnected(id) => s' := s'.(phase := Supervising(id));
          case Failed(error) => s' := s'.(phase := Sleeping(error, done));
          case MaxRetries => s' := s'.(phase := Exited(GivenUp(s.phase.error)));
        }
      case NoticeCancel => s' := s'.(phase := Exited(Cancelled));
    }
  }

  // -----------
  // | History |
  // -----------

  /** The times of all retries among the first `k` events. */
  function Retries(es: seq<Event>, k: nat): seq<int>
    requires k <= |es|
  {
    if k == 0 then []
    else Retries(es, k - 1) + if es[k - 1].Retry? then [es[k - 1].now] else []
  }

  /** The stored timestamps are those of the full history, whose times do not go back. */
  ghost predicate Inv(s: State, h: seq<int>) {
    && s.timestamps == Timestamps(h)
    && Monotone(h)
    && (h != [] ==> h[|h| - 1] <= s.clock)
    && (s.phase.Retrying? ==> s.clock <= s.phase.wake)
  }

  lemma InvStep(s: State, e: Event, h: seq<int>)
    requires Inv(s, h) && Enabled(s, e)
    ensures Inv(Next(s, e), h + if e.Retry? then [e.now] else [])
  {
    hide Recent, Timestamps;
    if e.Retry? {
      TimestampsAppend(h, e.now);
    } else {
      assert h + [] == h;
    }
  }

  lemma {:induction false} TraceKeepsInv(ss: seq<State>, es: seq<Event>, k: nat)
    requires IsTrace(ss, es) && k < |ss|
    ensures Inv(ss[k], Retries(es, k))
  {
    if k == 0 {
      assert Timestamps([]) == [];
    } else {
      hide Next, Inv;
      TraceKeepsInv(ss, es, k - 1);
      InvStep(ss[k - 1], es[k - 1], Retries(es, k - 1));
    }
  }

  // ------------
  // | Theorems |
  // ------------

  /** A retry at `now` would find 14 others in the trailing window. */
  predicate BudgetSpent(h: seq<int>, now: int) {
    |h| >= 14 && now - h[|h| - 14] < MAX_CONN_RETRY_WINDOW
  }

  lemma RetryExitsIff(s: State, e: Event, h: seq<int>)
    requires Inv(s, h) && Enabled(s, e) && e.Retry?
    ensures Next(s, e).phase.Exited? <==> BudgetSpent(h, e.now)
    ensures Next(s, e).phase.Exited? ==> Next(s, e).phase.exit == GivenUp(s.phase.error)
  {
    hide Recent, Timestamps;
    var h' := h + [e.now];
    TimestampsAppend(h, e.now);
    assert Monotone(h') && h'[..|h| + 1] == h';
    RefusedIff(h', |h|);
  }

  /**
   How a task ends, exactly: by noticing its cancellation beside a supervised connection, or by a
   retry that finds 14 others in the trailing 60 seconds. Nothing else ends it.
   */
  lemma ExitsIff(ss: seq<State>, es: seq<Event>, k: nat)
    requires IsTrace(ss, es) && k < |es| && !ss[k].phase.Exited?
    ensures ss[k + 1].phase.Exited?
       <==> es[k].NoticeCancel? || (es[k].Retry? && BudgetSpent(Retries(es, k), es[k].now))
    ensures ss[k + 1].phase == Exited(Cancelled) <==> es[k].NoticeCancel?
  {
    TraceKeepsInv(ss, es, k);
    if es[k].Retry? {
      hide Next;
      RetryExitsIff(ss[k], es[k], Retries(es, k));
    }
  }

  /**
   What a connection attempt leads to, exactly: a connection that is made within the budget is the
   one supervised next, and nothing else starts supervision.
   */
  lemma SupervisesIff(ss: seq<State>, es: seq<Event>, k: nat, id: nat)
    requires IsTrace(ss, es) && k < |es| && !ss[k].phase.Supervising?
    ensures ss[k + 1].phase == Supervising(id)
       <==> || (es[k].Connect? && es[k].result == Conn(id))
            || (es[k].Retry? && es[k].result == Conn(id) && !BudgetSpent(Retries(es, k), es[k].now))
  {
    hide Next, Retries, Inv;
    TraceKeepsInv(ss, es, k);
    SuperviseStep(ss[k], es[k], id);
    if es[k].Retry? {
      RetryExitsIff(ss[k], es[k], Retries(es, k));
    }
  }

  lemma SuperviseStep(s: State, e: Event, id: nat)
    requires Enabled(s, e) && !s.phase.Supervising?
    ensures Next(s, e).phase == Supervising(id)
       <==> (e.Connect? || e.Retry?) && e.result == Conn(id) && !Next(s, e).phase.Exited?
    ensures e.Connect? ==> !Next(s, e).phase.Exited?
  {
    hide Recent;
  }

  /** The step fails a connection or an attempt to make one, at time `at`, and the task goes on. */
  predicate FailsWith(s: State, e: Event, error: ConnectError, at: int) {
    match e
    case ConnectionFails(now, err) => err == error && at == now
    case Connect(_, done, result) => result == Err(error) && at == done
    case Retry(_, done, result) => result == Err(error) && at == done && s.phase.Retrying?
    case _ => false
  }

  /** After a failure the next retry can start exactly from 10 seconds on if it was a rate limit, else from 2. */
  lemma RetriesAfterTheSleep(ss: seq<State>, es: seq<Event>, k: nat, error: ConnectError, at: int,
                             t: int, result: ConnectResult)
    requires IsTrace(ss, es) && k < |es| && FailsWith(ss[k], es[k], error, at) && !ss[k + 1].phase.Exited?
    ensures ss[k + 1].phase.Retrying? && ss[k + 1].phase.error == error
    ensures Enabled(ss[k + 1], Retry(t, t, result)) <==> t >= at + if error == RateLimited then 10_000 else 2_000
  {
    hide Recent;
  }

  /** What one more event can do to the task. */
  ghost predicate CanExit(s: State) {
    exists e :: Enabled(s, e) && !s.phase.Exited? && Next(s, e).phase.Exited?
  }

  /**
   When a task can end at its next step: while it supervises, iff it has been cancelled; while it
   retries, iff the budget will be spent when its sleep is over, cancelled or not; else never.
   */
  lemma CanExitIff(ss: seq<State>, es: seq<Event>, k: nat)
    requires IsTrace(ss, es) && k < |ss|
    ensures CanExit(ss[k]) <==>
            match ss[k].phase
            case Supervising(_) => ss[k].cancelled
            case Retrying(_, wake) => BudgetSpent(Retries(es, k), wake)
            case _ => false
  {
    TraceKeepsInv(ss, es, k);
    var s, h := ss[k], Retries(es, k);
    if s.phase.Retrying? {
      CanExitRetrying(s, h);
    } else if s.phase.Supervising? && s.cancelled {
      assert Enabled(s, NoticeCancel) && Next(s, NoticeCancel).phase.Exited?;
    }
  }

  lemma CanExitRetrying(s: State, h: seq<int>)
    requires Inv(s, h) && s.phase.Retrying?
    ensures CanExit(s) <==> BudgetSpent(h, s.phase.wake)
  {
    var e := Retry(s.phase.wake, s.phase.wake, Err(RateLimited));
    RetryExitsIff(s, e, h);
    if x :| Enabled(s, x) && !s.phase.Exited? && Next(s, x).phase.Exited? {
      assert x.Retry?;
      RetryExitsIff(s, x, h);
    }
  }

  /** Every connection attempt of the event was rate limited. */
  predicate OnlyRateLimited(e: Event) {
    (e.Connect? || e.Retry?) ==> e.result == Err(RateLimited)
  }

  /** The task has never got a connection, and leaves 10 seconds between retries. */
  ghost predicate Limited(s: State, h: seq<int>) {
    && (s.phase.Connecting? || (s.phase.Retrying? && s.phase.error == RateLimited))
    && GapsAtLeast(h, RATE_LIMIT_RETRY_DELAY)
    && (h != [] ==> s.phase.Retrying? && s.phase.wake - h[|h| - 1] >= RATE_LIMIT_RETRY_DELAY)
  }

  lemma SpacedRetryIsInBudget(h: seq<int>, now: int)
    requires GapsAtLeast(h, RATE_LIMIT_RETRY_DELAY) && (h != [] ==> now - h[|h| - 1] >= RATE_LIMIT_RETRY_DELAY)
    ensures GapsAtLeast(h + [now], RATE_LIMIT_RETRY_DELAY) && !BudgetSpent(h, now)
  {
    var h' := h + [now];
    if |h| >= 14 {
      Spread14(h', RATE_LIMIT_RETRY_DELAY, |h|);
    }
  }

  lemma LimitedStep(s: State, e: Event, h: seq<int>)
    requires Inv(s, h) && Limited(s, h) && Enabled(s, e) && OnlyRateLimited(e)
    ensures Limited(Next(s, e), h + if e.Retry? then [e.now] else [])
  {
    hide Recent, Timestamps;
    if e.Retry? {
      SpacedRetryIsInBudget(h, e.now);
      RetryExitsIff(s, e, h);
    } else {
      assert h + [] == h;
    }
  }

  /**
   A task that is only ever rate limited never ends, whenever it is cancelled: no state of any such
   run has exited or can exit, because the token is not polled while it retries.
   */
  lemma {:induction false} CancelledTaskRetriesForever(ss: seq<State>, es: seq<Event>, k: nat)
    requires IsTrace(ss, es) && k < |ss| && forall i :: 0 <= i < k ==> OnlyRateLimited(es[i])
    ensures Limited(ss[k], Retries(es, k)) && !ss[k].phase.Exited? && !CanExit(ss[k])
  {
    hide Next, OnlyRateLimited;
    if k > 0 {
      CancelledTaskRetriesForever(ss, es, k - 1);
      TraceKeepsInv(ss, es, k - 1);
      LimitedStep(ss[k - 1], es[k - 1], Retries(es, k - 1));
    }
    CanExitIff(ss, es, k);
    if ss[k].phase.Retrying? {
      SpacedRetryIsInBudget(Retries(es, k), ss[k].phase.wake);
    }
  }
}
