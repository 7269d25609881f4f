/**
 The reconnect budget of a price stream: `retry_connection` and `exhaust_retries` in
 price-reporter/src/price_stream_manager.rs. The vector of retry timestamps lives as long
 as the stream task and is pruned in place; the theorems relate it to the full history of
 retries, which nothing stores. Times are milliseconds on the monotonic clock.
 */
module RetryBudget {
  import opened Wrappers
  import Supervisor = ConnectionSupervisor

  const CONN_RETRY_DELAY := 2_000
  const RATE_LIMIT_RETRY_DELAY := 10_000
  const MAX_CONN_RETRY_WINDOW := 60_000
  const MAX_CONN_RETRIES: nat := 15

  /** The errors `connect_exchange` produces; the budget error below is not among them. */
  datatype ConnectError = RateLimited | Other(message: string)

  datatype ConnectResult = Conn(id: nat) | Err(error: ConnectError)

  datatype RetryResult = Reconnected(id: nat) | Failed(error: ConnectError) | MaxRetries

  // ------------------------
  // | The pruned timestamps |
  // ------------------------

  /** The retries of `history` that lie less than the window before `now`. */
  function Recent(history: seq<int>, now: int): seq<int> {
    if history == [] then []
    else
      var n := |history| - 1;
      Recent(history[..n], now) + if now - history[n] < MAX_CONN_RETRY_WINDOW then [history[n]] else []
  }

  function RetryOutcome(timestamps: seq<int>, result: ConnectResult): RetryResult {
    if |timestamps| >= MAX_CONN_RETRIES then MaxRetries
    else match result
         case Conn(id) => Reconnected(id)
         case Err(e) => Failed(e)
  }

  /** What the next retry will do: connect at `at`, with the result the exchange would give. */
  datatype Attempt = Attempt(at: int, result: ConnectResult)

  datatype Outcome = Success(id: nat) | GaveUp(error: ConnectError) | StillRetrying

  class RetryTracker {
    var timestamps: seq<int>

    constructor ()
      ensures timestamps == []
    {
      timestamps := [];
    }

    /** Prune, push, compare, and only then connect. */
    method RetryConnection(now: int, result: ConnectResult) returns (r: RetryResult)
      modifies this
      ensures timestamps == Recent(old(timestamps), now) + [now]
      ensures r == RetryOutcome(timestamps, result)
    {
      var kept: seq<int> := [];
      for i := 0 to |timestamps|
        invariant timestamps == old(timestamps)
        invariant kept == Recent(timestamps[..i], now)
      {
        assert timestamps[..i + 1][..i] == timestamps[..i];
        if now - timestamps[i] < MAX_CONN_RETRY_WINDOW {
          kept := kept + [timestamps[i]];
        }
      }
      assert timestamps[..|timestamps|] == timestamps;
      timestamps := kept + [now];
      if |timestamps| >= MAX_CONN_RETRIES {
        return MaxRetries;
      }
      match result {
        case Conn(id) => return Reconnected(id);
        case Err(e) => return Failed(e);
      }
    }

    /** The retry loop; it keeps the last underlying error to surface when the budget runs out. */
    method ExhaustRetries(err: ConnectError, attempts: seq<Attempt>) returns (r: Outcome)
      modifies this
      ensures r == Exhaust(err, old(timestamps), attempts, 0).0
      ensures timestamps == Exhaust(err, old(timestamps), attempts, 0).1
    {
      var prevErr := err;
      for i := 0 to |attempts|
        invariant Exhaust(err, old(timestamps), attempts, 0) == Exhaust(prevErr, timestamps, attempts, i)
      {
        var res := RetryConnection(attempts[i].at, attempts[i].result);
        match res {
          case Reconnected(id) => return Success(id);
          case MaxRetries => return GaveUp(prevErr);
          case Failed(e) => prevErr := e;
        }
      }
      return StillRetrying;
    }
  }

  /** The retry loop on values, from attempt `i` on: its result, and the timestamps it leaves behind. */
  function Exhaust(err: ConnectError, timestamps: seq<int>, attempts: seq<Attempt>, i: nat): (Outcome, seq<int>)
    requires i <= |attempts|
    decreases |attempts| - i
  {
    if i == |attempts| then (StillRetrying, timestamps)
    else
      var ts := Recent(timestamps, attempts[i].at) + [attempts[i].at];
      match RetryOutcome(ts, attempts[i].result)
      case Reconnected(id) => (Success(id), ts)
      case MaxRetries => (GaveUp(err), ts)
      case Failed(e) => Exhaust(e, ts, attempts, i + 1)
  }

  // --------------------------------------------------
  // | The pruned vector refines the full retry history |
  // --------------------------------------------------

  ghost predicate Monotone(h: seq<int>) {
    forall i, j :: 0 <= i <= j < |h| ==> h[i] <= h[j]
  }

  /** The vector after a retry at each time of `history`, starting from an empty one. */
  function Timestamps(history: seq<int>): seq<int> {
    if history == [] then []
    else
      var n := |history| - 1;
      Recent(Timestamps(history[..n]), history[n]) + [history[n]]
  }

  lemma RecentAppend(a: seq<int>, x: int, now: int)
    ensures Recent(a + [x], now) == Recent(a, now) + if now - x < MAX_CONN_RETRY_WINDOW then [x] else []
  {
    assert (a + [x])[..|a|] == a;
  }

  lemma TimestampsAppend(a: seq<int>, x: int)
    ensures Timestamps(a + [x]) == Recent(Timestamps(a), x) + [x]
  {
    assert (a + [x])[..|a|] == a;
  }

  /** Pruning earlier and pruning again is pruning once. */
  lemma {:induction false} PruneTwice(h: seq<int>, t: int, now: int)
    requires t <= now
    ensures Recent(Recent(h, t), now) == Recent(h, now)
  {
    if h != [] {
      var n := |h| - 1;
      PruneTwice(h[..n], t, now);
      if t - h[n] < MAX_CONN_RETRY_WINDOW {
        RecentAppend(Recent(h[..n], t), h[n], now);
      } else {
        assert Recent(h, t) == Recent(h[..n], t);
      }
    }
  }

  /** The stored vector is the full history cut to the window that ends at its last retry. */
  lemma {:induction false} TimestampsAreRecentHistory(h: seq<int>)
    requires h != [] && Monotone(h)
    ensures Timestamps(h) == Recent(h, h[|h| - 1])
  {
    var n := |h| - 1;
    if n > 0 {
      TimestampsAreRecentHistory(h[..n]);
      PruneTwice(h[..n], h[n - 1], h[n]);
    }
  }

  /** Where the window starts is a matter of one element: the history is monotone. */
  lemma {:induction false} RecentCount(h: seq<int>, now: int, m: nat)
    requires Monotone(h) && 0 < m
    requires forall i :: 0 <= i < |h| ==> h[i] <= now
    ensures |Recent(h, now)| >= m <==> |h| >= m && now - h[|h| - m] < MAX_CONN_RETRY_WINDOW
  {
    if h != [] {
      var n := |h| - 1;
      if m > 1 {
        RecentCount(h[..n], now, m - 1);
        if now - h[n] >= MAX_CONN_RETRY_WINDOW && |h| >= m {
          assert h[|h| - m] <= h[n];
          RecentCount(h[..n], now, m);
        }
        if now - h[n] >= MAX_CONN_RETRY_WINDOW && |h| < m {
          RecentCount(h[..n], now, m);
        }
      } else if now - h[n] >= MAX_CONN_RETRY_WINDOW {
        RecentCount(h[..n], now, 1);
        assert n > 0 ==> h[n - 1] <= h[n];
      }
    }
  }

  /** The retry at `h[k]` was refused, in the task whose retries so far are `h[..k + 1]`. */
  predicate Refused(h: seq<int>, k: nat)
    requires k < |h|
  {
    |Timestamps(h[..k + 1])| >= MAX_CONN_RETRIES
  }

  /** A retry is refused iff it and the 14 before it all lie in the trailing 60 seconds. */
  lemma RefusedIff(h: seq<int>, k: nat)
    requires Monotone(h) && k < |h|
    ensures Refused(h, k) <==> k >= 14 && h[k] - h[k - 14] < MAX_CONN_RETRY_WINDOW
    ensures Timestamps(h[..k + 1]) == Recent(h[..k + 1], h[k])
  {
    TimestampsAreRecentHistory(h[..k + 1]);
    RecentCount(h[..k + 1], h[k], MAX_CONN_RETRIES);
  }

  /** The reconnects (retries that were not refused) among the first `n` that fall in the window ending at `w`. */
  function Reconnects(h: seq<int>, n: nat, w: int): nat
    requires n <= |h|
  {
    if n == 0 then 0
    else Reconnects(h, n - 1, w) + if w - MAX_CONN_RETRY_WINDOW < h[n - 1] <= w && !Refused(h, n - 1) then 1 else 0
  }

  lemma {:induction false} ReconnectsAreRecent(h: seq<int>, n: nat, w: int, now: int)
    requires n <= |h| && now <= w
    ensures Reconnects(h, n, w) <= |Recent(h[..n], now)|
  {
    if n > 0 {
      ReconnectsAreRecent(h, n - 1, w, now);
      assert h[..n][..n - 1] == h[..n - 1];
    }
  }

  /** No 60 second window, wherever it starts, holds more than 14 reconnects. */
  lemma {:induction false} NoWindowExceedsBudget(h: seq<int>, n: nat, w: int)
    requires Monotone(h) && n <= |h|
    ensures Reconnects(h, n, w) <= MAX_CONN_RETRIES - 1
  {
    if n > 0 {
      NoWindowExceedsBudget(h, n - 1, w);
      if h[n - 1] <= w && !Refused(h, n - 1) {
        RefusedIff(h, n - 1);
        ReconnectsAreRecent(h, n, w, h[n - 1]);
      }
    }
  }

  // ---------------------------------
  // | Which loops run out of retries |
  // ---------------------------------

  ghost predicate GapsAtLeast(h: seq<int>, gap: int) {
    forall i :: 0 <= i < |h| - 1 ==> h[i + 1] - h[i] >= gap
  }

  ghost predicate GapsAtMost(h: seq<int>, gap: int) {
    forall i :: 0 <= i < |h| - 1 ==> h[i + 1] - h[i] <= gap
  }

  lemma {:induction false} SpreadAtLeast(h: seq<int>, gap: nat, i: nat, j: nat)
    requires GapsAtLeast(h, gap) && i <= j < |h|
    ensures h[j] - h[i] >= (j - i) * gap
  {
    if i < j {
      SpreadAtLeast(h, gap, i, j - 1);
      assert h[j - 1 + 1] - h[j - 1] >= gap;
      assert (j - i) * gap == (j - 1 - i) * gap + gap;
    }
  }

  lemma Spread14(h: seq<int>, gap: nat, k: nat)
    requires GapsAtLeast(h, gap) && 14 <= k < |h|
    ensures h[k] - h[k - 14] >= 14 * gap
  {
    SpreadAtLeast(h, gap, k - 14, k);
    assert (k - (k - 14)) * gap == 14 * gap;
  }

  lemma GapsMakeMonotone(h: seq<int>, gap: nat)
    requires GapsAtLeast(h, gap)
    ensures Monotone(h)
  {
    forall i, j | 0 <= i <= j < |h| ensures h[i] <= h[j] {
      SpreadAtLeast(h, 0, i, j);
    }
  }

  lemma {:induction false} SpreadAtMost(h: seq<int>, gap: nat, i: nat, j: nat)
    requires GapsAtMost(h, gap) && i <= j < |h|
    ensures h[j] - h[i] <= (j - i) * gap
  {
    if i < j {
      SpreadAtMost(h, gap, i, j - 1);
      assert h[j - 1 + 1] - h[j - 1] <= gap;
      assert (j - i) * gap == (j - 1 - i) * gap + gap;
    }
  }

  /**
   Retries that are far enough apart never exhaust the budget, however long they go on. In
   particular the 12 second cycle of price-reporter/src/utils/mod.rs:62-68 is retried forever.
   */
  lemma SlowRetriesNeverExhaust(h: seq<int>, gap: nat, k: nat)
    requires GapsAtLeast(h, gap) && 14 * gap >= MAX_CONN_RETRY_WINDOW && k < |h|
    ensures !Refused(h, k)
  {
    GapsMakeMonotone(h, gap);
    RefusedIff(h, k);
    if k >= 14 {
      Spread14(h, gap, k);
    }
  }

  /** Retries that are close enough are refused from the 15th on. */
  lemma FastRetriesExhaust(h: seq<int>, gap: nat, k: nat)
    requires Monotone(h) && GapsAtMost(h, gap) && 14 * gap < MAX_CONN_RETRY_WINDOW && 14 <= k < |h|
    ensures Refused(h, k)
  {
    RefusedIff(h, k);
    SpreadAtMost(h, gap, k - 14, k);
  }

  // ------------------
  // | The retry loop |
  // ------------------

  /** The retries of the task once the loop has made its first `i` attempts after the history `h`. */
  function Made(h: seq<int>, attempts: seq<Attempt>, i: nat): (made: seq<int>)
    requires i <= |attempts|
    ensures |made| == |h| + i
    ensures forall j :: 0 <= j < |h| ==> made[j] == h[j]
    ensures forall j :: |h| <= j < |h| + i ==> made[j] == attempts[j - |h|].at
  {
    if i == 0 then h else Made(h, attempts, i - 1) + [attempts[i - 1].at]
  }

  /** The stored timestamps at that point. */
  function Stored(h: seq<int>, attempts: seq<Attempt>, i: nat): seq<int>
    requires i <= |attempts|
  {
    if i == 0 then Timestamps(h)
    else Recent(Stored(h, attempts, i - 1), attempts[i - 1].at) + [attempts[i - 1].at]
  }

  lemma {:induction false} StoredIsTimestamps(h: seq<int>, attempts: seq<Attempt>, i: nat)
    requires i <= |attempts|
    ensures Stored(h, attempts, i) == Timestamps(Made(h, attempts, i))
  {
    hide Recent, Timestamps;
    if i > 0 {
      StoredIsTimestamps(h, attempts, i - 1);
      TimestampsAppend(Made(h, attempts, i - 1), attempts[i - 1].at);
    }
  }

  /** Attempt `i` of the loop finds the budget used up. */
  predicate OverBudget(h: seq<int>, attempts: seq<Attempt>, i: nat)
    requires i < |attempts|
  {
    |Stored(h, attempts, i + 1)| >= MAX_CONN_RETRIES
  }

  /** The loop's own test is the test on the full history of the task. */
  lemma OverBudgetIff(h: seq<int>, attempts: seq<Attempt>, i: nat)
    requires i < |attempts| && Monotone(Made(h, attempts, i + 1))
    ensures var made := Made(h, attempts, i + 1);
            OverBudget(h, attempts, i) <==> |h| + i >= 14 && made[|h| + i] - made[|h| + i - 14] < MAX_CONN_RETRY_WINDOW
  {
    hide Recent, Timestamps, Stored;
    var made := Made(h, attempts, i + 1);
    StoredIsTimestamps(h, attempts, i + 1);
    assert made[..|h| + i + 1] == made;
    RefusedIff(made, |h| + i);
  }

  /** The attempt is let through, and fails. */
  predicate Fails(h: seq<int>, attempts: seq<Attempt>, i: nat)
    requires i < |attempts|
  {
    attempts[i].result.Err? && !OverBudget(h, attempts, i)
  }

  /** The error the loop holds after `k` failed attempts. */
  function LatestError(err: ConnectError, attempts: seq<Attempt>, k: nat): ConnectError
    requires k <= |attempts|
    requires k > 0 ==> attempts[k - 1].result.Err?
  {
    if k == 0 then err else attempts[k - 1].result.error
  }

  lemma {:induction false} ExhaustAfterFailures(err: ConnectError, h: seq<int>, attempts: seq<Attempt>, i: nat)
    requires i <= |attempts|
    requires forall j :: 0 <= j < i ==> Fails(h, attempts, j)
    ensures i > 0 ==> attempts[i - 1].result.Err?
    ensures Exhaust(err, Timestamps(h), attempts, 0)
         == Exhaust(LatestError(err, attempts, i), Stored(h, attempts, i), attempts, i)
  {
    if i > 0 {
      ExhaustAfterFailures(err, h, attempts, i - 1);
      assert Fails(h, attempts, i - 1);
    }
  }

  /**
   The loop against the history `h` of all earlier retries of the task. It ends at the first
   attempt that is over budget or that connects; when over budget it surfaces the latest
   underlying error, never the budget error itself.
   */
  lemma ExhaustEndsAtFirstRefusal(err: ConnectError, h: seq<int>, attempts: seq<Attempt>, k: nat)
    requires k <= |attempts|
    requires forall j :: 0 <= j < k ==> Fails(h, attempts, j)
    requires k < |attempts| ==> !Fails(h, attempts, k)
    ensures k > 0 ==> attempts[k - 1].result.Err?
    ensures Exhaust(err, Timestamps(h), attempts, 0) ==
            if k == |attempts| then (StillRetrying, Stored(h, attempts, k))
            else if OverBudget(h, attempts, k) then (GaveUp(LatestError(err, attempts, k)), Stored(h, attempts, k + 1))
            else (Success(attempts[k].result.id), Stored(h, attempts, k + 1))
  {
    ExhaustAfterFailures(err, h, attempts, k);
  }

  /** The first attempt at which the loop ends, or their number when it does not. */
  lemma {:induction false} LoopEnd(h: seq<int>, attempts: seq<Attempt>) returns (k: nat)
    ensures k <= |attempts|
    ensures forall j :: 0 <= j < k ==> Fails(h, attempts, j)
    ensures k < |attempts| ==> !Fails(h, attempts, k)
  {
    k := 0;
    while k < |attempts| && Fails(h, attempts, k)
      invariant k <= |attempts| && forall j :: 0 <= j < k ==> Fails(h, attempts, j)
    {
      k := k + 1;
    }
  }

  function RetryDelay(err: ConnectError): int {
    if err.RateLimited? then RATE_LIMIT_RETRY_DELAY else CONN_RETRY_DELAY
  }

  /** Attempt `i` comes after the sleep that belongs to the error before it. */
  predicate Slept(attempts: seq<Attempt>, i: nat)
    requires 0 < i < |attempts|
  {
    attempts[i - 1].result.Err? && attempts[i].at - attempts[i - 1].at >= RetryDelay(attempts[i - 1].result.error)
  }

  lemma SleptGaps(attempts: seq<Attempt>, k: nat)
    requires k <= |attempts|
    requires forall i :: 0 < i < |attempts| ==> Slept(attempts, i) && attempts[i - 1].result == Err(RateLimited)
    ensures GapsAtLeast(Made([], attempts, k), RATE_LIMIT_RETRY_DELAY)
  {
    var made := Made([], attempts, k);
    forall i | 0 <= i < |made| - 1 ensures made[i + 1] - made[i] >= RATE_LIMIT_RETRY_DELAY {
      assert Slept(attempts, i + 1);
    }
  }

  lemma SpacedAttemptIsInBudget(h: seq<int>, attempts: seq<Attempt>, k: nat, gap: nat)
    requires k < |attempts| && GapsAtLeast(Made(h, attempts, k + 1), gap) && 14 * gap >= MAX_CONN_RETRY_WINDOW
    ensures !OverBudget(h, attempts, k)
  {
    var made, n := Made(h, attempts, k + 1), |h| + k;
    GapsMakeMonotone(made, gap);
    OverBudgetIff(h, attempts, k);
    if n >= 14 {
      Spread14(made, gap, n);
    }
  }

  /** A stream that is only ever rate limited sleeps 10 seconds a time and is never given up. */
  lemma RateLimitedStreamNeverGivesUp(err: ConnectError, attempts: seq<Attempt>)
    requires forall i :: 0 <= i < |attempts| ==> attempts[i].result == Err(RateLimited)
    requires forall i :: 0 < i < |attempts| ==> Slept(attempts, i)
    ensures Exhaust(err, [], attempts, 0).0 == StillRetrying
  {
    assert Timestamps([]) == [];
    hide Recent, Timestamps, Stored, OverBudget;
    forall k | 0 <= k < |attempts| ensures Fails([], attempts, k) {
      SleptGaps(attempts, k + 1);
      SpacedAttemptIsInBudget([], attempts, k, RATE_LIMIT_RETRY_DELAY);
    }
    ExhaustEndsAtFirstRefusal(err, [], attempts, |attempts|);
  }

  lemma FifteenthIsOverBudget(h: seq<int>, attempts: seq<Attempt>)
    requires |attempts| >= 15 && Monotone(Made(h, attempts, |attempts|))
    requires attempts[14].at - attempts[0].at < MAX_CONN_RETRY_WINDOW
    ensures OverBudget(h, attempts, 14)
  {
    var made, full := Made(h, attempts, 15), Made(h, attempts, |attempts|);
    assert forall i :: 0 <= i < |made| ==> made[i] == full[i];
    OverBudgetIff(h, attempts, 14);
  }

  /**
   An exchange that keeps failing with 15 attempts in under 60 seconds is given up on within
   those 15, whatever the task's earlier retries, with the latest underlying error.
   */
  lemma FastFailuresGiveUp(err: ConnectError, h: seq<int>, attempts: seq<Attempt>)
    requires |attempts| >= 15 && forall i :: 0 <= i < |attempts| ==> attempts[i].result.Err?
    requires Monotone(Made(h, attempts, |attempts|)) && attempts[14].at - attempts[0].at < MAX_CONN_RETRY_WINDOW
    ensures exists k: nat ::
              k < 15 && Exhaust(err, Timestamps(h), attempts, 0).0 == GaveUp(LatestError(err, attempts, k))
  {
    var k := LoopEnd(h, attempts);
    FifteenthIsOverBudget(h, attempts);
    assert !Fails(h, attempts, 14);
    assert k < 15;
    ExhaustEndsAtFirstRefusal(err, h, attempts, k);
    assert !Fails(h, attempts, k);
  }

  /** A connection that was supervised and then given up because no first tick came. */
  datatype DeadConnection = DeadConnection(states: seq<Supervisor.State>, events: seq<Supervisor.Event>)

  /** Retry `i` made the connection `c`, and retry `i + 1` followed the usual sleep after `c` failed. */
  ghost predicate DeadCycle(h: seq<int>, i: nat, c: DeadConnection) {
    && i + 1 < |h|
    && Supervisor.IsTrace(c.states, c.events)
    && h[i] <= c.states[0].clock
    && c.states[|c.events|].failed == Some(Supervisor.NoFirstTick)
    && h[i + 1] >= c.states[|c.events|].clock + CONN_RETRY_DELAY
  }

  lemma DeadCycleTakes12Seconds(h: seq<int>, i: nat, c: DeadConnection)
    requires DeadCycle(h, i, c)
    ensures h[i + 1] - h[i] >= 12_000
  {
    Supervisor.NoFirstTickTakesTheTimeout(c.states, c.events, |c.events|);
  }

  /**
   A pair whose subscriptions are all dead, each connection failing at the acknowledgement
   deadline and being retried after the usual sleep, is retried forever: no retry is refused.
   */
  lemma DeadSubscriptionsAreRetriedForever(h: seq<int>, connections: seq<DeadConnection>, k: nat)
    requires k < |h| == |connections| + 1
    requires forall i :: 0 <= i < |connections| ==> DeadCycle(h, i, connections[i])
    ensures !Refused(h, k)
  {
    hide Refused;
    forall i | 0 <= i < |h| - 1 ensures h[i + 1] - h[i] >= 12_000 {
      DeadCycleTakes12Seconds(h, i, connections[i]);
    }
    SlowRetriesNeverExhaust(h, 12_000, k);
  }
}
