/**
 The supervisor of one exchange connection, `manage_connection` in
 price-reporter/src/price_stream_manager.rs, with the constants of
 price-reporter/src/utils/mod.rs. Times are milliseconds on the monotonic clock.

 The three timers and the exchange stream are polled together and any ready one may be
 taken, so a schedule is any sequence of events in which a timer fires only once it is due.
 */
module ConnectionSupervisor {
  import opened Wrappers

  const KEEPALIVE_INTERVAL := 15_000
  const HEARTBEAT_INTERVAL := 10_000
  const MAX_HEARTBEAT_AGE := 120_000
  const SUBSCRIBE_ACK_TIMEOUT := 10_000
  const HEARTBEAT_REPLAY_WARN_AGE := 30_000

  datatype Log = Replaying | Resumed

  datatype Failure = KeepaliveFailed | NoFirstTick | Stale(age: int) | StreamFailed | StreamClosed

  datatype Send = Send(at: int, price: real)

  /** The supervisor's variables, its timers, and everything it has emitted so far. */
  datatype State = State(
    clock: int,
    lastPrice: Option<real>,
    lastExchangeUpdate: int,
    receivedFirstTick: bool,
    replayStalled: bool,
    keepaliveAt: int,
    heartbeatAt: int,
    ackAt: int,
    sends: seq<Send>,
    logs: seq<Log>,
    failed: Option<Failure>
  )

  /** A keepalive is written inside the select arm, so the loop is blocked from `now` to `done`. */
  datatype Event =
    | Keepalive(now: int, done: int, ok: bool)
    | AckDeadline(now: int)
    | Heartbeat(now: int)
    | Tick(now: int, price: real)
    | StreamError(now: int)
    | StreamEnd(now: int)

  function Connected(now: int): State {
    State(now, None, now, false, false, now + KEEPALIVE_INTERVAL, now + HEARTBEAT_INTERVAL,
          now + SUBSCRIBE_ACK_TIMEOUT, [], [], None)
  }

  predicate Enabled(s: State, e: Event) {
    && s.failed.None?
    && s.clock <= e.now
    && match e
       case Keepalive(now, done, _) => s.keepaliveAt <= now <= done
       case AckDeadline(now) => !s.receivedFirstTick && s.ackAt <= now
       case Heartbeat(now) => s.heartbeatAt <= now
       case _ => true
  }

  function Next(s: State, e: Event): State {
    var s := s.(clock := e.now);
    match e
    case Keepalive(_, done, ok) =>
      if ok then s.(clock := done, keepaliveAt := done + KEEPALIVE_INTERVAL)
      else s.(clock := done, failed := Some(KeepaliveFailed))
    case AckDeadline(_) => s.(failed := Some(NoFirstTick))
    case Heartbeat(now) => OnHeartbeat(s, now)
    case Tick(now, price) =>
      s.(logs := if s.replayStalled then s.logs + [Resumed] else s.logs,
         replayStalled := false,
         sends := s.sends + [Send(now, price)],
         lastPrice := Some(price),
         lastExchangeUpdate := now,
         receivedFirstTick := true,
         heartbeatAt := now + HEARTBEAT_INTERVAL)
    case StreamError(_) => s.(failed := Some(StreamFailed))
    case StreamEnd(_) => s.(failed := Some(StreamClosed))
  }

  function OnHeartbeat(s: State, now: int): State {
    var age := now - s.lastExchangeUpdate;
    if s.lastPrice.None? then s.(heartbeatAt := now + HEARTBEAT_INTERVAL)
    else if age < MAX_HEARTBEAT_AGE then
      var warn := !s.replayStalled && age > HEARTBEAT_REPLAY_WARN_AGE;
      s.(logs := if warn then s.logs + [Replaying] else s.logs,
         replayStalled := s.replayStalled || warn,
         sends := s.sends + [Send(now, s.lastPrice.value)],
         heartbeatAt := now + HEARTBEAT_INTERVAL)
    else s.(failed := Some(Stale(age)))
  }

  ghost predicate IsTrace(ss: seq<State>, es: seq<Event>) {
    && |ss| == |es| + 1
    && (exists start :: ss[0] == Connected(start))
    && forall i :: 0 <= i < |es| ==> Enabled(ss[i], es[i]) && ss[i + 1] == Next(ss[i], es[i])
  }

  /** The state in which a schedule leaves the supervisor; events that cannot fire end it. */
  function Run(s: State, es: seq<Event>): State
    decreases |es|
  {
    if es == [] || !Enabled(s, es[0]) then s else Run(Next(s, es[0]), es[1..])
  }

  lemma RunStep(s: State, es: seq<Event>, i: nat)
    requires i < |es|
    ensures Run(s, es[i..]) == if Enabled(s, es[i]) then Run(Next(s, es[i]), es[i + 1..]) else s
  {
    assert es[i..][0] == es[i] && es[i..][1..] == es[i + 1..];
  }

  lemma RunNothing(s: State, es: seq<Event>)
    ensures es[0..] == es && Run(s, es[|es|..]) == s
    ensures s.failed.Some? ==> Run(s, es) == s
  {
  }

  lemma {:induction false} TraceIsRun(ss: seq<State>, es: seq<Event>, k: nat)
    requires IsTrace(ss, es) && k <= |es|
    ensures Run(ss[k], es[k..]) == ss[|es|]
    decreases |es| - k
  {
    hide Run, Next;
    if k < |es| {
      TraceIsRun(ss, es, k + 1);
      RunStep(ss[k], es, k);
    } else {
      RunNothing(ss[k], es);
    }
  }

  /** The loop itself: variables updated event by event until one of them fails the connection. */
  method ManageConnection(start: int, es: seq<Event>)
    returns (sends: seq<Send>, logs: seq<Log>, failed: Option<Failure>)
    ensures var end := Run(Connected(start), es);
            sends == end.sends && logs == end.logs && failed == end.failed
  {
    hide Run;
    RunNothing(Connected(start), es);
    var clock, lastPrice, lastExchangeUpdate := start, None, start;
    var receivedFirstTick, replayStalled := false, false;
    var keepaliveAt, heartbeatAt := start + KEEPALIVE_INTERVAL, start + HEARTBEAT_INTERVAL;
    var ackAt := start + SUBSCRIBE_ACK_TIMEOUT;
    sends, logs, failed := [], [], None;
    var i := 0;
    while i < |es| && failed.None?
      invariant 0 <= i <= |es|
      invariant Run(Connected(start), es)
             == Run(State(clock, lastPrice, lastExchangeUpdate, receivedFirstTick, replayStalled,
                          keepaliveAt, heartbeatAt, ackAt, sends, logs, failed), es[i..])
    {
      RunStep(State(clock, lastPrice, lastExchangeUpdate, receivedFirstTick, replayStalled,
                    keepaliveAt, heartbeatAt, ackAt, sends, logs, failed), es, i);
      var now := es[i].now;
      if now < clock { return; }
      match es[i] {
        case Keepalive(_, done, ok) =>
          if now < keepaliveAt || done < now { return; }
          clock := done;
          if ok {
            keepaliveAt := done + KEEPALIVE_INTERVAL;
          } else {
            failed := Some(KeepaliveFailed);
          }
        case AckDeadline(_) =>
          if receivedFirstTick || now < ackAt { return; }
          clock := now;
          failed := Some(NoFirstTick);
        case Heartbeat(_) =>
          if now < heartbeatAt { return; }
          clock := now;
          if lastPrice.Some? && now - lastExchangeUpdate >= MAX_HEARTBEAT_AGE {
            failed := Some(Stale(now - lastExchangeUpdate));
          } else {
            if lastPrice.Some? {
              if !replayStalled && now - lastExchangeUpdate > HEARTBEAT_REPLAY_WARN_AGE {
                logs := logs + [Replaying];
                replayStalled := true;
              }
              sends := sends + [Send(now, lastPrice.value)];
            }
            heartbeatAt := now + HEARTBEAT_INTERVAL;
          }
        case Tick(_, price) =>
          clock := now;
          if replayStalled {
            logs := logs + [Resumed];
            replayStalled := false;
          }
          sends := sends + [Send(now, price)];
          lastPrice := Some(price);
          lastExchangeUpdate := now;
          receivedFirstTick := true;
          heartbeatAt := now + HEARTBEAT_INTERVAL;
        case StreamError(_) =>
          clock := now;
          failed := Some(StreamFailed);
        case StreamEnd(_) =>
          clock := now;
          failed := Some(StreamClosed);
      }
      i := i + 1;
    }
    RunNothing(State(clock, lastPrice, lastExchangeUpdate, receivedFirstTick, replayStalled,
                     keepaliveAt, heartbeatAt, ackAt, sends, logs, failed), es[i..]);
    RunNothing(State(clock, lastPrice, lastExchangeUpdate, receivedFirstTick, replayStalled,
                     keepaliveAt, heartbeatAt, ackAt, sends, logs, failed), es);
  }

  // -------------
  // | Invariant |
  // -------------

  function Alternating(n: nat): seq<Log> {
    seq(n, i => if i % 2 == 0 then Replaying else Resumed)
  }

  ghost predicate Inv(s: State) {
    && s.lastExchangeUpdate <= s.clock
    && s.receivedFirstTick == s.lastPrice.Some? == (s.sends != [])
    && s.logs == Alternating(|s.logs|)
    && (s.replayStalled <==> |s.logs| % 2 == 1)
    && (!s.receivedFirstTick ==> s.ackAt == s.lastExchangeUpdate + SUBSCRIBE_ACK_TIMEOUT && s.logs == [])
    && (s.receivedFirstTick ==>
          s.heartbeatAt == s.sends[|s.sends| - 1].at + HEARTBEAT_INTERVAL
          && s.heartbeatAt < s.lastExchangeUpdate + MAX_HEARTBEAT_AGE + HEARTBEAT_INTERVAL)
    && (s.failed.Some? && s.failed.value.Stale? ==> s.failed.value.age >= MAX_HEARTBEAT_AGE)
  }

  lemma NextKeepsInv(s: State, e: Event)
    requires Enabled(s, e) && Inv(s)
    ensures Inv(Next(s, e))
  {
  }

  lemma {:induction false} TraceKeepsInv(ss: seq<State>, es: seq<Event>, k: nat)
    requires IsTrace(ss, es) && k < |ss|
    ensures Inv(ss[k])
  {
    hide Next;
    if k > 0 {
      TraceKeepsInv(ss, es, k - 1);
      NextKeepsInv(ss[k - 1], es[k - 1]);
    }
  }

  // ------------
  // | Theorems |
  // ------------

  /** `j` is the last real tick among the first `k` events. */
  ghost predicate IsLatestTick(es: seq<Event>, k: nat, j: nat) {
    && j < k <= |es| && es[j].Tick?
    && forall m :: j < m < k ==> !es[m].Tick?
  }

  lemma {:induction false} LastPriceIsLatestTick(ss: seq<State>, es: seq<Event>, k: nat) returns (j: nat)
    requires IsTrace(ss, es) && k < |ss| && ss[k].lastPrice.Some?
    ensures IsLatestTick(es, k, j)
    ensures ss[k].lastPrice == Some(es[j].price) && ss[k].lastExchangeUpdate == es[j].now
  {
    if es[k - 1].Tick? {
      j := k - 1;
    } else {
      j := LastPriceIsLatestTick(ss, es, k - 1);
    }
  }

  /**
   Whatever a step sends is the price of the latest real tick, and when the step is not
   itself a tick that tick is under 120 seconds old. At most one price goes out per step.
   */
  lemma SendsAreTheLatestTick(ss: seq<State>, es: seq<Event>, k: nat)
    requires IsTrace(ss, es) && k < |es|
    ensures ss[k + 1].sends == ss[k].sends
         || exists j: nat, x: Send ::
              && ss[k + 1].sends == ss[k].sends + [x] && IsLatestTick(es, k + 1, j)
              && x == Send(es[k].now, es[j].price) && x.at - es[j].now < MAX_HEARTBEAT_AGE
    ensures es[k].Tick? ==> ss[k + 1].sends != ss[k].sends
  {
    if ss[k + 1].sends != ss[k].sends {
      var j := LastPriceIsLatestTick(ss, es, k + 1);
      assert ss[k + 1].sends == ss[k].sends + [Send(es[k].now, es[j].price)];
    }
  }

  /** Heartbeat `k` comes while the latest tick `j` is still fresh enough to be replayed. */
  ghost predicate Replays(es: seq<Event>, k: nat, j: nat) {
    k < |es| && es[k].Heartbeat? && IsLatestTick(es, k, j) && es[k].now - es[j].now < 120_000
  }

  lemma {:induction false} TickIsLastPrice(ss: seq<State>, es: seq<Event>, k: nat, j: nat)
    requires IsTrace(ss, es) && k < |ss| && IsLatestTick(es, k, j)
    ensures ss[k].lastPrice == Some(es[j].price) && ss[k].lastExchangeUpdate == es[j].now
  {
    if j < k - 1 {
      TickIsLastPrice(ss, es, k - 1, j);
    }
  }

  /**
   What a step sends, exactly. A tick sends its price; a heartbeat under 120 seconds after the
   latest tick sends that price again; nothing else sends. Either way, and also when a heartbeat
   comes before the first tick, the next heartbeat is due 10 seconds later.
   */
  lemma SendsIff(ss: seq<State>, es: seq<Event>, k: nat)
    requires IsTrace(ss, es) && k < |es|
    ensures es[k].Tick? ==> ss[k + 1].sends == ss[k].sends + [Send(es[k].now, es[k].price)]
    ensures forall j: nat :: Replays(es, k, j) ==> ss[k + 1].sends == ss[k].sends + [Send(es[k].now, es[j].price)]
    ensures ss[k + 1].sends != ss[k].sends <==> es[k].Tick? || exists j: nat :: Replays(es, k, j)
    ensures es[k].Tick? || (es[k].Heartbeat? && ss[k + 1].failed.None?) ==>
              forall t :: Enabled(ss[k + 1], Heartbeat(t)) <==> t >= es[k].now + 10_000
    ensures es[k].Heartbeat? && ss[k].lastPrice.None? ==> ss[k + 1].failed.None?
  {
    forall j: nat | Replays(es, k, j)
      ensures ss[k + 1].sends == ss[k].sends + [Send(es[k].now, es[j].price)]
    {
      TickIsLastPrice(ss, es, k, j);
    }
    if es[k].Heartbeat? && ss[k].lastPrice.Some? && es[k].now - ss[k].lastExchangeUpdate < 120_000 {
      var j := LastPriceIsLatestTick(ss, es, k);
      assert Replays(es, k, j);
    }
  }

  /** Heartbeat `m` replays tick `j` when that is more than 30 seconds old. */
  ghost predicate StalledReplay(es: seq<Event>, j: nat, m: nat) {
    j < m < |es| && es[j].Tick? && es[m].Heartbeat? && 30_000 < es[m].now - es[j].now < 120_000
  }

  /** Since the latest tick `j` there has been a stalled replay. */
  ghost predicate Stalled(es: seq<Event>, k: nat, j: nat) {
    exists m: nat :: m < k && StalledReplay(es, j, m)
  }

  lemma StallStep(s: State, e: Event)
    requires Enabled(s, e)
    ensures Next(s, e).replayStalled
         == if e.Tick? then false
            else s.replayStalled
                 || (e.Heartbeat? && s.lastPrice.Some? && 30_000 < e.now - s.lastExchangeUpdate < 120_000)
    ensures Next(s, e).logs
         == s.logs + if Next(s, e).replayStalled && !s.replayStalled then [Replaying]
                     else if s.replayStalled && !Next(s, e).replayStalled then [Resumed] else []
  {
  }

  lemma {:induction false} StalledIff(ss: seq<State>, es: seq<Event>, k: nat, j: nat)
    requires IsTrace(ss, es) && k < |ss| && IsLatestTick(es, k, j)
    ensures ss[k].replayStalled <==> Stalled(es, k, j)
  {
    hide Next;
    StallStep(ss[k - 1], es[k - 1]);
    if j < k - 1 {
      StalledIff(ss, es, k - 1, j);
      TickIsLastPrice(ss, es, k - 1, j);
      assert ss[k - 1].replayStalled ==> Stalled(es, k - 1, j);
      if es[k - 1].Heartbeat? && 30_000 < es[k - 1].now - es[j].now < 120_000 {
        assert StalledReplay(es, j, k - 1);
      }
    }
  }

  /**
   What a step logs, exactly, after a latest tick `j`: "replaying" iff it is the first stalled
   replay since `j`, "resumed" iff it is a tick and there has been one.
   */
  lemma LogsIff(ss: seq<State>, es: seq<Event>, k: nat, j: nat)
    requires IsTrace(ss, es) && k < |es| && IsLatestTick(es, k, j)
    ensures ss[k + 1].logs == ss[k].logs + [Replaying] <==> StalledReplay(es, j, k) && !Stalled(es, k, j)
    ensures ss[k + 1].logs == ss[k].logs + [Resumed] <==> es[k].Tick? && Stalled(es, k, j)
    ensures ss[k + 1].logs != ss[k].logs ==>
              ss[k + 1].logs == ss[k].logs + [Replaying] || ss[k + 1].logs == ss[k].logs + [Resumed]
  {
    hide Next;
    StallStep(ss[k], es[k]);
    StalledIff(ss, es, k, j);
    TickIsLastPrice(ss, es, k, j);
    assert [Replaying] != [Resumed] by { assert [Replaying][0] != [Resumed][0]; }
    assert ss[k].logs + [Replaying] != ss[k].logs + [Resumed] by {
      assert (ss[k].logs + [Replaying])[|ss[k].logs|] != (ss[k].logs + [Resumed])[|ss[k].logs|];
    }
    assert |ss[k].logs + []| == |ss[k].logs|;
  }

  /** The other failures, each exactly: a deadline before the first tick, a failed keepalive, the stream's own end. */
  lemma FailsIff(ss: seq<State>, es: seq<Event>, k: nat)
    requires IsTrace(ss, es) && k < |es|
    ensures ss[k + 1].failed == Some(NoFirstTick) <==> es[k].AckDeadline?
    ensures es[k].AckDeadline? ==> forall m :: 0 <= m < k ==> !es[m].Tick?
    ensures ss[k + 1].failed == Some(KeepaliveFailed) <==> es[k].Keepalive? && !es[k].ok
    ensures ss[k + 1].failed == Some(StreamFailed) <==> es[k].StreamError?
    ensures ss[k + 1].failed == Some(StreamClosed) <==> es[k].StreamEnd?
    ensures es[k].Keepalive? && es[k].ok ==>
              forall t :: Enabled(ss[k + 1], Keepalive(t, t, true)) <==> t >= es[k].done + 15_000
  {
    if es[k].AckDeadline? {
      TraceKeepsInv(ss, es, k);
      NoTickYet(ss, es, k);
    }
  }

  /** The "replaying" and "resumed" lines strictly alternate, starting with "replaying". */
  lemma LogsAlternate(ss: seq<State>, es: seq<Event>, k: nat)
    requires IsTrace(ss, es) && k < |ss|
    ensures forall i :: 0 <= i < |ss[k].logs| ==> ss[k].logs[i] == if i % 2 == 0 then Replaying else Resumed
    ensures ss[k].replayStalled <==> ss[k].logs != [] && ss[k].logs[|ss[k].logs| - 1] == Replaying
  {
    TraceKeepsInv(ss, es, k);
  }

  /**
   No step, the failing one included, ends more than `lateness` after a timer that was armed
   before it. A keepalive write that blocks the loop counts towards the lateness.
   */
  ghost predicate Timely(ss: seq<State>, es: seq<Event>, lateness: nat)
    requires |ss| == |es| + 1
  {
    forall i :: 0 <= i < |es| ==>
      && ss[i + 1].clock <= ss[i].heartbeatAt + lateness
      && (!ss[i].receivedFirstTick ==> ss[i + 1].clock <= ss[i].ackAt + lateness)
  }

  /**
   Whatever a step does, it is over before the latest tick is 130 seconds old plus the lateness of
   a single timer, so once ticks stop the connection has failed by then: lateness does not add up
   over the heartbeats in between. Before the first tick the bound is 10 seconds from the start.
   */
  lemma DeadBefore130Seconds(ss: seq<State>, es: seq<Event>, k: nat, lateness: nat)
    requires IsTrace(ss, es) && k < |es| && Timely(ss, es, lateness)
    ensures ss[k].receivedFirstTick ==>
              ss[k + 1].clock - ss[k].lastExchangeUpdate < MAX_HEARTBEAT_AGE + HEARTBEAT_INTERVAL + lateness
    ensures !ss[k].receivedFirstTick ==> ss[k + 1].clock - ss[0].clock <= SUBSCRIBE_ACK_TIMEOUT + lateness
  {
    hide Next;
    TraceKeepsInv(ss, es, k);
    AckDeadlineIsFixed(ss, es, k);
  }

  lemma StaleStep(s: State, e: Event)
    requires Enabled(s, e) && Next(s, e).failed.Some? && Next(s, e).failed.value.Stale?
    ensures s.lastPrice.Some? && Next(s, e).failed == Some(Stale(Next(s, e).clock - s.lastExchangeUpdate))
    ensures Next(s, e).failed.value.age >= MAX_HEARTBEAT_AGE
  {
  }

  /** The age a stale connection reports lies between 120 seconds and 130 plus lateness. */
  lemma StaleAgeIsBounded(ss: seq<State>, es: seq<Event>, k: nat, lateness: nat)
    requires IsTrace(ss, es) && k < |es| && Timely(ss, es, lateness)
    requires ss[k + 1].failed.Some? && ss[k + 1].failed.value.Stale?
    ensures MAX_HEARTBEAT_AGE <= ss[k + 1].failed.value.age < MAX_HEARTBEAT_AGE + HEARTBEAT_INTERVAL + lateness
  {
    hide Next;
    StaleStep(ss[k], es[k]);
    TraceKeepsInv(ss, es, k);
    DeadBefore130Seconds(ss, es, k, lateness);
  }

  lemma SendStep(s: State, e: Event)
    requires Enabled(s, e)
    ensures Next(s, e).sends == s.sends
         || (|Next(s, e).sends| == |s.sends| + 1 && Next(s, e).sends[..|s.sends|] == s.sends
             && Next(s, e).sends[|s.sends|].at == Next(s, e).clock)
  {
  }

  /** From the first tick on, every step ends within one heartbeat plus lateness of the last send. */
  lemma ConsumersStayFresh(ss: seq<State>, es: seq<Event>, k: nat, lateness: nat)
    requires IsTrace(ss, es) && k < |es| && Timely(ss, es, lateness) && ss[k].receivedFirstTick
    ensures ss[k].sends != []
    ensures ss[k + 1].clock - ss[k].sends[|ss[k].sends| - 1].at <= HEARTBEAT_INTERVAL + lateness
  {
    hide Next;
    TraceKeepsInv(ss, es, k);
  }

  /** So consumers see a price at least every heartbeat plus lateness: no two sends in a row are further apart. */
  lemma {:induction false} SendGapsAreBounded(ss: seq<State>, es: seq<Event>, k: nat, lateness: nat)
    requires IsTrace(ss, es) && k < |ss| && Timely(ss, es, lateness)
    ensures forall i :: 0 < i < |ss[k].sends| ==>
              ss[k].sends[i].at - ss[k].sends[i - 1].at <= HEARTBEAT_INTERVAL + lateness
  {
    hide Next;
    if k > 0 {
      SendGapsAreBounded(ss, es, k - 1, lateness);
      SendStep(ss[k - 1], es[k - 1]);
      TraceKeepsInv(ss, es, k - 1);
      if ss[k - 1].receivedFirstTick {
        ConsumersStayFresh(ss, es, k - 1, lateness);
      }
      var before, after := ss[k - 1].sends, ss[k].sends;
      assert forall i :: 0 <= i < |before| ==> after[i] == before[i];
    }
  }

  /** A step fails for staleness exactly when it is a heartbeat 120 seconds or more after the latest tick. */
  lemma StaleIff(ss: seq<State>, es: seq<Event>, k: nat)
    requires IsTrace(ss, es) && k < |es|
    ensures (ss[k + 1].failed.Some? && ss[k + 1].failed.value.Stale?)
       <==> es[k].Heartbeat? && exists j: nat :: IsLatestTick(es, k, j) && es[k].now - es[j].now >= MAX_HEARTBEAT_AGE
  {
    if ss[k].lastPrice.Some? {
      var j := LastPriceIsLatestTick(ss, es, k);
      forall j': nat | IsLatestTick(es, k, j') ensures j' == j {
        assert !(j < j') && !(j' < j);
      }
    } else {
      NoTickYet(ss, es, k);
    }
  }

  lemma {:induction false} NoTickYet(ss: seq<State>, es: seq<Event>, k: nat)
    requires IsTrace(ss, es) && k < |ss| && ss[k].lastPrice.None?
    ensures forall m :: 0 <= m < k ==> !es[m].Tick?
  {
    if k > 0 {
      NoTickYet(ss, es, k - 1);
    }
  }

  lemma AckStep(s: State, e: Event)
    requires Enabled(s, e)
    ensures Next(s, e).ackAt == s.ackAt
    ensures Next(s, e).failed == Some(NoFirstTick) ==> e.AckDeadline? && Next(s, e).clock >= s.ackAt
  {
  }

  lemma {:induction false} AckDeadlineIsFixed(ss: seq<State>, es: seq<Event>, k: nat)
    requires IsTrace(ss, es) && k < |ss|
    ensures ss[k].ackAt == ss[0].clock + SUBSCRIBE_ACK_TIMEOUT
  {
    hide Next;
    if k > 0 {
      AckDeadlineIsFixed(ss, es, k - 1);
      AckStep(ss[k - 1], es[k - 1]);
    }
  }

  /** A connection is given up for want of a first tick no earlier than 10 seconds after it was made. */
  lemma NoFirstTickTakesTheTimeout(ss: seq<State>, es: seq<Event>, k: nat)
    requires IsTrace(ss, es) && k < |ss| && ss[k].failed == Some(NoFirstTick)
    ensures ss[k].clock - ss[0].clock >= SUBSCRIBE_ACK_TIMEOUT
  {
    hide Next;
    AckDeadlineIsFixed(ss, es, k - 1);
    AckStep(ss[k - 1], es[k - 1]);
  }
}
