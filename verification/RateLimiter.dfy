/**
 The Fireblocks rate limiter
 (funds-manager/funds-manager-server/src/custody_client/fireblocks_rate_limiter.rs): a token
 bucket with a refill task, a cooldown gate raised by 429 responses, and rolling counters
 drained by a snapshot. Times are nanoseconds on the monotonic clock.

 `FireblocksLimiter` is the shared object; each method is one atomic access of the source.
 `State`, `Event` and `Next` put any number of callers, the refill task and the health
 snapshot around it, one atomic access per event, so that a trace is one interleaving.
 */
module RateLimiter {
  import opened Wrappers

  const NANOS_PER_MS: nat := 1_000_000
  const NANOS_PER_SEC: nat := 1_000_000_000
  const INITIAL_COOLDOWN_SECS: nat := 1
  const MAX_COOLDOWN_SECS: nat := 30

  // ------------------
  // | Cooldown length |
  // ------------------

  function ShiftLeft(x: nat, bits: nat): nat {
    if bits == 0 then x else 2 * ShiftLeft(x, bits - 1)
  }

  /** The cooldown of the n-th consecutive 429. */
  function CooldownSecs(n: nat): nat
    requires n >= 1
  {
    var shift := (if n < 5 then n else 5) - 1;
    var secs := ShiftLeft(INITIAL_COOLDOWN_SECS, shift);
    if secs < MAX_COOLDOWN_SECS then secs else MAX_COOLDOWN_SECS
  }

  /** It doubles from one second up to 16 and stays there: the 30 second cap is never reached. */
  lemma CooldownDoublesToSixteen(n: nat)
    requires n >= 1
    ensures CooldownSecs(1) == 1
    ensures CooldownSecs(n + 1) == if n < 5 then 2 * CooldownSecs(n) else CooldownSecs(n)
    ensures 1 <= CooldownSecs(n) <= 16 && (n >= 5 <==> CooldownSecs(n) == 16)
  {
    var _ := [ShiftLeft(1, 0), ShiftLeft(1, 1), ShiftLeft(1, 2), ShiftLeft(1, 3), ShiftLeft(1, 4)];
    assert ShiftLeft(1, 4) == 2 * ShiftLeft(1, 3) == 4 * ShiftLeft(1, 2) == 8 * ShiftLeft(1, 1) == 16;
  }

  // ---------------------
  // | The shared object |
  // ---------------------

  datatype Shared = Shared(
    permits: nat,
    cooldownUntil: Option<int>,
    consecutive429s: nat,
    throttledWindow: nat,
    peakWaitMsWindow: nat,
    acquiredWindow: nat
  )

  function Later(existing: Option<int>, until: int): Option<int> {
    if existing.None? || existing.value < until then Some(until) else existing
  }

  function Max(a: nat, b: nat): nat {
    if a < b then b else a
  }

  class FireblocksLimiter {
    const capacity: nat
    var permits: nat
    var cooldownUntil: Option<int>
    var consecutive429s: nat
    var throttledWindow: nat
    var peakWaitMsWindow: nat
    var acquiredWindow: nat

    function Abs(): Shared
      reads this
    {
      Shared(permits, cooldownUntil, consecutive429s, throttledWindow, peakWaitMsWindow, acquiredWindow)
    }

    constructor (burstCapacity: nat)
      ensures capacity == burstCapacity
      ensures Abs() == Shared(burstCapacity, None, 0, 0, 0, 0)
    {
      capacity, permits, cooldownUntil, consecutive429s := burstCapacity, burstCapacity, None, 0;
      throttledWindow, peakWaitMsWindow, acquiredWindow := 0, 0, 0;
    }

    /** One access of the refill task: add a token. The test against the capacity came before. */
    method AddPermit()
      modifies this`permits
      ensures Abs() == old(Abs()).(permits := old(permits) + 1)
    {
      permits := permits + 1;
    }

    /** The refill task's test against the capacity. */
    method HasRoom() returns (room: bool)
      ensures room <==> permits < capacity
    {
      room := permits < capacity;
    }

    /** The semaphore hands a token to a waiting caller, which forgets it. */
    method TakePermit()
      requires permits > 0
      modifies this`permits
      ensures Abs() == old(Abs()).(permits := old(permits) - 1)
    {
      permits := permits - 1;
    }

    /** A caller reads the gate under the mutex. */
    method ReadCooldown() returns (deadline: Option<int>)
      ensures deadline == cooldownUntil
    {
      deadline := cooldownUntil;
    }

    method CountAcquired()
      modifies this`acquiredWindow
      ensures Abs() == old(Abs()).(acquiredWindow := old(acquiredWindow) + 1)
    {
      acquiredWindow := acquiredWindow + 1;
    }

    method CountThrottled()
      modifies this`throttledWindow
      ensures Abs() == old(Abs()).(throttledWindow := old(throttledWindow) + 1)
    {
      throttledWindow := throttledWindow + 1;
    }

    method RecordPeak(waitedMs: nat)
      modifies this`peakWaitMsWindow
      ensures Abs() == old(Abs()).(peakWaitMsWindow := Max(old(peakWaitMsWindow), waitedMs))
    {
      if peakWaitMsWindow < waitedMs {
        peakWaitMsWindow := waitedMs;
      }
    }

    /** First half of `on_429`: count it and compute the new deadline. */
    method Count429(now: int) returns (until: int)
      modifies this`consecutive429s
      ensures Abs() == old(Abs()).(consecutive429s := old(consecutive429s) + 1)
      ensures until == now + CooldownSecs(old(consecutive429s) + 1) * NANOS_PER_SEC
    {
      consecutive429s := consecutive429s + 1;
      until := now + CooldownSecs(consecutive429s) * NANOS_PER_SEC;
    }

    /** Second half of `on_429`, under the mutex: push the deadline forward, never back. */
    method PublishCooldown(until: int)
      modifies this`cooldownUntil
      ensures Abs() == old(Abs()).(cooldownUntil := Later(old(cooldownUntil), until))
    {
      if cooldownUntil.None? || cooldownUntil.value < until {
        cooldownUntil := Some(until);
      }
    }

    method OnSuccess()
      modifies this`consecutive429s
      ensures Abs() == old(Abs()).(consecutive429s := 0)
    {
      consecutive429s := 0;
    }

    /** The three swaps of `snapshot_and_reset`; each is its own access in the protocol below. */
    method SwapThrottled() returns (v: nat)
      modifies this`throttledWindow
      ensures v == old(throttledWindow) && Abs() == old(Abs()).(throttledWindow := 0)
    {
      v := throttledWindow;
      throttledWindow := 0;
    }

    method SwapPeak() returns (v: nat)
      modifies this`peakWaitMsWindow
      ensures v == old(peakWaitMsWindow) && Abs() == old(Abs()).(peakWaitMsWindow := 0)
    {
      v := peakWaitMsWindow;
      peakWaitMsWindow := 0;
    }

    method SwapAcquired() returns (v: nat)
      modifies this`acquiredWindow
      ensures v == old(acquiredWindow) && Abs() == old(Abs()).(acquiredWindow := 0)
    {
      v := acquiredWindow;
      acquiredWindow := 0;
    }

    /**
     One event of the protocol carried out on this limiter. Where the callers, the refill task and
     the snapshot stand comes from `s`; what they read and write is this object. Together they are
     the protocol's next state.
     */
    method Perform(s: State, e: Event) returns (s': State)
      requires Enabled(s, e) && s.shared == Abs() && s.capacity == capacity
      modifies this
      ensures s' == Next(s, e) && s'.shared == Abs()
    {
      s' := s.(clock := e.now);
      if ByCaller(e) {
        var phase := PerformCaller(s, e);
        s' := s'.(callers := if phase.Some? then s.callers[e.caller := phase.value] else s.callers - {e.caller});
      } else if e.RefillTick? {
        var room := HasRoom();
        s' := s'.(dueCell := s.Cell(e.now) + 1, adding := room);
      } else if e.RefillAdd? {
        AddPermit();
        s' := s'.(adding := false);
      } else if e.SnapThrottled? {
        var v := SwapThrottled();
        s' := s'.(snap := HasThrottled(v));
      } else if e.SnapPeak? {
        var v := SwapPeak();
        s' := s'.(snap := HasPeak(s.snap.throttled, v));
      } else {
        var v := SwapAcquired();
        s' := s'.(snap := Idle, snapshots := s.snapshots + [Window(s.snap.throttled, s.snap.peak, v)]);
      }
      s' := s'.(shared := Abs());
    }

    /** The events of one caller: the phase it moves to, or `None` once it has left. */
    method PerformCaller(s: State, e: Event) returns (phase: Option<Phase>)
      requires Enabled(s, e) && s.shared == Abs() && ByCaller(e)
      modifies this
      ensures Next(s, e) == s.(clock := e.now, shared := Abs(),
                               callers := if phase.None? then s.callers - {e.caller}
                                          else s.callers[e.caller := phase.value])
    {
      match e {
        case Begin(now, _) =>
          phase := Some(Gating(now, now));
        case GateRead(_, c) =>
          var deadline := ReadCooldown();
          phase := Some(Checking(s.callers[c].start, deadline));
        case GateTest(now, c) =>
          var Checking(start, deadline) := s.callers[c];
          phase := Some(AfterGate(start, deadline, now));
        case Take(_, c) =>
          TakePermit();
          phase := Some(Granted(s.callers[c].start));
        case CountAcquired(now, c) =>
          CountAcquired();
          var waited := (now - s.callers[c].start) / NANOS_PER_MS;
          phase := Some(if waited > 0 then Counted(waited) else Calling);
        case CountThrottled(_, c) =>
          CountThrottled();
          phase := Some(Peaking(s.callers[c].waitedMs));
        case RecordPeak(_, c) =>
          RecordPeak(s.callers[c].waitedMs);
          phase := Some(Calling);
        case Succeed(_, _) =>
          OnSuccess();
          phase := None;
        case FailOther(_, _) =>
          phase := None;
        case Fail429(now, _) =>
          var until := Count429(now);
          phase := Some(Publishing(until));
        case Publish(_, c) =>
          PublishCooldown(s.callers[c].until);
          phase := None;
      }
    }
  }

  // ----------------
  // | The protocol |
  // ----------------

  /** Where a caller of `acquire`, and then of `on_429`, stands. */
  datatype Phase =
    | Gating(start: int, wake: int)
    | Checking(start: int, deadline: Option<int>)
    | Queued(start: int)
    | Granted(start: int)
    | Counted(waitedMs: nat)
    | Peaking(waitedMs: nat)
    | Calling
    | Publishing(until: int)

  /** A gate that is closed puts the caller to sleep until the deadline it read. */
  function AfterGate(start: int, deadline: Option<int>, now: int): Phase {
    if deadline.Some? && now < deadline.value then Gating(start, deadline.value) else Queued(start)
  }

  datatype Snapshotter = Idle | HasThrottled(throttled: nat) | HasPeak(throttled: nat, peak: nat)

  datatype Window = Window(throttled: nat, peak: nat, acquired: nat)

  /** How many whole periods fit in `t`. */
  function Periods(t: nat, period: nat): nat
    requires period > 0
  {
    if t < period then 0 else 1 + Periods(t - period, period)
  }

  /** It is the index of the grid point at or before `t`. */
  lemma {:induction false} PeriodsIsDivision(t: nat, period: nat)
    requires period > 0
    ensures Periods(t, period) * period <= t < (Periods(t, period) + 1) * period
  {
    if t >= period {
      PeriodsIsDivision(t - period, period);
      var n := Periods(t - period, period);
      assert (n + 1) * period == n * period + period && (n + 2) * period == (n + 1) * period + period;
    }
  }

  lemma {:induction false} PeriodsMonotone(a: nat, b: nat, period: nat)
    requires a <= b && period > 0
    ensures Periods(a, period) <= Periods(b, period)
  {
    if a >= period {
      PeriodsMonotone(a - period, b - period, period);
    }
  }

  /** `origin`, `period` and `capacity` are fixed; `dueCell` numbers the next tick of the refill interval. */
  datatype State = State(
    shared: Shared,
    capacity: nat,
    origin: int,
    period: nat,
    clock: int,
    dueCell: nat,
    adding: bool,
    callers: map<nat, Phase>,
    snap: Snapshotter,
    snapshots: seq<Window>
  ) {
    /** The refill interval puts its ticks at `origin + m * period`; this is the cell a time falls in. */
    function Cell(t: int): nat
      requires period > 0
    {
      if t < origin then 0 else Periods(t - origin, period)
    }
  }

  datatype Event =
    | RefillTick(now: int)
    | RefillAdd(now: int)
    | Begin(now: int, caller: nat)
    | GateRead(now: int, caller: nat)
    | GateTest(now: int, caller: nat)
    | Take(now: int, caller: nat)
    | CountAcquired(now: int, caller: nat)
    | CountThrottled(now: int, caller: nat)
    | RecordPeak(now: int, caller: nat)
    | Succeed(now: int, caller: nat)
    | FailOther(now: int, caller: nat)
    | Fail429(now: int, caller: nat)
    | Publish(now: int, caller: nat)
    | SnapThrottled(now: int)
    | SnapPeak(now: int)
    | SnapAcquired(now: int)

  /** The event is a step of some caller, not of the refill task or the snapshot. */
  predicate ByCaller(e: Event) {
    !e.RefillTick? && !e.RefillAdd? && !e.SnapThrottled? && !e.SnapPeak? && !e.SnapAcquired?
  }

  /** The refill interval of the limiter that `new` builds for a rate per second. */
  function RefillInterval(rps: nat): nat
    requires 0 < rps
  {
    NANOS_PER_SEC / rps
  }

  function Init(capacity: nat, period: nat, origin: int): State {
    State(Shared(capacity, None, 0, 0, 0, 0), capacity, origin, period, origin, 0, false, map[], Idle, [])
  }

  predicate Enabled(s: State, e: Event) {
    && s.clock <= e.now && s.period > 0
    && match e
       case RefillTick(now) => !s.adding && s.dueCell <= s.Cell(now)
       case RefillAdd(_) => s.adding
       case Begin(_, c) => c !in s.callers
       case GateRead(now, c) => c in s.callers && s.callers[c].Gating? && s.callers[c].wake <= now
       case GateTest(_, c) => c in s.callers && s.callers[c].Checking?
       case Take(_, c) => c in s.callers && s.callers[c].Queued? && s.shared.permits > 0
       case CountAcquired(now, c) => c in s.callers && s.callers[c].Granted? && s.callers[c].start <= now
       case CountThrottled(_, c) => c in s.callers && s.callers[c].Counted?
       case RecordPeak(_, c) => c in s.callers && s.callers[c].Peaking?
       case Succeed(_, c) => c in s.callers && s.callers[c].Calling?
       case FailOther(_, c) => c in s.callers && s.callers[c].Calling?
       case Fail429(_, c) => c in s.callers && s.callers[c].Calling?
       case Publish(_, c) => c in s.callers && s.callers[c].Publishing?
       case SnapThrottled(_) => s.snap.Idle?
       case SnapPeak(_) => s.snap.HasThrottled?
       case SnapAcquired(_) => s.snap.HasPeak?
  }

  /**
   A missed refill tick is skipped, not made up: the next one is due at the first grid point
   after the tick that fired.
   */
  function Next(s: State, e: Event): State
    requires Enabled(s, e)
  {
    var sh := s.shared;
    var s := s.(clock := e.now);
    match e
    case RefillTick(now) =>
      s.(dueCell := s.Cell(now) + 1, adding := sh.permits < s.capacity)
    case RefillAdd(_) => s.(shared := sh.(permits := sh.permits + 1), adding := false)
    case Begin(now, c) => s.(callers := s.callers[c := Gating(now, now)])
    case GateRead(_, c) => s.(callers := s.callers[c := Checking(s.callers[c].start, sh.cooldownUntil)])
    case GateTest(now, c) =>
      var Checking(start, deadline) := s.callers[c];
      s.(callers := s.callers[c := AfterGate(start, deadline, now)])
    case Take(_, c) =>
      s.(shared := sh.(permits := sh.permits - 1), callers := s.callers[c := Granted(s.callers[c].start)])
    case CountAcquired(now, c) =>
      var waited := (now - s.callers[c].start) / NANOS_PER_MS;
      s.(shared := sh.(acquiredWindow := sh.acquiredWindow + 1),
         callers := s.callers[c := if waited > 0 then Counted(waited) else Calling])
    case CountThrottled(_, c) =>
      s.(shared := sh.(throttledWindow := sh.throttledWindow + 1),
         callers := s.callers[c := Peaking(s.callers[c].waitedMs)])
    case RecordPeak(_, c) =>
      s.(shared := sh.(peakWaitMsWindow := Max(sh.peakWaitMsWindow, s.callers[c].waitedMs)),
         callers := s.callers[c := Calling])
    case Succeed(_, c) => s.(shared := sh.(consecutive429s := 0), callers := s.callers - {c})
    case FailOther(_, c) => s.(callers := s.callers - {c})
    case Fail429(now, c) =>
      s.(shared := sh.(consecutive429s := sh.consecutive429s + 1),
         callers := s.callers[c := Publishing(now + CooldownSecs(sh.consecutive429s + 1) * NANOS_PER_SEC)])
    case Publish(_, c) =>
      s.(shared := sh.(cooldownUntil := Later(sh.cooldownUntil, s.callers[c].until)), callers := s.callers - {c})
    case SnapThrottled(_) => s.(shared := sh.(throttledWindow := 0), snap := HasThrottled(sh.throttledWindow))
    case SnapPeak(_) => s.(shared := sh.(peakWaitMsWindow := 0), snap := HasPeak(s.snap.throttled, sh.peakWaitMsWindow))
    case SnapAcquired(_) =>
      s.(shared := sh.(acquiredWindow := 0), snap := Idle,
         snapshots := s.snapshots + [Window(s.snap.throttled, s.snap.peak, sh.acquiredWindow)])
  }

  ghost predicate IsTrace(ss: seq<State>, es: seq<Event>) {
    && |ss| == |es| + 1
    && ss[0].period > 0 && ss[0] == Init(ss[0].capacity, ss[0].period, ss[0].origin)
    && forall i :: 0 <= i < |es| ==> Enabled(ss[i], es[i]) && ss[i + 1] == Next(ss[i], es[i])
  }

  // ----------------
  // | Token bucket |
  // ----------------

  datatype Kind = Takes | Adds | Ticks | Acquires | Throttles

  predicate Is(e: Event, kind: Kind) {
    match kind
    case Takes => e.Take?
    case Adds => e.RefillAdd?
    case Ticks => e.RefillTick?
    case Acquires => e.CountAcquired?
    case Throttles => e.CountThrottled?
  }

  /** How many of the events from `i` up to `j` are of the kind. */
  function Count(es: seq<Event>, kind: Kind, i: nat, j: nat): nat
    requires i <= j <= |es|
  {
    if i == j then 0 else Count(es, kind, i, j - 1) + if Is(es[j - 1], kind) then 1 else 0
  }

  function One(b: bool): nat {
    if b then 1 else 0
  }

  ghost predicate Fixed(s: State, t: State) {
    s.capacity == t.capacity && s.origin == t.origin && s.period == t.period && s.clock <= t.clock
  }

  lemma BucketStep(s: State, e: Event)
    requires Enabled(s, e)
    ensures var s' := Next(s, e);
            && Fixed(s, s') && s'.clock == e.now
            && s'.shared.permits + One(e.Take?) == s.shared.permits + One(e.RefillAdd?)
            && One(s'.adding) + One(e.RefillAdd?) <= One(s.adding) + One(e.RefillTick?)
            && (s.shared.permits + One(s.adding) <= s.capacity ==> s'.shared.permits + One(s'.adding) <= s'.capacity)
            && (e.RefillTick? ==> s'.dueCell == s.Cell(e.now) + 1 > s.dueCell)
            && (!e.RefillTick? ==> s'.dueCell == s.dueCell)
  {
  }

  lemma {:induction false} TraceFixed(ss: seq<State>, es: seq<Event>, i: nat, j: nat)
    requires IsTrace(ss, es) && i <= j < |ss|
    ensures Fixed(ss[i], ss[j])
  {
    hide Next;
    if i < j {
      TraceFixed(ss, es, i, j - 1);
      BucketStep(ss[j - 1], es[j - 1]);
    }
  }

  /** Even a refill whose capacity test is already behind it fits in the bucket. */
  lemma {:induction false} BucketNeverOverflows(ss: seq<State>, es: seq<Event>, k: nat)
    requires IsTrace(ss, es) && k < |ss|
    ensures ss[k].shared.permits + One(ss[k].adding) <= ss[k].capacity
  {
    hide Next;
    if k > 0 {
      BucketNeverOverflows(ss, es, k - 1);
      BucketStep(ss[k - 1], es[k - 1]);
    }
  }

  /** Tokens are conserved over any stretch of any run, and never exceed the capacity they start at. */
  lemma {:induction false} TokensAreConserved(ss: seq<State>, es: seq<Event>, i: nat, j: nat)
    requires IsTrace(ss, es) && i <= j < |ss|
    ensures ss[j].shared.permits + Count(es, Takes, i, j) == ss[i].shared.permits + Count(es, Adds, i, j)
    ensures ss[j].shared.permits <= ss[j].capacity && ss[0].shared.permits == ss[0].capacity == ss[j].capacity
  {
    hide Next;
    BucketNeverOverflows(ss, es, j);
    TraceFixed(ss, es, 0, j);
    if i < j {
      TokensAreConserved(ss, es, i, j - 1);
      BucketStep(ss[j - 1], es[j - 1]);
    }
  }

  lemma {:induction false} AddsFollowTicks(ss: seq<State>, es: seq<Event>, i: nat, j: nat)
    requires IsTrace(ss, es) && i <= j < |ss|
    ensures Count(es, Adds, i, j) + One(ss[j].adding) <= Count(es, Ticks, i, j) + One(ss[i].adding)
  {
    hide Next;
    if i < j {
      AddsFollowTicks(ss, es, i, j - 1);
      BucketStep(ss[j - 1], es[j - 1]);
    }
  }

  /** The refill cell of the clock only grows. */
  lemma CellsAdvance(ss: seq<State>, es: seq<Event>, i: nat, j: nat)
    requires IsTrace(ss, es) && i <= j < |ss|
    ensures ss[i].period > 0 && Fixed(ss[i], ss[j])
    ensures ss[i].Cell(ss[i].clock) <= ss[i].Cell(ss[j].clock)
  {
    hide Next;
    TraceFixed(ss, es, 0, i);
    TraceFixed(ss, es, i, j);
    PeriodsMonotone(ss[i].clock - ss[i].origin, ss[j].clock - ss[i].origin, ss[i].period);
  }

  lemma DueStep(s: State, e: Event, s': State)
    requires Enabled(s, e) && s' == Next(s, e)
    requires s.dueCell <= s.Cell(s.clock) + 1 && s.Cell(s.clock) <= s.Cell(s'.clock)
    ensures s'.period > 0 && s'.dueCell <= s'.Cell(s'.clock) + 1
  {
    BucketStep(s, e);
  }

  /** The next tick is due at most one cell ahead of the clock. */
  lemma {:induction false} DueIsNear(ss: seq<State>, es: seq<Event>, k: nat)
    requires IsTrace(ss, es) && k < |ss|
    ensures ss[k].period > 0
    ensures ss[k].dueCell <= ss[k].Cell(ss[k].clock) + 1
  {
    hide Next;
    if k > 0 {
      DueIsNear(ss, es, k - 1);
      CellsAdvance(ss, es, k - 1, k);
      DueStep(ss[k - 1], es[k - 1], ss[k]);
    }
  }

  lemma {:induction false} TicksAdvanceDue(ss: seq<State>, es: seq<Event>, i: nat, j: nat)
    requires IsTrace(ss, es) && i <= j < |ss|
    ensures ss[i].period > 0
    ensures Count(es, Ticks, i, j) > 0 ==> ss[j].dueCell >= ss[i].Cell(ss[i].clock) + Count(es, Ticks, i, j)
  {
    hide Next;
    CellsAdvance(ss, es, i, j);
    if i < j {
      TicksAdvanceDue(ss, es, i, j - 1);
      TraceFixed(ss, es, i, j - 1);
      BucketStep(ss[j - 1], es[j - 1]);
    }
  }

  /**
   Acquires never outrun refills: over any stretch of any run the grants number at most the
   capacity plus one for each refill period that the stretch touches.
   */
  lemma GrantsAreBounded(ss: seq<State>, es: seq<Event>, i: nat, j: nat)
    requires IsTrace(ss, es) && i <= j < |ss|
    ensures ss[i].period > 0
    ensures Count(es, Takes, i, j) <= ss[i].capacity + ss[i].Cell(ss[j].clock) - ss[i].Cell(ss[i].clock) + 1
  {
    hide Next;
    TokensAreConserved(ss, es, i, j);
    AddsFollowTicks(ss, es, i, j);
    TicksAdvanceDue(ss, es, i, j);
    BucketNeverOverflows(ss, es, i);
    CellsAdvance(ss, es, i, j);
    DueIsNear(ss, es, j);
  }

  // -----------------
  // | Cooldown gate |
  // -----------------

  ghost predicate Within16s(until: int, clock: int) {
    until <= clock + 16 * NANOS_PER_SEC
  }

  ghost predicate CooldownInv(s: State) {
    && (s.shared.cooldownUntil.Some? ==> Within16s(s.shared.cooldownUntil.value, s.clock))
    && forall c :: c in s.callers && s.callers[c].Publishing? ==> Within16s(s.callers[c].until, s.clock)
  }

  lemma NextKeepsCooldown(s: State, e: Event)
    requires Enabled(s, e) && CooldownInv(s)
    ensures CooldownInv(Next(s, e))
  {
    if e.Fail429? {
      CooldownDoublesToSixteen(s.shared.consecutive429s + 1);
    }
  }

  lemma {:induction false} DeadlineAtMost16sAhead(ss: seq<State>, es: seq<Event>, k: nat)
    requires IsTrace(ss, es) && k < |ss|
    ensures CooldownInv(ss[k])
  {
    hide Next;
    if k > 0 {
      DeadlineAtMost16sAhead(ss, es, k - 1);
      NextKeepsCooldown(ss[k - 1], es[k - 1]);
    }
  }

  /** `until` is what the publishing step `i` of the run publishes. */
  ghost predicate Publishes(ss: seq<State>, es: seq<Event>, i: nat, until: int)
    requires IsTrace(ss, es) && i < |es|
  {
    es[i].Publish? && ss[i].callers[es[i].caller].until == until
  }

  lemma DeadlineStep(s: State, e: Event)
    requires Enabled(s, e)
    ensures Next(s, e).shared.cooldownUntil
         == if e.Publish? then Later(s.shared.cooldownUntil, s.callers[e.caller].until) else s.shared.cooldownUntil
  {
  }

  lemma {:induction false} DeadlineNeverDecreases(ss: seq<State>, es: seq<Event>, i: nat, j: nat)
    requires IsTrace(ss, es) && i <= j < |ss|
    ensures ss[i].shared.cooldownUntil.Some? ==>
              ss[j].shared.cooldownUntil.Some? && ss[i].shared.cooldownUntil.value <= ss[j].shared.cooldownUntil.value
  {
    hide Next;
    if i < j {
      DeadlineNeverDecreases(ss, es, i, j - 1);
      DeadlineStep(ss[j - 1], es[j - 1]);
    }
  }

  /** The deadline is the maximum of what was published so far, and `None` before the first time. */
  lemma {:induction false} DeadlineIsMaximumPublished(ss: seq<State>, es: seq<Event>, k: nat)
    requires IsTrace(ss, es) && k < |ss|
    ensures match ss[k].shared.cooldownUntil
            case None => forall i :: 0 <= i < k ==> !es[i].Publish?
            case Some(d) =>
              && (exists i: nat :: i < k && Publishes(ss, es, i, d))
              && (forall i: nat, u :: i < k && Publishes(ss, es, i, u) ==> u <= d)
  {
    hide Next;
    if k > 0 {
      DeadlineIsMaximumPublished(ss, es, k - 1);
      DeadlineStep(ss[k - 1], es[k - 1]);
      if es[k - 1].Publish? {
        var u := ss[k - 1].callers[es[k - 1].caller].until;
        assert Publishes(ss, es, k - 1, u);
      }
    }
  }

  /** What is known about caller `c` if it began its acquire when the deadline was `d`. */
  ghost predicate Held(s: State, c: nat, d: int) {
    && s.shared.cooldownUntil.Some? && d <= s.shared.cooldownUntil.value
    && c in s.callers
    && match s.callers[c]
       case Gating(_, _) => true
       case Checking(_, deadline) => deadline.Some? && d <= deadline.value
       case Queued(_) => d <= s.clock
       case _ => false
  }

  lemma HeldStep(s: State, e: Event, c: nat, d: int)
    requires Enabled(s, e) && e != Take(e.now, c)
    ensures Held(s, c, d) ==> Held(Next(s, e), c, d)
    ensures e == Begin(e.now, c) && s.shared.cooldownUntil == Some(d) ==> Held(Next(s, e), c, d)
  {
  }

  lemma {:induction false} GateHolds(ss: seq<State>, es: seq<Event>, b: nat, k: nat, d: int)
    requires IsTrace(ss, es) && b < k < |ss|
    requires es[b].Begin? && ss[b].shared.cooldownUntil == Some(d)
    requires forall m :: b < m < k ==> es[m] != Take(es[m].now, es[b].caller)
    ensures Held(ss[k], es[b].caller, d)
  {
    hide Next;
    if b + 1 < k {
      GateHolds(ss, es, b, k - 1, d);
    }
    HeldStep(ss[k - 1], es[k - 1], es[b].caller, d);
  }

  /** Any acquire that begins after a deadline was published is granted no earlier than it. */
  lemma AcquireWaitsOutTheCooldown(ss: seq<State>, es: seq<Event>, b: nat, k: nat, d: int)
    requires IsTrace(ss, es) && b < k < |es|
    requires es[b].Begin? && ss[b].shared.cooldownUntil == Some(d)
    requires es[k] == Take(es[k].now, es[b].caller)
    requires forall m :: b < m < k ==> es[m] != Take(es[m].now, es[b].caller)
    ensures d <= es[k].now
  {
    hide Next;
    GateHolds(ss, es, b, k, d);
  }

  /** What is known about caller `c` if its last look at the gate read `read`. */
  ghost predicate Looked(s: State, c: nat, read: Option<int>) {
    && c in s.callers
    && match s.callers[c]
       case Gating(_, _) => true
       case Checking(_, deadline) => deadline == read
       case Queued(_) => read.Some? ==> read.value <= s.clock
       case _ => false
  }

  lemma LookedStep(s: State, e: Event, c: nat, read: Option<int>)
    requires Enabled(s, e) && e != Take(e.now, c)
    ensures Looked(s, c, read) && e != GateRead(e.now, c) ==> Looked(Next(s, e), c, read)
    ensures e == GateRead(e.now, c) && read == s.shared.cooldownUntil ==> Looked(Next(s, e), c, read)
  {
  }

  lemma {:induction false} QueuedPassedItsDeadline(ss: seq<State>, es: seq<Event>, r: nat, k: nat, c: nat)
    requires IsTrace(ss, es) && r < k < |ss|
    requires es[r] == GateRead(es[r].now, c)
    requires forall m :: r < m < k ==> es[m] != GateRead(es[m].now, c) && es[m] != Take(es[m].now, c)
    ensures Looked(ss[k], c, ss[r].shared.cooldownUntil)
  {
    hide Next;
    if r + 1 < k {
      QueuedPassedItsDeadline(ss, es, r, k - 1, c);
    }
    LookedStep(ss[k - 1], es[k - 1], c, ss[r].shared.cooldownUntil);
  }

  /**
   A grant falls inside the cooldown in force exactly when, between the caller's last look at
   the gate and the grant, some 429 published a deadline that lies beyond the grant.
   */
  lemma GrantInsideCooldownIff(ss: seq<State>, es: seq<Event>, r: nat, k: nat, c: nat)
    requires IsTrace(ss, es) && r < k < |es|
    requires es[r] == GateRead(es[r].now, c) && es[k] == Take(es[k].now, c)
    requires forall m :: r < m < k ==> es[m] != GateRead(es[m].now, c) && es[m] != Take(es[m].now, c)
    ensures (ss[k].shared.cooldownUntil.Some? && es[k].now < ss[k].shared.cooldownUntil.value)
       <==> exists p: nat, u :: r <= p < k && Publishes(ss, es, p, u) && es[k].now < u
  {
    hide Next;
    QueuedPassedItsDeadline(ss, es, r, k, c);
    if ss[k].shared.cooldownUntil.Some? && es[k].now < ss[k].shared.cooldownUntil.value {
      RaisedBetween(ss, es, r, k);
    }
    DeadlineIsMaximumPublished(ss, es, k);
  }

  /** Where a caller comes from: it began, and once past the gate it looked. */
  lemma CallerStep(s: State, e: Event, c: nat)
    requires Enabled(s, e) && c in Next(s, e).callers
    ensures Waits(Next(s, e).callers[c]) ==>
              e == Begin(e.now, c) || (c in s.callers && Waits(s.callers[c]) && e != Take(e.now, c))
    ensures HasLooked(Next(s, e).callers[c]) ==>
              e == GateRead(e.now, c) || (c in s.callers && HasLooked(s.callers[c]) && e != Take(e.now, c))
  {
  }

  predicate Waits(p: Phase) {
    p.Gating? || HasLooked(p)
  }

  predicate HasLooked(p: Phase) {
    p.Checking? || p.Queued?
  }

  lemma {:induction false} BeginOf(ss: seq<State>, es: seq<Event>, k: nat, c: nat) returns (b: nat)
    requires IsTrace(ss, es) && k < |ss| && c in ss[k].callers && Waits(ss[k].callers[c])
    ensures b < k && es[b] == Begin(es[b].now, c)
    ensures forall m :: b < m < k ==> es[m] != Take(es[m].now, c) && es[m] != Begin(es[m].now, c)
  {
    hide Next;
    CallerStep(ss[k - 1], es[k - 1], c);
    if es[k - 1] == Begin(es[k - 1].now, c) {
      b := k - 1;
    } else {
      b := BeginOf(ss, es, k - 1, c);
    }
  }

  lemma {:induction false} LastLook(ss: seq<State>, es: seq<Event>, k: nat, c: nat) returns (r: nat)
    requires IsTrace(ss, es) && k < |ss| && c in ss[k].callers && HasLooked(ss[k].callers[c])
    ensures r < k && es[r] == GateRead(es[r].now, c)
    ensures forall m :: r < m < k ==> es[m] != GateRead(es[m].now, c) && es[m] != Take(es[m].now, c)
  {
    hide Next;
    CallerStep(ss[k - 1], es[k - 1], c);
    if es[k - 1] == GateRead(es[k - 1].now, c) {
      r := k - 1;
    } else {
      r := LastLook(ss, es, k - 1, c);
    }
  }

  /**
   Every grant of every run: it has a beginning `b` and a last look `r` at the gate, it comes no
   earlier than the deadline in force at `b`, and it falls inside a cooldown iff one that lasts
   beyond it was published from `r` on.
   */
  lemma EveryGrant(ss: seq<State>, es: seq<Event>, k: nat) returns (b: nat, r: nat)
    requires IsTrace(ss, es) && k < |es| && es[k].Take?
    ensures b < k && es[b] == Begin(es[b].now, es[k].caller)
    ensures forall m :: b < m < k ==> es[m] != Begin(es[m].now, es[k].caller)
    ensures ss[b].shared.cooldownUntil.Some? ==> ss[b].shared.cooldownUntil.value <= es[k].now
    ensures r < k && es[r] == GateRead(es[r].now, es[k].caller)
    ensures forall m :: r < m < k ==> es[m] != GateRead(es[m].now, es[k].caller)
    ensures (ss[k].shared.cooldownUntil.Some? && es[k].now < ss[k].shared.cooldownUntil.value)
       <==> exists p: nat, u :: r <= p < k && Publishes(ss, es, p, u) && es[k].now < u
  {
    hide Next;
    var c := es[k].caller;
    b := BeginOf(ss, es, k, c);
    r := LastLook(ss, es, k, c);
    GrantInsideCooldownIff(ss, es, r, k, c);
    if ss[b].shared.cooldownUntil.Some? {
      AcquireWaitsOutTheCooldown(ss, es, b, k, ss[b].shared.cooldownUntil.value);
    }
  }

  lemma {:induction false} RaisedBetween(ss: seq<State>, es: seq<Event>, i: nat, j: nat)
    requires IsTrace(ss, es) && i <= j < |ss|
    requires ss[j].shared.cooldownUntil.Some? && ss[i].shared.cooldownUntil != ss[j].shared.cooldownUntil
    ensures exists p: nat :: i <= p < j && Publishes(ss, es, p, ss[j].shared.cooldownUntil.value)
  {
    hide Next;
    DeadlineStep(ss[j - 1], es[j - 1]);
    if ss[j - 1].shared.cooldownUntil == ss[j].shared.cooldownUntil {
      RaisedBetween(ss, es, i, j - 1);
    } else {
      assert Publishes(ss, es, j - 1, ss[j].shared.cooldownUntil.value);
    }
  }

  /**
   The gate, exactly. A caller that tests what it read at its last look `r` goes on to queue for a
   token iff no cooldown was published then or that deadline has passed. If not, its next look
   comes from that deadline on and no earlier.
   */
  lemma GateOpensIff(ss: seq<State>, es: seq<Event>, k: nat) returns (r: nat)
    requires IsTrace(ss, es) && k < |es| && es[k].GateTest?
    ensures r < k && es[r] == GateRead(es[r].now, es[k].caller)
    ensures forall m :: r < m < k ==> es[m] != GateRead(es[m].now, es[k].caller)
    ensures es[k].caller in ss[k + 1].callers
    ensures var deadline, c := ss[r].shared.cooldownUntil, es[k].caller;
            && (ss[k + 1].callers[c].Queued? <==> deadline.None? || deadline.value <= es[k].now)
            && (!ss[k + 1].callers[c].Queued? ==>
                  forall t :: Enabled(ss[k + 1], GateRead(t, c)) <==> deadline.value <= t)
  {
    var c := es[k].caller;
    r := LastLook(ss, es, k, c);
    QueuedPassedItsDeadline(ss, es, r, k, c);
  }

  // --------------------------
  // | Length of the cooldown |
  // --------------------------

  /** The 429s among the first `k` events since the last call that succeeded. */
  function Streak(es: seq<Event>, k: nat): nat
    requires k <= |es|
  {
    if k == 0 || es[k - 1].Succeed? then 0
    else Streak(es, k - 1) + if es[k - 1].Fail429? then 1 else 0
  }

  lemma StreakStep(s: State, e: Event)
    requires Enabled(s, e)
    ensures Next(s, e).shared.consecutive429s
         == if e.Succeed? then 0 else s.shared.consecutive429s + One(e.Fail429?)
    ensures e.Fail429? ==>
              && e.caller in Next(s, e).callers && Next(s, e).callers[e.caller].Publishing?
              && Next(s, e).callers[e.caller].until
                 == e.now + CooldownSecs(s.shared.consecutive429s + 1) * NANOS_PER_SEC
  {
  }

  lemma {:induction false} CounterIsStreak(ss: seq<State>, es: seq<Event>, k: nat)
    requires IsTrace(ss, es) && k < |ss|
    ensures ss[k].shared.consecutive429s == Streak(es, k)
  {
    hide Next;
    if k > 0 {
      CounterIsStreak(ss, es, k - 1);
      StreakStep(ss[k - 1], es[k - 1]);
    }
  }

  /** The n-th 429 in a row of all callers publishes a deadline 1, 2, 4, 8, and from the fifth on 16 seconds ahead. */
  lemma CooldownFollowsTheStreak(ss: seq<State>, es: seq<Event>, k: nat)
    requires IsTrace(ss, es) && k < |es| && es[k].Fail429?
    ensures es[k].caller in ss[k + 1].callers && ss[k + 1].callers[es[k].caller].Publishing?
    ensures var n, until := Streak(es, k) + 1, ss[k + 1].callers[es[k].caller].until;
            until == es[k].now + NANOS_PER_SEC * (if n == 1 then 1 else if n == 2 then 2 else if n == 3 then 4
                                                  else if n == 4 then 8 else 16)
  {
    hide Next;
    CounterIsStreak(ss, es, k);
    StreakStep(ss[k], es[k]);
    var n := Streak(es, k) + 1;
    CooldownDoublesToSixteen(1);
    CooldownDoublesToSixteen(2);
    CooldownDoublesToSixteen(3);
    CooldownDoublesToSixteen(4);
    CooldownDoublesToSixteen(n);
    assert CooldownSecs(1) == 1 && CooldownSecs(2) == 2 && CooldownSecs(3) == 4 && CooldownSecs(4) == 8;
  }

  // -----------
  // | Refills |
  // -----------

  predicate ByRefillTask(e: Event) {
    e.RefillTick? || e.RefillAdd?
  }

  lemma RefillStep(s: State, e: Event)
    requires Enabled(s, e)
    ensures e.RefillTick? ==> (Next(s, e).adding <==> s.shared.permits < s.capacity)
    ensures e.RefillTick? ==> Next(s, e).dueCell == s.Cell(e.now) + 1
    ensures e.RefillAdd? ==> !Next(s, e).adding && Next(s, e).shared.permits == s.shared.permits + 1
    ensures !ByRefillTask(e) ==> Next(s, e).adding == s.adding && Next(s, e).dueCell == s.dueCell
  {
  }

  lemma {:induction false} RefillWaits(ss: seq<State>, es: seq<Event>, k: nat, j: nat)
    requires IsTrace(ss, es) && k < j < |ss| && es[k].RefillTick?
    requires forall m :: k < m < j ==> !ByRefillTask(es[m])
    ensures ss[k].period > 0 && Fixed(ss[k], ss[j])
    ensures ss[j].adding <==> ss[k].shared.permits < ss[k].capacity
    ensures ss[j].dueCell == ss[k].Cell(es[k].now) + 1
  {
    hide Next;
    TraceFixed(ss, es, 0, k);
    TraceFixed(ss, es, k, j);
    RefillStep(ss[j - 1], es[j - 1]);
    if k + 1 < j {
      RefillWaits(ss, es, k, j - 1);
    }
  }

  /**
   What follows a refill tick, exactly. The refill task's next event adds one token iff the bucket
   was below capacity at the tick; and the next tick can come from the next grid point on.
   */
  lemma RefillTickAddsIff(ss: seq<State>, es: seq<Event>, k: nat, j: nat)
    requires IsTrace(ss, es) && k < j < |es| && es[k].RefillTick? && ByRefillTask(es[j])
    requires forall m :: k < m < j ==> !ByRefillTask(es[m])
    ensures es[j].RefillAdd? <==> ss[k].shared.permits < ss[k].capacity
    ensures es[j].RefillAdd? ==> ss[j + 1].shared.permits == ss[j].shared.permits + 1 && !ss[j + 1].adding
    ensures ss[k].period > 0
    ensures es[j].RefillTick? ==> ss[k].Cell(es[j].now) > ss[k].Cell(es[k].now)
    ensures es[j].RefillAdd? ==>
              forall t :: ss[j + 1].clock <= t ==>
                (Enabled(ss[j + 1], RefillTick(t)) <==> ss[k].Cell(t) > ss[k].Cell(es[k].now))
  {
    RefillWaits(ss, es, k, j);
    TraceFixed(ss, es, k, j + 1);
  }

  // --------------------
  // | Rolling counters |
  // --------------------

  function SumThrottled(ws: seq<Window>): nat {
    if ws == [] then 0 else SumThrottled(ws[..|ws| - 1]) + ws[|ws| - 1].throttled
  }

  function SumAcquired(ws: seq<Window>): nat {
    if ws == [] then 0 else SumAcquired(ws[..|ws| - 1]) + ws[|ws| - 1].acquired
  }

  /** The caller has counted its acquire and not yet that it waited. */
  predicate Owes(callers: map<nat, Phase>, c: nat) {
    c in callers && callers[c].Counted?
  }

  /** The callers that have counted their acquire and still owe the throttled count. */
  function Owing(callers: map<nat, Phase>): set<nat> {
    set c | c in callers && Owes(callers, c)
  }

  function InFlight(snap: Snapshotter): nat {
    if snap.Idle? then 0 else snap.throttled
  }

  /** Every count sits in exactly one place, and the acquire of a throttled caller is counted first. */
  ghost predicate CountersInv(s: State, acquires: nat, throttles: nat, owing: nat) {
    && acquires == SumAcquired(s.snapshots) + s.shared.acquiredWindow
    && throttles == SumThrottled(s.snapshots) + InFlight(s.snap) + s.shared.throttledWindow
    && throttles + owing <= acquires
    && SumThrottled(s.snapshots) <= SumAcquired(s.snapshots)
  }

  lemma SumAppend(ws: seq<Window>, w: Window)
    ensures SumThrottled(ws + [w]) == SumThrottled(ws) + w.throttled
    ensures SumAcquired(ws + [w]) == SumAcquired(ws) + w.acquired
  {
    assert (ws + [w])[..|ws|] == ws;
  }

  /** The event counts an acquire that did not wait, so that no throttled count follows. */
  predicate Prompt(s: State, e: Event) {
    && e.CountAcquired? && e.caller in s.callers && s.callers[e.caller].Granted?
    && 0 <= e.now - s.callers[e.caller].start < NANOS_PER_MS
  }

  /** A caller starts to owe when it counts an acquire that waited, and stops when it counts that. */
  lemma OwesStep(s: State, e: Event, c: nat)
    requires Enabled(s, e)
    ensures Owes(Next(s, e).callers, c)
         == if e.CountAcquired? && e.caller == c then !Prompt(s, e)
            else if e.CountThrottled? && e.caller == c then false
            else Owes(s.callers, c)
    ensures e.CountAcquired? ==> !Owes(s.callers, e.caller)
    ensures e.CountThrottled? ==> Owes(s.callers, e.caller)
  {
  }

  lemma SameOwing(m: map<nat, Phase>, m': map<nat, Phase>)
    requires forall c :: Owes(m, c) == Owes(m', c)
    ensures Owing(m) == Owing(m')
  {
    forall c ensures c in Owing(m) <==> c in Owing(m') {
      assert Owes(m, c) == Owes(m', c);
    }
  }

  lemma OneMoreOwing(m: map<nat, Phase>, m': map<nat, Phase>, x: nat)
    requires !Owes(m, x) && Owes(m', x) && forall c :: c != x ==> Owes(m, c) == Owes(m', c)
    ensures |Owing(m')| == |Owing(m)| + 1
  {
    forall c ensures c in Owing(m') <==> c in Owing(m) + {x} {
      assert c != x ==> Owes(m, c) == Owes(m', c);
    }
    assert Owing(m') == Owing(m) + {x};
  }

  lemma OwingStep(s: State, e: Event)
    requires Enabled(s, e)
    ensures var o, o' := Owing(s.callers), Owing(Next(s, e).callers);
            |o'| + One(e.CountThrottled?) + One(Prompt(s, e)) == |o| + One(e.CountAcquired?)
  {
    assert Prompt(s, e) ==> e.CountAcquired?;
    hide Next, Enabled, Owing, Prompt, Owes;
    var m, m' := s.callers, Next(s, e).callers;
    forall c: nat ensures Owes(m', c)
         == if e.CountAcquired? && e.caller == c then !Prompt(s, e)
            else if e.CountThrottled? && e.caller == c then false
            else Owes(m, c)
    {
      OwesStep(s, e, c);
    }
    OwesStep(s, e, 0);
    if e.CountAcquired? && !Prompt(s, e) {
      OneMoreOwing(m, m', e.caller);
    } else if e.CountThrottled? {
      OneMoreOwing(m', m, e.caller);
    } else {
      SameOwing(m, m');
    }
  }

  lemma NextKeepsCounters(s: State, e: Event, acquires: nat, throttles: nat, owing: nat, owing': nat)
    requires Enabled(s, e) && CountersInv(s, acquires, throttles, owing)
    requires owing' + One(e.CountThrottled?) <= owing + One(e.CountAcquired?)
    ensures CountersInv(Next(s, e), acquires + One(e.CountAcquired?), throttles + One(e.CountThrottled?), owing')
  {
    if e.SnapAcquired? {
      SumAppend(s.snapshots, Window(s.snap.throttled, s.snap.peak, s.shared.acquiredWindow));
    }
  }

  /**
   No acquire is lost or counted twice across snapshots taken at any moment, and the totals
   over all completed snapshots never show more throttled than acquired calls.
   */
  lemma {:induction false} SnapshotsAddUp(ss: seq<State>, es: seq<Event>, k: nat)
    requires IsTrace(ss, es) && k < |ss|
    ensures CountersInv(ss[k], Count(es, Acquires, 0, k), Count(es, Throttles, 0, k), |Owing(ss[k].callers)|)
  {
    hide Next;
    if k > 0 {
      SnapshotsAddUp(ss, es, k - 1);
      OwingStep(ss[k - 1], es[k - 1]);
      NextKeepsCounters(ss[k - 1], es[k - 1], Count(es, Acquires, 0, k - 1), Count(es, Throttles, 0, k - 1),
                        |Owing(ss[k - 1].callers)|, |Owing(ss[k].callers)|);
    } else {
      assert Owing(map[]) == {};
    }
  }

  function CountPrompt(ss: seq<State>, es: seq<Event>, i: nat, j: nat): nat
    requires i <= j <= |es| < |ss|
  {
    if i == j then 0 else CountPrompt(ss, es, i, j - 1) + One(Prompt(ss[j - 1], es[j - 1]))
  }

  /** Over any stretch, each acquire that waited is followed by its throttled count or still owes it. */
  lemma {:induction false} OwingBalance(ss: seq<State>, es: seq<Event>, i: nat, j: nat)
    requires IsTrace(ss, es) && i <= j < |ss|
    ensures |Owing(ss[j].callers)| + Count(es, Throttles, i, j) + CountPrompt(ss, es, i, j)
         == |Owing(ss[i].callers)| + Count(es, Acquires, i, j)
  {
    hide Next, Owing, Prompt;
    if i < j {
      OwingBalance(ss, es, i, j - 1);
      OwingStep(ss[j - 1], es[j - 1]);
    }
  }

  lemma {:induction false} CountSplit(es: seq<Event>, kind: Kind, i: nat, m: nat, j: nat)
    requires i <= m <= j <= |es|
    ensures Count(es, kind, i, j) == Count(es, kind, i, m) + Count(es, kind, m, j)
  {
    if m < j {
      CountSplit(es, kind, i, m, j - 1);
    }
  }

  predicate Swaps(e: Event) {
    e.SnapThrottled? || e.SnapAcquired?
  }

  /** One snapshot: it drains the throttled count at `t` and the acquired count at `a`. */
  predicate Drains(es: seq<Event>, t: nat, a: nat) {
    t < a < |es| && es[t].SnapThrottled? && es[a].SnapAcquired? && forall m :: t < m < a ==> !Swaps(es[m])
  }

  lemma CounterStep(s: State, e: Event)
    requires Enabled(s, e)
    ensures var s' := Next(s, e);
            && s'.shared.throttledWindow
               == (if e.SnapThrottled? then 0 else s.shared.throttledWindow + One(e.CountThrottled?))
            && s'.shared.acquiredWindow
               == (if e.SnapAcquired? then 0 else s.shared.acquiredWindow + One(e.CountAcquired?))
            && InFlight(s'.snap)
               == (if e.SnapThrottled? then s.shared.throttledWindow
                   else if e.SnapAcquired? then 0 else InFlight(s.snap))
            && (e.SnapAcquired? ==> |s'.snapshots| == |s.snapshots| + 1 && s'.snapshots[..|s.snapshots|] == s.snapshots
                                    && s'.snapshots[|s.snapshots|].throttled == InFlight(s.snap)
                                    && s'.snapshots[|s.snapshots|].acquired == s.shared.acquiredWindow)
            && (!e.SnapAcquired? ==> s'.snapshots == s.snapshots)
  {
  }

  /** What the throttled counter has gathered since it was last drained at `t`, or since the start. */
  lemma {:induction false} ThrottledSince(ss: seq<State>, es: seq<Event>, t: nat, k: nat)
    requires IsTrace(ss, es) && t <= k < |ss| && forall m :: t < m < k ==> !es[m].SnapThrottled?
    requires (t < k && es[t].SnapThrottled?) || (t == 0 && (0 < k ==> !es[0].SnapThrottled?))
    ensures ss[k].shared.throttledWindow == Count(es, Throttles, t, k)
  {
    hide Next;
    if t < k {
      CounterStep(ss[k - 1], es[k - 1]);
      if t < k - 1 || !es[t].SnapThrottled? {
        ThrottledSince(ss, es, t, k - 1);
      }
    }
  }

  lemma {:induction false} AcquiredSince(ss: seq<State>, es: seq<Event>, a: nat, k: nat)
    requires IsTrace(ss, es) && a <= k < |ss| && forall m :: a < m < k ==> !es[m].SnapAcquired?
    requires (a < k && es[a].SnapAcquired?) || (a == 0 && (0 < k ==> !es[0].SnapAcquired?))
    ensures ss[k].shared.acquiredWindow == Count(es, Acquires, a, k)
  {
    hide Next;
    if a < k {
      CounterStep(ss[k - 1], es[k - 1]);
      if a < k - 1 || !es[a].SnapAcquired? {
        AcquiredSince(ss, es, a, k - 1);
      }
    }
  }

  /** The throttled count a snapshot took at `t` is the one it reports. */
  lemma {:induction false} InFlightSince(ss: seq<State>, es: seq<Event>, t: nat, k: nat)
    requires IsTrace(ss, es) && t < k < |ss| && es[t].SnapThrottled? && forall m :: t < m < k ==> !Swaps(es[m])
    ensures InFlight(ss[k].snap) == ss[t].shared.throttledWindow
  {
    hide Next;
    CounterStep(ss[k - 1], es[k - 1]);
    if t < k - 1 {
      InFlightSince(ss, es, t, k - 1);
    }
  }

  lemma {:induction false} SnapshotsBetween(ss: seq<State>, es: seq<Event>, i: nat, j: nat)
    requires IsTrace(ss, es) && i <= j < |ss| && forall m :: i <= m < j ==> !es[m].SnapAcquired?
    ensures ss[j].snapshots == ss[i].snapshots
  {
    hide Next;
    if i < j {
      SnapshotsBetween(ss, es, i, j - 1);
      CounterStep(ss[j - 1], es[j - 1]);
    }
  }

  /** The first window never shows more throttled than acquired calls. */
  lemma FirstWindowIsConsistent(ss: seq<State>, es: seq<Event>, t: nat, a: nat)
    requires IsTrace(ss, es) && Drains(es, t, a) && forall m :: 0 <= m < t ==> !Swaps(es[m])
    ensures |ss[a + 1].snapshots| == 1
    ensures var w := ss[a + 1].snapshots[0];
            && w.throttled == Count(es, Throttles, 0, t) && w.acquired == Count(es, Acquires, 0, a)
            && w.throttled <= w.acquired
  {
    hide Next;
    SnapshotsBetween(ss, es, 0, a);
    CounterStep(ss[a], es[a]);
    ThrottledSince(ss, es, 0, t);
    InFlightSince(ss, es, t, a);
    AcquiredSince(ss, es, 0, a);
    OwingBalance(ss, es, 0, t);
    CountSplit(es, Acquires, 0, t, a);
    assert Owing(ss[0].callers) == {};
  }

  /**
   Every later window, exactly. It reports the throttled counts between the two throttled swaps and
   the acquires between the two acquired swaps. It shows more throttled than acquired calls iff
   the counts that fell between the swaps of the previous snapshot, with those still owed then,
   outnumber what this snapshot leaves behind: counts still owed, acquires that did not wait, and
   acquires between its own swaps. So the excess is at most the callers that were between their
   two updates while the previous snapshot drained.
   */
  lemma WindowShowsMoreThrottledIff(ss: seq<State>, es: seq<Event>, t1: nat, a1: nat, t2: nat, a2: nat)
    requires IsTrace(ss, es) && Drains(es, t1, a1) && Drains(es, t2, a2) && a1 < t2
    requires forall m :: a1 < m < t2 ==> !Swaps(es[m])
    ensures |ss[a2 + 1].snapshots| == |ss[a1 + 1].snapshots| + 1
    ensures var w := ss[a2 + 1].snapshots[|ss[a1 + 1].snapshots|];
            var caught := Count(es, Throttles, t1, a1) + |Owing(ss[a1].callers)|;
            && w.throttled == Count(es, Throttles, t1, t2) && w.acquired == Count(es, Acquires, a1, a2)
            && (w.throttled > w.acquired
                <==> caught > |Owing(ss[t2].callers)| + CountPrompt(ss, es, a1, t2) + Count(es, Acquires, t2, a2))
            && w.throttled <= w.acquired + caught
            && caught + CountPrompt(ss, es, t1, a1) == |Owing(ss[t1].callers)| + Count(es, Acquires, t1, a1)
  {
    hide Next, Count, CountPrompt;
    SnapshotsBetween(ss, es, a1 + 1, a2);
    CounterStep(ss[a2], es[a2]);
    ThrottledSince(ss, es, t1, t2);
    InFlightSince(ss, es, t2, a2);
    AcquiredSince(ss, es, a1, a2);
    OwingBalance(ss, es, t1, a1);
    OwingBalance(ss, es, a1, t2);
    CountSplit(es, Throttles, t1, a1, t2);
    CountSplit(es, Acquires, a1, t2, a2);
  }

  // ----------------
  // | Longest wait |
  // ----------------

  /** What a caller carries after it was counted is the time from its beginning to that count. */
  ghost predicate WaitOf(s: State, c: nat, start: int, counted: Option<int>) {
    && c in s.callers
    && match s.callers[c]
       case Gating(st, _) => st == start && counted.None?
       case Checking(st, _) => st == start && counted.None?
       case Queued(st) => st == start && counted.None?
       case Granted(st) => st == start && counted.None?
       case Counted(ms) => counted.Some? && ms == (counted.value - start) / NANOS_PER_MS
       case Peaking(ms) => counted.Some? && ms == (counted.value - start) / NANOS_PER_MS
       case _ => true
  }

  /** The caller is anywhere between the beginning of its acquire and the record of its wait. */
  predicate InAcquire(p: Phase) {
    !p.Calling? && !p.Publishing?
  }

  lemma WaitStep(s: State, e: Event, c: nat, start: int, counted: Option<int>)
    requires Enabled(s, e) && c in Next(s, e).callers && InAcquire(Next(s, e).callers[c])
    ensures e == Begin(e.now, c) || (c in s.callers && InAcquire(s.callers[c]))
    ensures e == Begin(e.now, c) ==> WaitOf(Next(s, e), c, e.now, None)
    ensures e != Begin(e.now, c) && WaitOf(s, c, start, counted) ==>
              WaitOf(Next(s, e), c, start, if e == CountAcquired(e.now, c) then Some(e.now) else counted)
  {
  }

  /** Where a caller inside `acquire` began, and when its acquire was counted if it was. */
  lemma {:induction false} WaitSince(ss: seq<State>, es: seq<Event>, k: nat, c: nat)
    returns (b: nat, counted: Option<nat>)
    requires IsTrace(ss, es) && k < |ss| && c in ss[k].callers && InAcquire(ss[k].callers[c])
    ensures b < k && es[b] == Begin(es[b].now, c) && forall m :: b < m < k ==> es[m] != Begin(es[m].now, c)
    ensures counted.Some? ==> b < counted.value < k && es[counted.value] == CountAcquired(es[counted.value].now, c)
    ensures WaitOf(ss[k], c, es[b].now, if counted.Some? then Some(es[counted.value].now) else None)
  {
    hide Next, WaitOf, InAcquire;
    var e := es[k - 1];
    WaitStep(ss[k - 1], e, c, 0, None);
    if e == Begin(e.now, c) {
      b, counted := k - 1, None;
    } else {
      b, counted := WaitSince(ss, es, k - 1, c);
      WaitStep(ss[k - 1], e, c, es[b].now, if counted.Some? then Some(es[counted.value].now) else None);
      if e == CountAcquired(e.now, c) {
        counted := Some(k - 1);
      }
    }
  }

  predicate OfCaller(e: Event, c: nat) {
    ByCaller(e) && e.caller == c
  }

  lemma OthersLeaveAlone(s: State, e: Event, c: nat)
    requires Enabled(s, e) && !OfCaller(e, c)
    ensures c in Next(s, e).callers <==> c in s.callers
    ensures c in s.callers ==> Next(s, e).callers[c] == s.callers[c]
  {
  }

  lemma {:induction false} CallerStands(ss: seq<State>, es: seq<Event>, k: nat, j: nat, c: nat)
    requires IsTrace(ss, es) && k <= j < |ss| && forall m :: k <= m < j ==> !OfCaller(es[m], c)
    ensures c in ss[j].callers <==> c in ss[k].callers
    ensures c in ss[k].callers ==> ss[j].callers[c] == ss[k].callers[c]
  {
    hide Next;
    if k < j {
      CallerStands(ss, es, k, j - 1, c);
      OthersLeaveAlone(ss[j - 1], es[j - 1], c);
    }
  }

  predicate Ends(e: Event) {
    e.Succeed? || e.FailOther? || e.Fail429?
  }

  /** Two consecutive events of one caller, the second in the phase that the first left. */
  lemma OrderStep(s: State, e: Event, s2: State, e2: Event, c: nat)
    requires Enabled(s, e) && OfCaller(e, c) && Enabled(s2, e2) && OfCaller(e2, c)
    requires c in Next(s, e).callers <==> c in s2.callers
    requires c in s2.callers ==> s2.callers[c] == Next(s, e).callers[c]
    ensures e.Begin? ==> e2.GateRead?
    ensures e.GateRead? ==> e2.GateTest?
    ensures e.GateTest? ==> e2.GateRead? || e2.Take?
    ensures e.Take? ==> e2.CountAcquired?
    ensures e.CountAcquired? ==> if Prompt(s, e) then Ends(e2) else e2.CountThrottled?
    ensures e.CountThrottled? ==> e2.RecordPeak?
    ensures e.RecordPeak? ==> Ends(e2)
    ensures e.Fail429? ==> e2.Publish?
    ensures e.Succeed? || e.FailOther? || e.Publish? ==> e2.Begin?
  {
  }

  /**
   The order of one caller's accesses, `k` and `j` being consecutive ones: look, test, look again or
   take, count the acquire. A caller that spent a millisecond or more since its beginning then counts
   as throttled and records its wait; any other does not. A 429 is always published.
   */
  lemma AcquireOrder(ss: seq<State>, es: seq<Event>, k: nat, j: nat, c: nat)
    requires IsTrace(ss, es) && k < j < |es| && OfCaller(es[k], c) && OfCaller(es[j], c)
    requires forall m :: k < m < j ==> !OfCaller(es[m], c)
    ensures es[k].Begin? ==> es[j].GateRead?
    ensures es[k].GateRead? ==> es[j].GateTest?
    ensures es[k].GateTest? ==> es[j].GateRead? || es[j].Take?
    ensures es[k].Take? ==> es[j].CountAcquired?
    ensures es[k].CountAcquired? ==>
              exists b: nat ::
                && b < k && es[b] == Begin(es[b].now, c) && (forall m :: b < m < k ==> es[m] != Begin(es[m].now, c))
                && if es[k].now - es[b].now >= NANOS_PER_MS then es[j].CountThrottled? else Ends(es[j])
    ensures es[k].CountThrottled? ==> es[j].RecordPeak?
    ensures es[k].RecordPeak? ==> Ends(es[j])
    ensures es[k].Fail429? ==> es[j].Publish?
    ensures es[k].Succeed? || es[k].FailOther? || es[k].Publish? ==> es[j].Begin?
  {
    hide Next, WaitOf;
    CallerStands(ss, es, k + 1, j, c);
    OrderStep(ss[k], es[k], ss[j], es[j], c);
    if es[k].CountAcquired? {
      var b, counted := WaitSince(ss, es, k, c);
      GrantedSince(ss[k], c, es[b].now, if counted.Some? then Some(es[counted.value].now) else None);
    }
  }

  lemma GrantedSince(s: State, c: nat, start: int, counted: Option<int>)
    requires WaitOf(s, c, start, counted) && s.callers[c].Granted?
    ensures s.callers[c].start == start
  {
  }

  /** A caller that begins may look at the gate at once. */
  lemma BeginLooksAtOnce(ss: seq<State>, es: seq<Event>, k: nat, t: int)
    requires IsTrace(ss, es) && k < |es| && es[k].Begin?
    ensures Enabled(ss[k + 1], GateRead(t, es[k].caller)) <==> t >= es[k].now
  {
    TraceFixed(ss, es, 0, k + 1);
  }

  /** Event `i` records a wait of `ms` milliseconds. */
  ghost predicate Records(ss: seq<State>, es: seq<Event>, i: nat, ms: nat)
    requires IsTrace(ss, es) && i < |es|
  {
    es[i].RecordPeak? && ss[i].callers[es[i].caller].waitedMs == ms
  }

  /** A recorded wait is the whole time from the beginning of the acquire to its count, in milliseconds. */
  lemma RecordedWaitIsReal(ss: seq<State>, es: seq<Event>, i: nat, ms: nat) returns (b: nat, a: nat)
    requires IsTrace(ss, es) && i < |es| && Records(ss, es, i, ms)
    ensures b < a < i && es[b] == Begin(es[b].now, es[i].caller) && es[a] == CountAcquired(es[a].now, es[i].caller)
    ensures forall m :: b < m < i ==> es[m] != Begin(es[m].now, es[i].caller)
    ensures ms == (es[a].now - es[b].now) / NANOS_PER_MS
  {
    hide Next;
    var counted;
    b, counted := WaitSince(ss, es, i, es[i].caller);
    a := counted.value;
  }

  lemma PeakStep(s: State, e: Event)
    requires Enabled(s, e)
    ensures var p, p' := s.shared.peakWaitMsWindow, Next(s, e).shared.peakWaitMsWindow;
            if e.SnapPeak? then p' == 0 && Next(s, e).snap.HasPeak? && Next(s, e).snap.peak == p
            else if e.RecordPeak? then
              var w := s.callers[e.caller].waitedMs; p <= p' && w <= p' && (p' == p || p' == w)
            else p' == p
  {
  }

  /**
   The peak a snapshot takes at `k` is the longest wait recorded since the peak was last taken at
   `p`, or since the start, and zero if there was none.
   */
  lemma {:induction false} PeakIsLongestWait(ss: seq<State>, es: seq<Event>, p: nat, k: nat)
    requires IsTrace(ss, es) && p <= k < |ss| && forall m :: p < m < k ==> !es[m].SnapPeak?
    requires (p < k && es[p].SnapPeak?) || (p == 0 && (0 < k ==> !es[0].SnapPeak?))
    ensures forall i: nat, ms: nat :: p <= i < k && Records(ss, es, i, ms) ==> ms <= ss[k].shared.peakWaitMsWindow
    ensures ss[k].shared.peakWaitMsWindow == 0
         || exists i: nat :: p <= i < k && Records(ss, es, i, ss[k].shared.peakWaitMsWindow)
    ensures k < |es| && es[k].SnapPeak? ==>
              ss[k + 1].snap.HasPeak? && ss[k + 1].snap.peak == ss[k].shared.peakWaitMsWindow
  {
    hide Next;
    if k < |es| {
      PeakStep(ss[k], es[k]);
    }
    if p < k {
      PeakStep(ss[k - 1], es[k - 1]);
      if p < k - 1 || !es[p].SnapPeak? {
        PeakIsLongestWait(ss, es, p, k - 1);
        if es[k - 1].RecordPeak? {
          assert Records(ss, es, k - 1, ss[k - 1].callers[es[k - 1].caller].waitedMs);
        }
      }
    }
  }

  lemma Extend(ss: seq<State>, es: seq<Event>, e: Event) returns (ss': seq<State>, es': seq<Event>)
    requires IsTrace(ss, es) && Enabled(ss[|es|], e)
    ensures IsTrace(ss', es') && es' == es + [e] && ss' == ss + [Next(ss[|es|], e)]
  {
    ss', es' := ss + [Next(ss[|es|], e)], es + [e];
  }

  lemma OneCallingOneQueued() returns (ss: seq<State>, es: seq<Event>)
    ensures IsTrace(ss, es) && |es| == 8 && es[6] == GateRead(0, 2) && es[7] == GateTest(0, 2)
    ensures var s := ss[8]; s.shared == Shared(29, None, 0, 0, 0, 1) && s.clock == 0 && s.period > 0
                            && s.callers == map[1 := Calling, 2 := Queued(0)]
  {
    ss, es := [Init(30, RefillInterval(15), 0)], [];
    ss, es := Extend(ss, es, Begin(0, 1));
    ss, es := Extend(ss, es, GateRead(0, 1));
    ss, es := Extend(ss, es, GateTest(0, 1));
    ss, es := Extend(ss, es, Take(0, 1));
    ss, es := Extend(ss, es, CountAcquired(0, 1));
    ss, es := Extend(ss, es, Begin(0, 2));
    ss, es := Extend(ss, es, GateRead(0, 2));
    ss, es := Extend(ss, es, GateTest(0, 2));
  }

  /** It does happen: a caller that is already queued for a token is granted one in a fresh cooldown. */
  lemma GrantInsideCooldownHappens()
    ensures exists ss: seq<State>, es: seq<Event> :: IsTrace(ss, es) && |es| == 11 && es[10] == Take(0, 2)
              && ss[10].shared.cooldownUntil == Some(NANOS_PER_SEC)
  {
    var ss, es := OneCallingOneQueued();
    CooldownDoublesToSixteen(1);
    ss, es := Extend(ss, es, Fail429(0, 1));
    ss, es := Extend(ss, es, Publish(0, 1));
    ss, es := Extend(ss, es, Take(0, 2));
  }

  lemma ThrottledCallerCounts() returns (ss: seq<State>, es: seq<Event>)
    ensures IsTrace(ss, es)
    ensures var s := ss[|es|]; s.shared == Shared(29, None, 0, 0, 0, 1) && s.snap == Idle && s.snapshots == []
                               && s.callers == map[7 := Counted(1)] && s.clock == NANOS_PER_MS && s.period > 0
  {
    ss, es := [Init(30, RefillInterval(15), 0)], [];
    ss, es := Extend(ss, es, Begin(0, 7));
    ss, es := Extend(ss, es, GateRead(0, 7));
    ss, es := Extend(ss, es, GateTest(0, 7));
    ss, es := Extend(ss, es, Take(NANOS_PER_MS, 7));
    ss, es := Extend(ss, es, CountAcquired(NANOS_PER_MS, 7));
  }

  lemma TakeSnapshot(ss: seq<State>, es: seq<Event>) returns (ss': seq<State>, es': seq<Event>)
    requires IsTrace(ss, es) && ss[|es|].snap == Idle && ss[|es|].period > 0
    ensures IsTrace(ss', es')
    ensures var s := ss[|es|];
            var w := Window(s.shared.throttledWindow, s.shared.peakWaitMsWindow, s.shared.acquiredWindow);
            ss'[|es'|] == s.(shared := s.shared.(throttledWindow := 0, peakWaitMsWindow := 0, acquiredWindow := 0),
                             snapshots := s.snapshots + [w])
  {
    var now := ss[|es|].clock;
    ss', es' := Extend(ss, es, SnapThrottled(now));
    ss', es' := Extend(ss', es', SnapPeak(now));
    ss', es' := Extend(ss', es', SnapAcquired(now));
  }

  /** One window alone can show a throttled call and no acquired one. */
  lemma OneWindowCanShowMoreThrottled()
    ensures exists ss: seq<State>, es: seq<Event> ::
              IsTrace(ss, es) && ss[|es|].snapshots == [Window(0, 0, 1), Window(1, 0, 0)]
  {
    var ss, es := ThrottledCallerCounts();
    ss, es := TakeSnapshot(ss, es);
    ss, es := Extend(ss, es, CountThrottled(NANOS_PER_MS, 7));
    ss, es := TakeSnapshot(ss, es);
    assert ss[|es|].snapshots == [Window(0, 0, 1), Window(1, 0, 0)];
  }
}
