/**
 The pool runner: routing an order into a managed pool and back
 (pool-runner/src/server/runner.rs), with the registry of fill waiters
 (pool-runner/src/fill_waiter.rs) that the websocket listener notifies.

 `FillWaiterRegistry` is the shared registry. `State`, `Event` and `Next` interleave any number
 of routing tasks, for any orders, with fill notifications; each event is one access to the
 registry, to the relayer or to the task's own channel.
 */
module PoolRunner {
  import opened Wrappers

  type OrderId = string

  /** A routing task; its one-shot channel goes by the same name. */
  type TaskId = nat

  // ------------------
  // | Pool selection |
  // ------------------

  datatype ManagedPool = ManagedPool(
    name: string,
    baseTickers: seq<string>,
    minValueUsd: real,
    maxValueUsd: Option<real>
  )

  predicate Eligible(p: ManagedPool, ticker: string, value: real) {
    ticker in p.baseTickers && value >= p.minValueUsd && (p.maxValueUsd.Some? ==> value <= p.maxValueUsd.value)
  }

  /** The first eligible pool, searched front to back. */
  function SelectManagedPool(pools: seq<ManagedPool>, ticker: string, value: real): (r: Option<nat>)
    ensures r.None? ==> forall i :: 0 <= i < |pools| ==> !Eligible(pools[i], ticker, value)
    ensures r.Some? ==>
              && r.value < |pools| && Eligible(pools[r.value], ticker, value)
              && forall i :: 0 <= i < r.value ==> !Eligible(pools[i], ticker, value)
  {
    if pools == [] then None
    else if Eligible(pools[0], ticker, value) then Some(0)
    else
      var rest := SelectManagedPool(pools[1..], ticker, value);
      assert forall i :: 0 < i < |pools| ==> pools[i] == pools[1..][i - 1];
      if rest.None? then None else Some(rest.value + 1)
  }

  predicate HasManagedPoolForTicker(pools: seq<ManagedPool>, ticker: string) {
    exists i :: 0 <= i < |pools| && ticker in pools[i].baseTickers
  }

  /** Every pool has a value it accepts. */
  predicate Satisfiable(pools: seq<ManagedPool>) {
    forall p :: p in pools && p.maxValueUsd.Some? ==> p.minValueUsd <= p.maxValueUsd.value
  }

  /** The pool lists the ticker and its value band is not empty. */
  predicate Accepts(p: ManagedPool, ticker: string) {
    ticker in p.baseTickers && (p.maxValueUsd.Some? ==> p.minValueUsd <= p.maxValueUsd.value)
  }

  /**
   Some value routes a ticker iff a pool with a non-empty band lists it. The cheap pre-filter
   therefore never drops a routable order, and when every band is non-empty it drops all others.
   */
  lemma PreFilterIsExact(pools: seq<ManagedPool>, ticker: string)
    ensures (exists value :: SelectManagedPool(pools, ticker, value).Some?)
       <==> exists i :: 0 <= i < |pools| && Accepts(pools[i], ticker)
    ensures (exists value :: SelectManagedPool(pools, ticker, value).Some?) ==> HasManagedPoolForTicker(pools, ticker)
    ensures Satisfiable(pools) && HasManagedPoolForTicker(pools, ticker) ==>
              exists value :: SelectManagedPool(pools, ticker, value).Some?
  {
    if value :| SelectManagedPool(pools, ticker, value).Some? {
      var r := SelectManagedPool(pools, ticker, value).value;
      assert Eligible(pools[r], ticker, value) && Accepts(pools[r], ticker);
    }
    if Satisfiable(pools) && HasManagedPoolForTicker(pools, ticker) {
      var i :| 0 <= i < |pools| && ticker in pools[i].baseTickers;
      assert pools[i] in pools && Accepts(pools[i], ticker);
    }
    if i :| 0 <= i < |pools| && Accepts(pools[i], ticker) {
      assert Eligible(pools[i], ticker, pools[i].minValueUsd);
      assert SelectManagedPool(pools, ticker, pools[i].minValueUsd).Some?;
    }
  }

  // ----------------
  // | The registry |
  // ----------------

  datatype Channel = Empty | Filled | Closed

  /** Dropping a sender closes a channel that has not been used. */
  function Drop(channels: map<TaskId, Channel>, dropped: Option<TaskId>): map<TaskId, Channel> {
    if dropped.Some? && dropped.value in channels && channels[dropped.value].Empty?
    then channels[dropped.value := Closed] else channels
  }

  function Lookup(waiters: map<OrderId, TaskId>, order: OrderId): Option<TaskId> {
    if order in waiters then Some(waiters[order]) else None
  }

  class FillWaiterRegistry {
    var waiters: map<OrderId, TaskId>
    var channels: map<TaskId, Channel>

    constructor ()
      ensures waiters == map[] && channels == map[]
    {
      waiters, channels := map[], map[];
    }

    /** A sender is dropped: a receiver that has not got its message sees the channel closed. */
    method DropSender(task: TaskId)
      modifies this`channels
      ensures channels == Drop(old(channels), Some(task))
    {
      if task in channels && channels[task].Empty? {
        channels := channels[task := Closed];
      }
    }

    /** Inserting over an existing waiter drops its sender. */
    method Register(order: OrderId, task: TaskId)
      modifies this
      ensures waiters == old(waiters)[order := task]
      ensures channels == Drop(old(channels), Lookup(old(waiters), order))[task := Empty]
    {
      if order in waiters {
        DropSender(waiters[order]);
      }
      waiters := waiters[order := task];
      channels := channels[task := Empty];
    }

    /** The waiter leaves the registry and its channel gets the message, if the receiver still exists. */
    method Notify(order: OrderId, receivers: set<TaskId>) returns (found: bool)
      modifies this
      ensures found == (order in old(waiters))
      ensures waiters == old(waiters) - {order}
      ensures channels == Sent(old(channels), Lookup(old(waiters), order), receivers)
    {
      found := order in waiters;
      if found {
        var task := waiters[order];
        waiters := waiters - {order};
        if task in receivers && task in channels && channels[task].Empty? {
          channels := channels[task := Filled];
        }
      }
    }

    /** Removes whatever waiter the order has, dropping its sender. */
    method Remove(order: OrderId)
      modifies this
      ensures waiters == old(waiters) - {order}
      ensures channels == Drop(old(channels), Lookup(old(waiters), order))
    {
      if order in waiters {
        DropSender(waiters[order]);
        waiters := waiters - {order};
      }
    }

    /**
     One event of the protocol carried out on this registry. The tasks and the pools come from
     `s`, the waiters and channels from the registry, and together they are the protocol's next state.
     */
    method Perform(s: State, e: Event) returns (s': State)
      requires Enabled(s, e) && s.waiters == waiters && s.channels == channels
      modifies this
      ensures s' == Next(s, e) && s'.waiters == waiters && s'.channels == channels
    {
      s' := s;
      match e {
        case Start(t, o, pool) =>
          Register(o, t);
          s' := s'.(tasks := s.tasks[t := Task(o, Registered(pool))]);
        case Assign(t, o, ok) =>
          s' := Moved(s', t, if ok then Awaiting else AssignFailed);
          if ok {
            s' := s'.(pools := s.pools[o := Managed(s.tasks[t].phase.pool)]);
          }
        case Notify(o) =>
          var _ := Notify(o, Receivers(s));
        case AwaitFill(t) => s' := Moved(s', t, Resolved(ResultOf(channels[t])));
        case AwaitClosed(t) => s' := Moved(s', t, Resolved(ResultOf(channels[t])));
        case Timeout(t) => s' := Moved(s', t, Resolved(ResultOf(channels[t])));
        case Reassign(t, o, ok) =>
          s' := Moved(s', t, Reassigned(s.tasks[t].phase.result));
          if ok {
            s' := s'.(pools := s.pools[o := Global]);
          }
        case Cleanup(t, o) =>
          Remove(o);
          s' := Moved(s', t, Done(OutcomeOf(s.tasks[t].phase)));
      }
      s' := s'.(waiters := waiters, channels := channels);
    }
  }

  function Sent(channels: map<TaskId, Channel>, target: Option<TaskId>, receivers: set<TaskId>): map<TaskId, Channel> {
    if target.Some? && target.value in receivers && target.value in channels && channels[target.value].Empty?
    then channels[target.value := Filled] else channels
  }

  // ----------------
  // | The protocol |
  // ----------------

  datatype Pool = Global | Managed(name: string)

  datatype FillResult = Fill | ChannelClosed | TimedOut

  datatype Outcome = Ok | AssignError | ClosedError | TimeoutError

  datatype Phase =
    | Registered(pool: string)
    | AssignFailed
    | Awaiting
    | Resolved(result: FillResult)
    | Reassigned(result: FillResult)
    | Done(outcome: Outcome)

  datatype Task = Task(order: OrderId, phase: Phase)

  /** Orders not in `pools` are in the global pool, where every routed order starts. */
  datatype State = State(
    tasks: map<TaskId, Task>,
    waiters: map<OrderId, TaskId>,
    channels: map<TaskId, Channel>,
    pools: map<OrderId, Pool>
  )

  datatype Event =
    | Start(task: TaskId, order: OrderId, pool: string)
    | Assign(task: TaskId, order: OrderId, ok: bool)
    | Notify(order: OrderId)
    | AwaitFill(task: TaskId)
    | AwaitClosed(task: TaskId)
    | Timeout(task: TaskId)
    | Reassign(task: TaskId, order: OrderId, ok: bool)
    | Cleanup(task: TaskId, order: OrderId)

  function PoolOf(s: State, order: OrderId): Pool {
    if order in s.pools then s.pools[order] else Global
  }

  /** The task still holds the receiving end of its channel. */
  predicate Listening(p: Phase) {
    p.Registered? || p.Awaiting? || p.AssignFailed?
  }

  function Receivers(s: State): set<TaskId> {
    set t | t in s.tasks && Listening(s.tasks[t].phase)
  }

  predicate At(s: State, t: TaskId, order: OrderId) {
    t in s.tasks && s.tasks[t].order == order
  }

  /** The timeout polls the channel before the timer, so it can only fire on an unused channel. */
  predicate Enabled(s: State, e: Event) {
    match e
    case Start(t, _, _) => t !in s.tasks && t !in s.channels
    case Assign(t, o, _) => At(s, t, o) && s.tasks[t].phase.Registered?
    case Notify(_) => true
    case AwaitFill(t) => t in s.tasks && s.tasks[t].phase.Awaiting? && t in s.channels && s.channels[t].Filled?
    case AwaitClosed(t) => t in s.tasks && s.tasks[t].phase.Awaiting? && t in s.channels && s.channels[t].Closed?
    case Timeout(t) => t in s.tasks && s.tasks[t].phase.Awaiting? && t in s.channels && s.channels[t].Empty?
    case Reassign(t, o, _) => At(s, t, o) && s.tasks[t].phase.Resolved?
    case Cleanup(t, o) => At(s, t, o) && (s.tasks[t].phase.Reassigned? || s.tasks[t].phase.AssignFailed?)
  }

  function Moved(s: State, t: TaskId, phase: Phase): State
    requires t in s.tasks
  {
    s.(tasks := s.tasks[t := s.tasks[t].(phase := phase)])
  }

  function OutcomeOf(p: Phase): Outcome
    requires p.Reassigned? || p.AssignFailed?
  {
    if p.AssignFailed? then AssignError
    else match p.result
         case Fill => Ok
         case ChannelClosed => ClosedError
         case TimedOut => TimeoutError
  }

  function Next(s: State, e: Event): State
    requires Enabled(s, e)
  {
    match e
    case Start(t, o, pool) =>
      s.(tasks := s.tasks[t := Task(o, Registered(pool))],
         waiters := s.waiters[o := t],
         channels := Drop(s.channels, Lookup(s.waiters, o))[t := Empty])
    case Assign(t, o, ok) =>
      if ok then Moved(s, t, Awaiting).(pools := s.pools[o := Managed(s.tasks[t].phase.pool)])
      else Moved(s, t, AssignFailed)
    case Notify(o) =>
      s.(waiters := s.waiters - {o}, channels := Sent(s.channels, Lookup(s.waiters, o), Receivers(s)))
    case AwaitFill(t) => Moved(s, t, Resolved(Fill))
    case AwaitClosed(t) => Moved(s, t, Resolved(ChannelClosed))
    case Timeout(t) => Moved(s, t, Resolved(TimedOut))
    case Reassign(t, o, ok) =>
      var s' := Moved(s, t, Reassigned(s.tasks[t].phase.result));
      if ok then s'.(pools := s.pools[o := Global]) else s'
    case Cleanup(t, o) =>
      Moved(s, t, Done(OutcomeOf(s.tasks[t].phase)))
        .(waiters := s.waiters - {o}, channels := Drop(s.channels, Lookup(s.waiters, o)))
  }

  const Init := State(map[], map[], map[], map[])

  ghost predicate IsTrace(ss: seq<State>, es: seq<Event>) {
    && |ss| == |es| + 1
    && ss[0] == Init
    && forall i :: 0 <= i < |es| ==> Enabled(ss[i], es[i]) && ss[i + 1] == Next(ss[i], es[i])
  }

  // -----------------------
  // | Back to global pool |
  // -----------------------

  /** The last relayer call about the order, among the first `k` events, succeeded or there was none. */
  predicate LastCallOk(es: seq<Event>, k: nat, o: OrderId)
    requires k <= |es|
  {
    if k == 0 then true
    else match es[k - 1]
         case Assign(_, o', ok) => if o' == o then ok else LastCallOk(es, k - 1, o)
         case Reassign(_, o', ok) => if o' == o then ok else LastCallOk(es, k - 1, o)
         case _ => LastCallOk(es, k - 1, o)
  }

  /** The task has been assigned and has not yet made its call to go back. */
  ghost predicate Away(s: State, t: TaskId, o: OrderId) {
    At(s, t, o) && (s.tasks[t].phase.Awaiting? || s.tasks[t].phase.Resolved?)
  }

  lemma AwayStep(s: State, e: Event, t: TaskId, o: OrderId)
    requires Enabled(s, e) && Away(s, t, o) && (e.Reassign? ==> e.task != t)
    ensures Away(Next(s, e), t, o)
  {
  }

  lemma PoolStep(s: State, e: Event, o: OrderId)
    requires Enabled(s, e)
    ensures PoolOf(Next(s, e), o) == if e.Assign? && e.ok && e.order == o then Managed(s.tasks[e.task].phase.pool)
                                     else if e.Reassign? && e.ok && e.order == o then Global
                                     else PoolOf(s, o)
    ensures e.Assign? && e.ok && e.order == o ==> Away(Next(s, e), e.task, o)
  {
  }

  lemma {:induction false} SomeoneIsAway(ss: seq<State>, es: seq<Event>, k: nat, o: OrderId) returns (t: TaskId)
    requires IsTrace(ss, es) && k < |ss| && PoolOf(ss[k], o) != Global && LastCallOk(es, k, o)
    ensures Away(ss[k], t, o)
  {
    hide Next;
    var e := es[k - 1];
    PoolStep(ss[k - 1], e, o);
    if e.Assign? && e.ok && e.order == o {
      t := e.task;
    } else {
      t := SomeoneIsAway(ss, es, k - 1, o);
      AwayStep(ss[k - 1], e, t, o);
    }
  }

  ghost predicate AllDone(s: State, o: OrderId) {
    forall t :: At(s, t, o) ==> s.tasks[t].phase.Done?
  }

  /**
   However many tasks route the same order and however they interleave, once all of them have
   finished and the last call about the order succeeded, the order is in the global pool.
   */
  lemma FinishedOrdersAreGlobal(ss: seq<State>, es: seq<Event>, k: nat, o: OrderId)
    requires IsTrace(ss, es) && k < |ss| && AllDone(ss[k], o) && LastCallOk(es, k, o)
    ensures PoolOf(ss[k], o) == Global
  {
    if PoolOf(ss[k], o) != Global {
      var t := SomeoneIsAway(ss, es, k, o);
      assert false;
    }
  }

  /** A call to the relayer about the order. */
  predicate IsCall(e: Event, o: OrderId) {
    (e.Assign? || e.Reassign?) && e.order == o
  }

  /** Event `i` moved the order into a managed pool and no call about it has succeeded since. */
  ghost predicate LastMove(es: seq<Event>, k: nat, o: OrderId, i: nat) {
    && i < k <= |es| && es[i].Assign? && IsCall(es[i], o) && es[i].ok
    && forall j :: i < j < k && IsCall(es[j], o) ==> !es[j].ok
  }

  lemma {:induction false} ManagedMeansMoved(ss: seq<State>, es: seq<Event>, k: nat, o: OrderId) returns (i: nat)
    requires IsTrace(ss, es) && k < |ss| && PoolOf(ss[k], o) != Global
    ensures LastMove(es, k, o, i)
  {
    hide Next;
    PoolStep(ss[k - 1], es[k - 1], o);
    if IsCall(es[k - 1], o) && es[k - 1].ok {
      i := k - 1;
    } else {
      i := ManagedMeansMoved(ss, es, k - 1, o);
    }
  }

  lemma {:induction false} MovedMeansManaged(ss: seq<State>, es: seq<Event>, k: nat, o: OrderId, i: nat)
    requires IsTrace(ss, es) && k < |ss| && LastMove(es, k, o, i)
    ensures PoolOf(ss[k], o) != Global && Away(ss[i + 1], es[i].task, o)
  {
    hide Next;
    PoolStep(ss[k - 1], es[k - 1], o);
    if i < k - 1 {
      MovedMeansManaged(ss, es, k - 1, o, i);
    }
  }

  /** A task that was away and has finished made its call to go back. */
  lemma {:induction false} ReturnCall(ss: seq<State>, es: seq<Event>, i: nat, k: nat, t: TaskId, o: OrderId)
    returns (j: nat)
    requires IsTrace(ss, es) && i < k < |ss| && Away(ss[i], t, o) && !Away(ss[k], t, o)
    ensures i <= j < k && es[j].Reassign? && es[j] == Reassign(t, o, es[j].ok)
  {
    hide Next;
    if Away(ss[k - 1], t, o) {
      j := k - 1;
      ReturnStep(ss[j], es[j], t, o);
    } else {
      j := ReturnCall(ss, es, i, k - 1, t, o);
    }
  }

  lemma ReturnStep(s: State, e: Event, t: TaskId, o: OrderId)
    requires Enabled(s, e) && Away(s, t, o) && !Away(Next(s, e), t, o)
    ensures e.Reassign? && e == Reassign(t, o, e.ok)
  {
  }

  /** Events `i` and `j` are the last move of the order and the failed call that should have undone it. */
  ghost predicate Stranded(es: seq<Event>, k: nat, o: OrderId, i: nat, j: nat) {
    LastMove(es, k, o, i) && i < j < k && es[j] == Reassign(es[i].task, o, false)
  }

  /**
   A finished order is left in a managed pool exactly when the task that last moved it there
   failed to move it back and no later call about the order succeeded.
   */
  lemma StrandedIff(ss: seq<State>, es: seq<Event>, k: nat, o: OrderId)
    requires IsTrace(ss, es) && k < |ss| && AllDone(ss[k], o)
    ensures PoolOf(ss[k], o) != Global <==> exists i: nat, j: nat :: Stranded(es, k, o, i, j)
  {
    hide Next;
    if PoolOf(ss[k], o) != Global {
      var i := ManagedMeansMoved(ss, es, k, o);
      MovedMeansManaged(ss, es, k, o, i);
      var j := ReturnCall(ss, es, i + 1, k, es[i].task, o);
      assert IsCall(es[j], o) && Stranded(es, k, o, i, j);
    }
    if i: nat, j: nat :| Stranded(es, k, o, i, j) {
      MovedMeansManaged(ss, es, k, o, i);
    }
  }

  lemma Extend(ss: seq<State>, es: seq<Event>, e: Event) returns (ss': seq<State>, es': seq<Event>)
    requires IsTrace(ss, es) && Enabled(ss[|es|], e)
    ensures IsTrace(ss', es') && es' == es + [e] && ss' == ss + [Next(ss[|es|], e)]
  {
    ss', es' := ss + [Next(ss[|es|], e)], es + [e];
  }

  /** Without that condition it can fail: a reassign call that errors is only logged. */
  lemma FailedReassignStrandsTheOrder(o: OrderId, name: string)
    ensures exists ss: seq<State>, es: seq<Event> ::
              && IsTrace(ss, es) && ss[|es|].tasks == map[0 := Task(o, Done(TimeoutError))]
              && PoolOf(ss[|es|], o) == Managed(name)
  {
    var ss, es := [Init], [];
    ss, es := Extend(ss, es, Start(0, o, name));
    ss, es := Extend(ss, es, Assign(0, o, true));
    ss, es := Extend(ss, es, Timeout(0));
    ss, es := Extend(ss, es, Reassign(0, o, false));
    ss, es := Extend(ss, es, Cleanup(0, o));
    assert ss[|es|].tasks == map[0 := Task(o, Done(TimeoutError))];
  }

  // ------------
  // | Channels |
  // ------------

  /** Every waiter is a task that has not finished, waiting on its own order and on an unused channel. */
  ghost predicate WaiterInv(s: State) {
    && s.tasks.Keys == s.channels.Keys
    && forall o :: o in s.waiters ==>
         && At(s, s.waiters[o], o) && !s.tasks[s.waiters[o]].phase.Done? && s.channels[s.waiters[o]].Empty?
  }

  lemma NextKeepsChannels(s: State, e: Event)
    requires Enabled(s, e) && s.tasks.Keys == s.channels.Keys
    ensures Next(s, e).tasks.Keys == Next(s, e).channels.Keys
  {
  }

  lemma NextKeepsWaiter(s: State, e: Event, o: OrderId)
    requires Enabled(s, e) && WaiterInv(s) && o in Next(s, e).waiters
    ensures var s' := Next(s, e);
            var t := s'.waiters[o];
            At(s', t, o) && !s'.tasks[t].phase.Done? && t in s'.channels && s'.channels[t].Empty?
  {
  }

  lemma NextKeepsWaiters(s: State, e: Event)
    requires Enabled(s, e) && WaiterInv(s)
    ensures WaiterInv(Next(s, e))
  {
    hide Next;
    NextKeepsChannels(s, e);
    forall o | o in Next(s, e).waiters
      ensures var s' := Next(s, e);
              var t := s'.waiters[o];
              At(s', t, o) && !s'.tasks[t].phase.Done? && t in s'.channels && s'.channels[t].Empty?
    {
      NextKeepsWaiter(s, e, o);
    }
  }

  lemma {:induction false} TraceKeepsWaiters(ss: seq<State>, es: seq<Event>, k: nat)
    requires IsTrace(ss, es) && k < |ss|
    ensures WaiterInv(ss[k])
  {
    hide Next;
    if k > 0 {
      TraceKeepsWaiters(ss, es, k - 1);
      NextKeepsWaiters(ss[k - 1], es[k - 1]);
    }
  }

  /** No waiter is left behind: once the tasks of an order have finished, the registry has none for it. */
  lemma NoWaiterRemains(ss: seq<State>, es: seq<Event>, k: nat, o: OrderId)
    requires IsTrace(ss, es) && k < |ss| && AllDone(ss[k], o)
    ensures o !in ss[k].waiters
  {
    TraceKeepsWaiters(ss, es, k);
  }

  /** How one event can change the channel of a task. */
  lemma ChannelStep(s: State, e: Event, t: TaskId)
    requires Enabled(s, e) && t in s.tasks && t in s.channels
    ensures t in Next(s, e).channels && t in Next(s, e).tasks
    ensures Next(s, e).tasks[t].order == s.tasks[t].order
    ensures !s.channels[t].Empty? ==> Next(s, e).channels[t] == s.channels[t]
    ensures Next(s, e).channels[t] != s.channels[t] ==>
              exists o :: o in s.waiters && s.waiters[o] == t &&
                (if Next(s, e).channels[t].Filled? then e == Notify(o) else (e.Start? || e.Cleanup?) && e.order == o)
  {
  }

  /** Each channel resolves at most once, in every interleaving. */
  lemma {:induction false} ChannelResolvesOnce(ss: seq<State>, es: seq<Event>, i: nat, j: nat, t: TaskId)
    requires IsTrace(ss, es) && i <= j < |ss| && t in ss[i].channels && !ss[i].channels[t].Empty?
    ensures t in ss[j].channels && ss[j].channels[t] == ss[i].channels[t]
  {
    hide Next;
    if i < j {
      ChannelResolvesOnce(ss, es, i, j - 1, t);
      TraceKeepsWaiters(ss, es, j - 1);
      ChannelStep(ss[j - 1], es[j - 1], t);
    }
  }

  // ----------------
  // | Lost wakeups |
  // ----------------

  /** What the phase of a task says about its channel. */
  ghost predicate ResultInv(s: State, t: TaskId)
    requires t in s.tasks && t in s.channels
  {
    match s.tasks[t].phase
    case Resolved(r) => ResultMatches(r, s.channels[t])
    case Reassigned(r) => ResultMatches(r, s.channels[t])
    case Done(out) => (out == Ok ==> s.channels[t].Filled?)
                   && (out == ClosedError ==> s.channels[t].Closed?)
                   && (out == TimeoutError ==> !s.channels[t].Filled?)
    case _ => true
  }

  ghost predicate ResultMatches(r: FillResult, c: Channel) {
    match r
    case Fill => c.Filled?
    case ChannelClosed => c.Closed?
    case TimedOut => !c.Filled?
  }

  lemma ResultStep(s: State, e: Event, t: TaskId)
    requires Enabled(s, e) && WaiterInv(s)
    requires t in s.tasks ==> ResultInv(s, t)
    ensures t in Next(s, e).tasks ==> t in Next(s, e).channels && ResultInv(Next(s, e), t)
  {
  }

  lemma {:induction false} ResultsMatchChannels(ss: seq<State>, es: seq<Event>, k: nat, t: TaskId)
    requires IsTrace(ss, es) && k < |ss| && t in ss[k].tasks
    ensures t in ss[k].channels && ResultInv(ss[k], t)
  {
    hide Next;
    if k > 0 {
      TraceKeepsWaiters(ss, es, k - 1);
      if t in ss[k - 1].tasks {
        ResultsMatchChannels(ss, es, k - 1, t);
      }
      ResultStep(ss[k - 1], es[k - 1], t);
    }
  }

  /**
   The event reaches the waiter of task `t` on order `o`: a fill, or another task on the same order
   coming or going.
   */
  predicate Touches(e: Event, t: TaskId, o: OrderId) {
    e == Notify(o) || ((e.Start? || e.Cleanup?) && e.order == o && e.task != t)
  }

  /** The first event after `b` and before `k` that touches the waiter. */
  function FirstTouch(es: seq<Event>, b: nat, k: nat, t: TaskId, o: OrderId): (f: Option<nat>)
    requires b < k <= |es|
    ensures f.None? ==> forall m :: b < m < k ==> !Touches(es[m], t, o)
    ensures f.Some? ==> b < f.value < k && Touches(es[f.value], t, o)
    ensures f.Some? ==> forall m :: b < m < f.value ==> !Touches(es[m], t, o)
  {
    if k == b + 1 then None
    else
      var f := FirstTouch(es, b, k - 1, t, o);
      if f.Some? then f else if Touches(es[k - 1], t, o) then Some(k - 1) else None
  }

  /** What the first touch makes of the channel. */
  function Fate(es: seq<Event>, f: Option<nat>): Channel
    requires f.Some? ==> f.value < |es|
  {
    if f.None? then Empty else if es[f.value].Notify? then Filled else Closed
  }

  lemma StartStep(s: State, e: Event)
    requires Enabled(s, e) && e.Start?
    ensures var s' := Next(s, e);
            && At(s', e.task, e.order) && s'.tasks[e.task].phase.Registered?
            && e.task in s'.channels && s'.channels[e.task].Empty? && Lookup(s'.waiters, e.order) == Some(e.task)
  {
  }

  predicate WaitEnds(e: Event, t: TaskId) {
    (e.AwaitFill? || e.AwaitClosed? || e.Timeout?) && e.task == t
  }

  /** A task stays, keeps its order, and once it has stopped listening never starts again. */
  lemma ListeningStep(s: State, e: Event, t: TaskId)
    requires Enabled(s, e) && t in s.tasks
    ensures t in Next(s, e).tasks && Next(s, e).tasks[t].order == s.tasks[t].order
    ensures Listening(Next(s, e).tasks[t].phase) ==> Listening(s.tasks[t].phase) && !WaitEnds(e, t)
  {
  }

  lemma {:induction false} TaskStays(ss: seq<State>, es: seq<Event>, b: nat, k: nat, t: TaskId)
    requires IsTrace(ss, es) && b < k < |ss| && es[b].Start? && es[b].task == t
    ensures At(ss[k], t, es[b].order)
    ensures Listening(ss[k].tasks[t].phase) ==>
              forall m :: b < m < k ==> t in ss[m].tasks && Listening(ss[m].tasks[t].phase) && !WaitEnds(es[m], t)
  {
    hide Next, Listening;
    if k == b + 1 {
      StartStep(ss[b], es[b]);
    } else {
      TaskStays(ss, es, b, k - 1, t);
      ListeningStep(ss[k - 1], es[k - 1], t);
    }
  }

  /** One event on a task that is the registered waiter of its order and has not been touched yet. */
  lemma TouchStep(s: State, e: Event, t: TaskId, o: OrderId)
    requires Enabled(s, e) && WaiterInv(s) && At(s, t, o) && Listening(s.tasks[t].phase)
    requires s.channels[t].Empty? && Lookup(s.waiters, o) == Some(t)
    requires t in Next(s, e).tasks && Listening(Next(s, e).tasks[t].phase)
    ensures t in Next(s, e).channels
    ensures !Touches(e, t, o) ==> Next(s, e).channels[t].Empty? && Lookup(Next(s, e).waiters, o) == Some(t)
    ensures Touches(e, t, o) ==> Next(s, e).channels[t] == if e.Notify? then Filled else Closed
  {
  }

  /**
   While a task listens its channel is decided by the first touch since it registered: filled iff
   that is a fill, closed iff it is another task on the order, and untouched it is the waiter.
   */
  lemma {:induction false} ChannelIsFirstTouch(ss: seq<State>, es: seq<Event>, b: nat, k: nat, t: TaskId)
    requires IsTrace(ss, es) && b < k < |ss| && es[b].Start? && es[b].task == t
    requires t in ss[k].tasks && Listening(ss[k].tasks[t].phase)
    ensures var f := FirstTouch(es, b, k, t, es[b].order);
            && t in ss[k].channels && ss[k].channels[t] == Fate(es, f)
            && (f.None? ==> Lookup(ss[k].waiters, es[b].order) == Some(t))
  {
    hide Next, Listening;
    var o := es[b].order;
    if k == b + 1 {
      StartStep(ss[b], es[b]);
    } else {
      TaskStays(ss, es, b, k, t);
      TaskStays(ss, es, b, k - 1, t);
      ChannelIsFirstTouch(ss, es, b, k - 1, t);
      TraceKeepsWaiters(ss, es, k - 1);
      if FirstTouch(es, b, k - 1, t, o).None? {
        TouchStep(ss[k - 1], es[k - 1], t, o);
      } else {
        ChannelResolvesOnce(ss, es, k - 1, k, t);
      }
    }
  }

  /** How the wait of a task ended, once it has. */
  function Result(p: Phase): Option<FillResult> {
    match p
    case Resolved(r) => Some(r)
    case Reassigned(r) => Some(r)
    case Done(Ok) => Some(Fill)
    case Done(ClosedError) => Some(ChannelClosed)
    case Done(TimeoutError) => Some(TimedOut)
    case _ => None
  }

  /** What a wait makes of the channel it finds. */
  function ResultOf(c: Channel): FillResult {
    match c
    case Empty => TimedOut
    case Filled => Fill
    case Closed => ChannelClosed
  }

  lemma WaitStep(s: State, e: Event, t: TaskId)
    requires Enabled(s, e) && t in s.tasks && t in s.channels && Result(Next(s, e).tasks[t].phase).Some?
    ensures if Result(s.tasks[t].phase).Some?
            then Result(Next(s, e).tasks[t].phase) == Result(s.tasks[t].phase) && !WaitEnds(e, t)
            else (Listening(s.tasks[t].phase) && WaitEnds(e, t)
                  && Result(Next(s, e).tasks[t].phase) == Some(ResultOf(s.channels[t])))
  {
  }

  /**
   A task waits once, and its result is decided by the first touch between its registration `b`
   and the end `w` of its wait.
   */
  lemma {:induction false} ResultIsFirstTouch(ss: seq<State>, es: seq<Event>, b: nat, k: nat, t: TaskId)
    returns (w: nat)
    requires IsTrace(ss, es) && b < k < |ss| && es[b].Start? && es[b].task == t
    requires t in ss[k].tasks && Result(ss[k].tasks[t].phase).Some?
    ensures b < w < k && forall m :: b < m < k ==> (WaitEnds(es[m], t) <==> m == w)
    ensures t in ss[w].tasks && Listening(ss[w].tasks[t].phase)
    ensures Result(ss[k].tasks[t].phase) == Some(ResultOf(Fate(es, FirstTouch(es, b, w, t, es[b].order))))
  {
    hide Next, Listening, FirstTouch;
    StartStep(ss[b], es[b]);
    TaskStays(ss, es, b, k - 1, t);
    TraceKeepsWaiters(ss, es, k - 1);
    WaitStep(ss[k - 1], es[k - 1], t);
    if Result(ss[k - 1].tasks[t].phase).Some? {
      w := ResultIsFirstTouch(ss, es, b, k - 1, t);
    } else {
      w := k - 1;
      ChannelIsFirstTouch(ss, es, b, w, t);
    }
  }

  /**
   The outcome of a task whose assignment went through, exactly: it succeeds iff the first touch
   before its wait ended is a fill, it reports a closed channel iff that touch is another task on
   its order, and it times out iff nothing touched it.
   */
  lemma OutcomeIff(ss: seq<State>, es: seq<Event>, b: nat, k: nat, t: TaskId) returns (w: nat)
    requires IsTrace(ss, es) && b < k < |ss| && es[b].Start? && es[b].task == t
    requires t in ss[k].tasks && ss[k].tasks[t].phase.Done? && ss[k].tasks[t].phase.outcome != AssignError
    ensures b < w < k && forall m :: b < m < k ==> (WaitEnds(es[m], t) <==> m == w)
    ensures var out, f := ss[k].tasks[t].phase.outcome, FirstTouch(es, b, w, t, es[b].order);
            && (out == Ok <==> f.Some? && es[f.value] == Notify(es[b].order))
            && (out == ClosedError <==> f.Some? && Interferes(es[f.value], t, es[b].order))
            && (out == TimeoutError <==> f.None?)
  {
    w := ResultIsFirstTouch(ss, es, b, k, t);
  }

  lemma NewTaskStarts(s: State, e: Event, t: TaskId)
    requires Enabled(s, e) && t !in s.tasks && t in Next(s, e).tasks
    ensures e.Start? && e.task == t && Next(s, e).tasks[t].order == e.order
  {
  }

  lemma {:induction false} StartOf(ss: seq<State>, es: seq<Event>, k: nat, t: TaskId) returns (b: nat)
    requires IsTrace(ss, es) && k < |ss| && t in ss[k].tasks
    ensures b < k && es[b].Start? && es[b].task == t && es[b].order == ss[k].tasks[t].order
  {
    hide Next;
    if t in ss[k - 1].tasks {
      b := StartOf(ss, es, k - 1, t);
      ListeningStep(ss[k - 1], es[k - 1], t);
    } else {
      b := k - 1;
      NewTaskStarts(ss[k - 1], es[k - 1], t);
    }
  }

  lemma AssignStep(s: State, e: Event, t: TaskId)
    requires Enabled(s, e) && t in s.tasks
    ensures s.tasks[t].phase.Awaiting? || Result(s.tasks[t].phase).Some? ==>
              t in Next(s, e).tasks && (Next(s, e).tasks[t].phase.Awaiting? || Result(Next(s, e).tasks[t].phase).Some?)
  {
  }

  /** A task whose assignment went through never ends with an assignment error. */
  lemma {:induction false} StaysAssigned(ss: seq<State>, es: seq<Event>, i: nat, k: nat, t: TaskId)
    requires IsTrace(ss, es) && i <= k < |ss| && t in ss[i].tasks && ss[i].tasks[t].phase.Awaiting?
    ensures t in ss[k].tasks && (ss[k].tasks[t].phase.Awaiting? || Result(ss[k].tasks[t].phase).Some?)
  {
    hide Next, Result;
    if i < k {
      StaysAssigned(ss, es, i, k - 1, t);
      AssignStep(ss[k - 1], es[k - 1], t);
    }
  }

  /**
   No wakeup is lost: a fill that is handled after a task registered and before its wait ended makes
   the task succeed, if no other task on its own order came or went in between and its own
   assignment call does not fail.
   */
  lemma WakeupIsNotLost(ss: seq<State>, es: seq<Event>, b: nat, i: nat, k: nat, t: TaskId)
    requires IsTrace(ss, es) && b < i < k < |ss| && es[b].Start? && es[b].task == t && es[i] == Notify(es[b].order)
    requires forall m :: b < m < i ==> !Interferes(es[m], t, es[b].order)
    requires t in ss[i].tasks && Listening(ss[i].tasks[t].phase)
    requires t in ss[k].tasks && ss[k].tasks[t].phase.Done?
    ensures ss[k].tasks[t].phase.outcome == Ok || ss[k].tasks[t].phase.outcome == AssignError
    ensures ss[i].tasks[t].phase.Awaiting? ==> ss[k].tasks[t].phase.outcome == Ok
  {
    hide Next;
    if ss[i].tasks[t].phase.Awaiting? {
      StaysAssigned(ss, es, i, k, t);
    }
    if ss[k].tasks[t].phase.outcome != AssignError {
      var w := OutcomeIff(ss, es, b, k, t);
      assert i < w by { ListensUntil(ss, es, w, i, t); }
      assert Touches(es[i], t, es[b].order);
    }
  }

  /** The wait of a task that still listens at `i` ends no earlier than `i`. */
  lemma {:induction false} ListensUntil(ss: seq<State>, es: seq<Event>, w: nat, i: nat, t: TaskId)
    requires IsTrace(ss, es) && w < |es| && i < |es| && WaitEnds(es[w], t) && es[i].Notify?
    requires t in ss[i].tasks && Listening(ss[i].tasks[t].phase)
    ensures i < w
  {
    hide Next;
    if w < i {
      var b := StartOf(ss, es, w, t);
      TaskStays(ss, es, b, i, t);
    }
  }

  /** Another task on the order started or finished at this step. */
  predicate Interferes(e: Event, t: TaskId, o: OrderId) {
    Touches(e, t, o) && !e.Notify?
  }

  lemma RegisteredStep(s: State, e: Event, t: TaskId)
    requires Enabled(s, e) && t in s.tasks
    ensures t in Next(s, e).tasks && Next(s, e).tasks[t].phase.Registered? ==> Next(s, e).tasks[t] == s.tasks[t]
  {
  }

  lemma StartedPool(s: State, e: Event)
    requires Enabled(s, e) && e.Start?
    ensures e.task in Next(s, e).tasks && Next(s, e).tasks[e.task].phase == Registered(e.pool)
  {
  }

  lemma {:induction false} RegisteredPool(ss: seq<State>, es: seq<Event>, k: nat, t: TaskId) returns (b: nat)
    requires IsTrace(ss, es) && k < |ss| && t in ss[k].tasks && ss[k].tasks[t].phase.Registered?
    ensures b < k && es[b] == Start(t, ss[k].tasks[t].order, ss[k].tasks[t].phase.pool)
  {
    hide Next;
    if t in ss[k - 1].tasks {
      RegisteredStep(ss[k - 1], es[k - 1], t);
      b := RegisteredPool(ss, es, k - 1, t);
    } else {
      NewTaskStarts(ss[k - 1], es[k - 1], t);
      StartedPool(ss[k - 1], es[k - 1]);
      b := k - 1;
    }
  }

  /**
   The pool an order is in, exactly: that of the last call about it that succeeded. If that call
   assigned it, it is in the pool its task `t` was started for; else it is in the global pool.
   */
  lemma {:induction false} PoolIsLastCall(ss: seq<State>, es: seq<Event>, k: nat, o: OrderId)
    requires IsTrace(ss, es) && k < |ss|
    ensures PoolOf(ss[k], o) == Global
         || exists b: nat, i: nat ::
              && b < i && LastMove(es, k, o, i)
              && es[b].Start? && es[b].task == es[i].task && es[b].order == o && PoolOf(ss[k], o) == Managed(es[b].pool)
    ensures (exists i: nat :: LastMove(es, k, o, i)) <==> PoolOf(ss[k], o) != Global
  {
    hide Next;
    if i: nat :| LastMove(es, k, o, i) {
      MovedMeansManaged(ss, es, k, o, i);
    }
    if PoolOf(ss[k], o) != Global {
      var i := ManagedMeansMoved(ss, es, k, o);
      var b := RegisteredPool(ss, es, i, es[i].task);
      PoolKept(ss, es, i, k, o);
      assert LastMove(es, k, o, i) && es[b].Start?;
    }
  }

  lemma {:induction false} PoolKept(ss: seq<State>, es: seq<Event>, i: nat, k: nat, o: OrderId)
    requires IsTrace(ss, es) && k < |ss| && LastMove(es, k, o, i)
    ensures es[i].task in ss[i].tasks && ss[i].tasks[es[i].task].phase.Registered?
    ensures PoolOf(ss[k], o) == Managed(ss[i].tasks[es[i].task].phase.pool)
  {
    hide Next;
    PoolStep(ss[k - 1], es[k - 1], o);
    if i < k - 1 {
      PoolKept(ss, es, i, k - 1, o);
    }
  }

  /** Success is never invented: a task that returns Ok was notified of a fill of its order while it listened. */
  lemma OkMeansNotified(ss: seq<State>, es: seq<Event>, k: nat, t: TaskId) returns (i: nat)
    requires IsTrace(ss, es) && k < |ss| && t in ss[k].tasks && ss[k].tasks[t].phase == Done(Ok)
    ensures i < k && t in ss[i].tasks && es[i] == Notify(ss[k].tasks[t].order) && Listening(ss[i].tasks[t].phase)
  {
    hide Next;
    var b := StartOf(ss, es, k, t);
    var w := ResultIsFirstTouch(ss, es, b, k, t);
    i := FirstTouch(es, b, w, t, es[b].order).value;
    TaskStays(ss, es, b, w, t);
  }

  /**
   The only way to lose a waiter: the first event that touched a task whose wait found a closed
   channel was another task on the same order.
   */
  lemma ClosedMeansInterference(ss: seq<State>, es: seq<Event>, k: nat, t: TaskId) returns (b: nat, i: nat)
    requires IsTrace(ss, es) && k < |ss| && t in ss[k].tasks
    requires Result(ss[k].tasks[t].phase) == Some(ChannelClosed)
             || (t in ss[k].channels && ss[k].channels[t].Closed? && Listening(ss[k].tasks[t].phase))
    ensures b < i < k && es[b].Start? && es[b].task == t && es[b].order == ss[k].tasks[t].order
    ensures Interferes(es[i], t, es[b].order) && forall m :: b < m < i ==> !Touches(es[m], t, es[b].order)
  {
    hide Next;
    b := StartOf(ss, es, k, t);
    var w := k;
    if Result(ss[k].tasks[t].phase).Some? {
      w := ResultIsFirstTouch(ss, es, b, k, t);
    } else {
      ChannelIsFirstTouch(ss, es, b, k, t);
    }
    i := FirstTouch(es, b, w, t, es[b].order).value;
  }

  lemma TwoTasksStart(o: OrderId) returns (ss: seq<State>, es: seq<Event>)
    ensures IsTrace(ss, es)
    ensures var s := ss[|es|]; s.tasks == map[0 := Task(o, Registered("pool")), 1 := Task(o, Registered("pool"))]
                               && s.channels == map[0 := Closed, 1 := Empty]
  {
    ss, es := [Init], [];
    ss, es := Extend(ss, es, Start(0, o, "pool"));
    ss, es := Extend(ss, es, Start(1, o, "pool"));
  }

  /** It does happen: a second task on the order makes the first one fail, fill or no fill. */
  lemma SecondTaskClosesTheFirst(o: OrderId)
    ensures exists ss: seq<State>, es: seq<Event> ::
              IsTrace(ss, es) && 0 in ss[|es|].tasks && ss[|es|].tasks[0] == Task(o, Done(ClosedError))
  {
    var ss, es := TwoTasksStart(o);
    ss, es := Extend(ss, es, Assign(0, o, true));
    ss, es := Extend(ss, es, AwaitClosed(0));
    ss, es := Extend(ss, es, Reassign(0, o, true));
    ss, es := Extend(ss, es, Cleanup(0, o));
    assert ss[|es|].tasks[0] == Task(o, Done(ClosedError));
  }
}
