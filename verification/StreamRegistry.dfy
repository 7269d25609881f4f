/**
 The shared map of price streams of the price reporter
 (price-reporter/src/price_stream_manager.rs).

 `GlobalPriceStreams` is the map with its lock sections as methods. `State`, `Event` and
 `Next` are the whole system around it: callers that create streams, stream tasks that
 finish, and cancel passes that snapshot under the read lock and apply under the write
 lock. Every event is one lock section, so a trace is one interleaving.
 */
module StreamRegistry {
  import opened Wrappers

  /** The chain of a pair is ignored by its equality in the source, so it is absent here. */
  datatype PairInfo = PairInfo(exchange: string, base: string, quote: string) {
    predicate IsUnitPair() {
      base == quote
    }
  }

  /** A cancellation token; a stream is identified by the token it was created with. */
  type Token = nat

  // ---------------------
  // | The lock sections |
  // ---------------------

  /** The tokens that leave the map, and are therefore cancelled, when `pairs` are removed. */
  function TokensAt(streams: map<PairInfo, Token>, pairs: set<PairInfo>): set<Token> {
    set p | p in pairs && p in streams :: streams[p]
  }

  lemma TokensAtAdd(streams: map<PairInfo, Token>, pairs: set<PairInfo>, pair: PairInfo)
    ensures TokensAt(streams, pairs + {pair})
         == TokensAt(streams, pairs) + (if pair in streams then {streams[pair]} else {})
  {
  }

  class GlobalPriceStreams {
    var streams: map<PairInfo, Token>
    var cancelled: set<Token>

    constructor ()
      ensures streams == map[] && cancelled == {}
    {
      streams, cancelled := map[], {};
    }

    /** Adds the stream unless the pair has one already, which is then returned. */
    method MaybeAddPriceStream(pair: PairInfo, token: Token) returns (existing: Option<Token>)
      modifies this`streams
      ensures existing == if pair in old(streams) then Some(old(streams)[pair]) else None
      ensures streams == if pair in old(streams) then old(streams) else old(streams)[pair := token]
    {
      if pair in streams {
        return Some(streams[pair]);
      }
      streams := streams[pair := token];
      return None;
    }

    /** Removes whatever stream is under the pair and cancels its token. */
    method RemovePriceStream(pair: PairInfo)
      modifies this
      ensures streams == old(streams) - {pair}
      ensures cancelled == old(cancelled) + TokensAt(old(streams), {pair})
    {
      TokensAtAdd(streams, {}, pair);
      assert {} + {pair} == {pair};
      if pair in streams {
        var token := streams[pair];
        streams := streams - {pair};
        cancelled := cancelled + {token};
      }
    }

    /** First half of a cancel pass, under the read lock: the keys that are not desired. */
    method SnapshotRemoved(desired: set<PairInfo>) returns (toCancel: seq<PairInfo>)
      ensures forall p :: p in toCancel <==> p in streams && p !in desired
    {
      toCancel := [];
      var todo := streams.Keys;
      while todo != {}
        invariant todo <= streams.Keys
        invariant forall p :: p in toCancel <==> p in streams.Keys - todo && p !in desired
        decreases todo
      {
        var p :| p in todo;
        todo := todo - {p};
        if p !in desired {
          toCancel := toCancel + [p];
        }
      }
    }

    /** Second half of a cancel pass, under the write lock: remove and cancel one by one. */
    method CancelSnapshot(toCancel: seq<PairInfo>)
      modifies this
      ensures streams == old(streams) - (set p | p in toCancel)
      ensures cancelled == old(cancelled) + TokensAt(old(streams), set p | p in toCancel)
    {
      ghost var done: set<PairInfo> := {};
      for i := 0 to |toCancel|
        invariant done == set p | p in toCancel[..i]
        invariant streams == old(streams) - done
        invariant cancelled == old(cancelled) + TokensAt(old(streams), done)
      {
        TokensAtAdd(old(streams), done, toCancel[i]);
        assert toCancel[..i + 1] == toCancel[..i] + [toCancel[i]];
        done := done + {toCancel[i]};
        if toCancel[i] in streams {
          var token := streams[toCancel[i]];
          streams := streams - {toCancel[i]};
          cancelled := cancelled + {token};
        }
      }
      assert toCancel[..|toCancel|] == toCancel;
    }

    /**
     One event of the protocol carried out on this map. The callers, tasks and passes come from
     `s`, the streams and cancelled tokens from the map, and together they are the next state.
     */
    method Perform(s: State, e: Event) returns (s': State)
      requires Enabled(s, e) && s.streams == streams && s.cancelled == cancelled
      modifies this
      ensures s' == Next(s, e) && s'.streams == streams && s'.cancelled == cancelled
    {
      s' := s;
      match e {
        case Create(p) =>
          s' := s'.(created := s.created[s.next := p], next := s.next + 1);
        case MaybeAdd(t) =>
          var existing := MaybeAddPriceStream(s.created[t], t);
          s' := s'.(created := s.created - {t});
          if existing.None? {
            s' := s'.(inserted := s.inserted[t := s.created[t]], running := s.running + {t});
          }
        case Exit(t) =>
          RemovePriceStream(s.inserted[t]);
          s' := s'.(running := s.running - {t});
        case Snapshot(c, desired) =>
          var toCancel := SnapshotRemoved(desired);
          var doomed := set p | p in toCancel;
          assert doomed == streams.Keys - desired;
          s' := s'.(sweeps := s.sweeps[c := Sweep(desired, doomed)]);
        case Apply(c) =>
          var toCancel := InAnyOrder(s.sweeps[c].doomed);
          CancelSnapshot(toCancel);
          s' := s'.(sweeps := s.sweeps - {c});
      }
      s' := s'.(streams := streams, cancelled := cancelled);
    }
  }

  /** The pairs of a snapshot in the order in which the map happened to list them. */
  method InAnyOrder(pairs: set<PairInfo>) returns (q: seq<PairInfo>)
    ensures (set p | p in q) == pairs
  {
    q := [];
    var todo := pairs;
    while todo != {}
      invariant todo <= pairs && forall p :: p in q <==> p in pairs - todo
      decreases todo
    {
      var p :| p in todo;
      todo := todo - {p};
      q := q + [p];
    }
  }

  // ----------------------
  // | The whole protocol |
  // ----------------------

  /** A cancel pass that has taken its snapshot and not yet applied it. */
  datatype Sweep = Sweep(desired: set<PairInfo>, doomed: set<PairInfo>)

  /**
   `created` are the callers that hold a fresh token and have not reached the write lock;
   `inserted` records every token that ever entered the map, with its pair; `running` are
   the stream tasks that have not yet removed their pair on exit.
   */
  datatype State = State(
    streams: map<PairInfo, Token>,
    cancelled: set<Token>,
    created: map<Token, PairInfo>,
    inserted: map<Token, PairInfo>,
    running: set<Token>,
    sweeps: map<nat, Sweep>,
    next: Token
  ) {
    /** The stream entered the map and has not been cancelled since. */
    predicate Live(t: Token) {
      t in inserted && t !in cancelled
    }
  }

  datatype Event =
    | Create(pair: PairInfo)
    | MaybeAdd(token: Token)
    | Exit(token: Token)
    | Snapshot(pass: nat, desired: set<PairInfo>)
    | Apply(pass: nat)

  const Empty := State(map[], {}, map[], map[], {}, map[], 0)

  /** Unit-pair tasks loop forever and never look at their token, so they never exit. */
  predicate Enabled(s: State, e: Event) {
    match e
    case Create(_) => true
    case MaybeAdd(t) => t in s.created
    case Exit(t) => t in s.running && t in s.inserted && !s.inserted[t].IsUnitPair()
    case Snapshot(c, _) => c !in s.sweeps
    case Apply(c) => c in s.sweeps
  }

  function Next(s: State, e: Event): State
    requires Enabled(s, e)
  {
    match e
    case Create(p) =>
      s.(created := s.created[s.next := p], next := s.next + 1)
    case MaybeAdd(t) =>
      var p := s.created[t];
      var s' := s.(created := s.created - {t});
      if p in s.streams then s'
      else s'.(streams := s.streams[p := t], inserted := s.inserted[t := p], running := s.running + {t})
    case Exit(t) =>
      Removed(s.(running := s.running - {t}), {s.inserted[t]})
    case Snapshot(c, desired) =>
      s.(sweeps := s.sweeps[c := Sweep(desired, s.streams.Keys - desired)])
    case Apply(c) =>
      Removed(s.(sweeps := s.sweeps - {c}), s.sweeps[c].doomed)
  }

  function Removed(s: State, pairs: set<PairInfo>): State {
    s.(streams := s.streams - pairs, cancelled := s.cancelled + TokensAt(s.streams, pairs))
  }

  ghost predicate IsTrace(ss: seq<State>, es: seq<Event>) {
    && |ss| == |es| + 1
    && ss[0] == Empty
    && forall i :: 0 <= i < |es| ==> Enabled(ss[i], es[i]) && ss[i + 1] == Next(ss[i], es[i])
  }

  // -------------
  // | Invariant |
  // -------------

  ghost predicate Numbered(s: State) {
    && (forall t :: t in s.created ==> t < s.next && t !in s.inserted)
    && (forall t :: t in s.inserted ==> t < s.next)
    && s.cancelled <= s.inserted.Keys
    && s.running <= s.inserted.Keys
  }

  /** The map holds exactly the live tokens, each under its own pair, each with a running task. */
  ghost predicate Registered(s: State) {
    && (forall p :: p in s.streams ==>
          s.Live(s.streams[p]) && s.inserted[s.streams[p]] == p && s.streams[p] in s.running)
    && (forall t :: s.Live(t) ==> s.inserted[t] in s.streams && s.streams[s.inserted[t]] == t)
    && (forall t :: t in s.inserted && s.inserted[t].IsUnitPair() ==> t in s.running)
    && (forall c :: c in s.sweeps ==> s.sweeps[c].doomed !! s.sweeps[c].desired)
  }

  ghost predicate Inv(s: State) {
    Numbered(s) && Registered(s)
  }

  lemma RemovedKeepsInv(s: State, pairs: set<PairInfo>, exiting: set<Token>)
    requires Numbered(s)
    requires Registered(s.(running := s.running + exiting))
    requires forall t :: t in exiting ==> t in s.inserted && s.inserted[t] in pairs && !s.inserted[t].IsUnitPair()
    ensures Inv(Removed(s, pairs))
  {
    var s' := Removed(s, pairs);
    forall p | p in s'.streams
      ensures s'.Live(s'.streams[p]) && s'.streams[p] in s'.running
    {
      assert p !in pairs && s'.streams[p] == s.streams[p];
    }
    forall t | s'.Live(t)
      ensures s'.inserted[t] in s'.streams && s'.streams[s'.inserted[t]] == t
    {
      assert s.(running := s.running + exiting).Live(t);
      assert s.streams[s.inserted[t]] == t;
    }
  }

  lemma NextKeepsInv(s: State, e: Event)
    requires Inv(s) && Enabled(s, e)
    ensures Inv(Next(s, e))
  {
    match e
    case Exit(t) =>
      assert s.(running := s.running - {t} + {t}) == s;
      RemovedKeepsInv(s.(running := s.running - {t}), {s.inserted[t]}, {t});
    case Apply(c) =>
      var s0 := s.(sweeps := s.sweeps - {c});
      assert s0.(running := s0.running + {}) == s0;
      RemovedKeepsInv(s0, s.sweeps[c].doomed, {});
    case MaybeAdd(t) =>
      var s' := Next(s, e);
      forall u | s'.Live(u)
        ensures s'.inserted[u] in s'.streams && s'.streams[s'.inserted[u]] == u
      {
        assert u != t ==> s.Live(u);
      }
    case _ =>
  }

  lemma {:induction false} TraceKeepsInv(ss: seq<State>, es: seq<Event>, k: nat)
    requires IsTrace(ss, es) && k < |ss|
    ensures Inv(ss[k])
  {
    hide Next;
    if k > 0 {
      TraceKeepsInv(ss, es, k - 1);
      NextKeepsInv(ss[k - 1], es[k - 1]);
    }
  }

  // ------------
  // | Theorems |
  // ------------

  /** In every interleaving a token is in the map iff it was inserted and not yet cancelled. */
  lemma MappedIffLive(ss: seq<State>, es: seq<Event>, k: nat, p: PairInfo, t: Token)
    requires IsTrace(ss, es) && k < |ss|
    ensures (p in ss[k].streams && ss[k].streams[p] == t) <==> (ss[k].Live(t) && ss[k].inserted[t] == p)
  {
    TraceKeepsInv(ss, es, k);
  }

  /** In every interleaving a pair has at most one uncancelled stream, and its task is running. */
  lemma AtMostOneLiveStream(ss: seq<State>, es: seq<Event>, k: nat, t: Token, u: Token)
    requires IsTrace(ss, es) && k < |ss|
    requires ss[k].Live(t) && ss[k].Live(u) && ss[k].inserted[t] == ss[k].inserted[u]
    ensures t == u && t in ss[k].running
  {
    TraceKeepsInv(ss, es, k);
  }

  /** The caller that loses the race gets the stream of the winner, and it is alive. */
  lemma CreateReturnsTheLiveStream(ss: seq<State>, es: seq<Event>, k: nat)
    requires IsTrace(ss, es) && k < |es| && es[k].MaybeAdd?
    ensures var p := ss[k].created[es[k].token];
            && p in ss[k + 1].streams
            && ss[k + 1].Live(ss[k + 1].streams[p])
            && ss[k + 1].inserted[ss[k + 1].streams[p]] == p
            && (p in ss[k].streams <==> ss[k + 1].streams[p] != es[k].token)
  {
    TraceKeepsInv(ss, es, k);
    TraceKeepsInv(ss, es, k + 1);
  }

  lemma CancelStep(s: State, e: Event, t: Token)
    requires Enabled(s, e) && Numbered(s) && t in s.inserted
    ensures t in Next(s, e).inserted && Next(s, e).inserted[t] == s.inserted[t]
    ensures t in s.cancelled ==> t in Next(s, e).cancelled
  {
  }

  /** A token that has been cancelled stays so, and a live one keeps its pair. */
  lemma {:induction false} CancelIsForever(ss: seq<State>, es: seq<Event>, i: nat, j: nat, t: Token)
    requires IsTrace(ss, es) && i <= j < |ss| && t in ss[i].inserted
    ensures t in ss[j].inserted && ss[j].inserted[t] == ss[i].inserted[t]
    ensures t in ss[i].cancelled ==> t in ss[j].cancelled
  {
    hide Next;
    if i < j {
      CancelIsForever(ss, es, i, j - 1, t);
      TraceKeepsInv(ss, es, j - 1);
      CancelStep(ss[j - 1], es[j - 1], t);
    }
  }

  lemma {:induction false} SweepWaits(ss: seq<State>, es: seq<Event>, i: nat, j: nat, c: nat)
    requires IsTrace(ss, es) && i < j < |ss| && es[i].Snapshot? && es[i].pass == c
    requires forall m :: i < m < j ==> es[m] != Apply(c)
    ensures c in ss[j].sweeps && ss[j].sweeps[c] == Sweep(es[i].desired, ss[i].streams.Keys - es[i].desired)
  {
    if i + 1 < j {
      SweepWaits(ss, es, i, j - 1, c);
    }
  }

  /**
   A whole cancel pass, with any events between its two halves. The applying step removes exactly
   the pairs that were mapped and not desired at the snapshot, and cancels exactly the streams it
   finds under them. So no desired pair is touched, a pair created since the snapshot stays, and
   every stream that was undesired at the snapshot ends up cancelled.
   */
  lemma CancelPassIsExact(ss: seq<State>, es: seq<Event>, i: nat, j: nat, p: PairInfo)
    requires IsTrace(ss, es) && i < j < |es|
    requires es[i].Snapshot? && es[j] == Apply(es[i].pass)
    requires forall m :: i < m < j ==> es[m] != Apply(es[i].pass)
    ensures var doomed := ss[i].streams.Keys - es[i].desired;
            && ss[j + 1].streams == ss[j].streams - doomed
            && (forall t :: t in ss[j + 1].cancelled <==>
                  t in ss[j].cancelled || exists q :: q in doomed && q in ss[j].streams && ss[j].streams[q] == t)
    ensures p in es[i].desired && p in ss[j].streams ==>
              p in ss[j + 1].streams && ss[j + 1].streams[p] == ss[j].streams[p]
    ensures p !in es[i].desired && p in ss[i].streams ==>
              p !in ss[j + 1].streams && ss[i].streams[p] in ss[j + 1].cancelled
  {
    SweepWaits(ss, es, i, j, es[i].pass);
    TraceKeepsInv(ss, es, i);
    TraceKeepsInv(ss, es, j);
    if p !in es[i].desired && p in ss[i].streams {
      var t := ss[i].streams[p];
      CancelIsForever(ss, es, i, j, t);
      if t !in ss[j].cancelled {
        assert ss[j].Live(t);
      }
    }
  }

  /**
   What a finishing task removes. It takes down a stream other than its own exactly when its
   own token was cancelled before it finished and the pair has been created again since.
   */
  lemma ExitTakesDownAnotherIff(ss: seq<State>, es: seq<Event>, k: nat)
    requires IsTrace(ss, es) && k < |es| && es[k].Exit?
    ensures var t, p := es[k].token, ss[k].inserted[es[k].token];
            && ((exists u :: u != t && ss[k].Live(u) && !ss[k + 1].Live(u))
                <==> t in ss[k].cancelled && p in ss[k].streams)
            && (forall u :: ss[k].Live(u) && !ss[k + 1].Live(u) ==> ss[k].inserted[u] == p)
            && p !in ss[k + 1].streams && !ss[k + 1].Live(t)
  {
    TraceKeepsInv(ss, es, k);
    TraceKeepsInv(ss, es, k + 1);
    var t, p := es[k].token, ss[k].inserted[es[k].token];
    if t in ss[k].cancelled && p in ss[k].streams {
      var u := ss[k].streams[p];
      assert u != t && ss[k].Live(u) && !ss[k + 1].Live(u);
    }
  }

  /** The failing family is not empty: cancel, create again, and the old task's exit cancels the new stream. */
  lemma LateExitCancelsTheNewStream(p: PairInfo)
    requires !p.IsUnitPair()
    ensures exists ss: seq<State>, es: seq<Event> :: IsTrace(ss, es) && |ss| == 8
                          && ss[6].Live(1) && ss[6].streams == map[p := 1]
                          && es[6] == Exit(0) && 1 in ss[7].cancelled && ss[7].streams == map[]
  {
    var es := [Create(p), MaybeAdd(0), Snapshot(0, {}), Apply(0), Create(p), MaybeAdd(1), Exit(0)];
    var s1 := Next(Empty, es[0]);
    var s2 := Next(s1, es[1]);
    var s3 := Next(s2, es[2]);
    var s4 := Next(s3, es[3]);
    assert s3.sweeps[0].doomed == {p};
    assert s4.streams == map[];
    var s5 := Next(s4, es[4]);
    var s6 := Next(s5, es[5]);
    var s7 := Next(s6, es[6]);
    assert s6.streams == map[p := 1];
    assert s7.streams == map[];
    assert TokensAt(s6.streams, {p}) == {1} by {
      assert {} + {p} == {p};
      TokensAtAdd(s6.streams, {}, p);
    }
    var ss := [Empty, s1, s2, s3, s4, s5, s6, s7];
    assert TokensAt(s3.streams, {p}) == {0} by {
      assert {} + {p} == {p};
      TokensAtAdd(s3.streams, {}, p);
    }
    assert IsTrace(ss, es);
  }

  /** A unit-pair task outlives every cancellation: once inserted it is running in every later state. */
  lemma UnitTasksNeverStop(ss: seq<State>, es: seq<Event>, i: nat, j: nat, t: Token)
    requires IsTrace(ss, es) && i <= j < |ss|
    requires t in ss[i].inserted && ss[i].inserted[t].IsUnitPair()
    ensures t in ss[j].running
  {
    CancelIsForever(ss, es, i, j, t);
    TraceKeepsInv(ss, es, j);
  }
}
