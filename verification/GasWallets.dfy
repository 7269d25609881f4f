/**
 The gas-wallet allocator of the funds manager: registration and active-peer reports
 (funds-manager/funds-manager-server/src/custody_client/gas_wallets.rs) over the table
 operations of custody_client/queries.rs. Times are milliseconds of the wall clock.

 `GasWalletTable` is the table of one chain, keyed by address. `Step` and `IsTrace` run
 create, register and report handlers in any order, each handler being one step.
 */
module GasWallets {
  import opened Wrappers

  type Address = string
  type PeerId = string

  const GAS_WALLET_RECLAIM_GRACE := 180_000

  datatype Status = Active | Pending | Inactive

  datatype Wallet = Wallet(peer: Option<PeerId>, status: Status, activatedAt: Option<int>)

  datatype ReportAction = NoAction | Activate | MarkPending | MarkInactive

  /** The decision of one report cycle for one wallet. */
  function GasWalletReportAction(status: Status, peerActive: bool, activatedElapsed: Option<int>): ReportAction {
    if peerActive then
      if status.Pending? then Activate else NoAction
    else
      match status
      case Active =>
        if activatedElapsed.Some? && activatedElapsed.value < GAS_WALLET_RECLAIM_GRACE then NoAction else MarkPending
      case Pending => MarkInactive
      case Inactive => NoAction
  }

  /** The time since an activation, unknown when it was never recorded or lies in the future. */
  function Elapsed(activatedAt: Option<int>, now: int): Option<int> {
    if activatedAt.Some? && activatedAt.value <= now then Some(now - activatedAt.value) else None
  }

  function Activated(peer: PeerId, now: int): Wallet {
    Wallet(Some(peer), Active, Some(now))
  }

  /** What a report does to one wallet; wallets without a peer are passed over. */
  function Reported(w: Wallet, active: set<PeerId>, now: int): Wallet {
    if w.peer.None? then w
    else
      match GasWalletReportAction(w.status, w.peer.value in active, Elapsed(w.activatedAt, now))
      case NoAction => w
      case Activate => Activated(w.peer.value, now)
      case MarkPending => w.(status := Pending)
      case MarkInactive => w.(status := Inactive, peer := None)
  }

  predicate LiveFor(w: Wallet, peer: PeerId) {
    !w.status.Inactive? && w.peer == Some(peer)
  }

  type Table = map<Address, Wallet>

  // -------------
  // | The table |
  // -------------

  class GasWalletTable {
    var rows: Table

    constructor ()
      ensures rows == map[]
    {
      rows := map[];
    }

    /** The address is that of a key generated for this wallet; the insert fails on one that exists. */
    method AddGasWallet(address: Address, now: int)
      requires address !in rows
      modifies this
      ensures Step(old(rows), Create(now, address), rows)
    {
      rows := rows[address := Wallet(None, Inactive, None)];
    }

    /** The peer's live wallet; an active one comes first because the query sorts by status. */
    method FindLiveGasWalletForPeer(peer: PeerId) returns (found: Option<Address>)
      ensures found.None? <==> forall a :: a in rows ==> !LiveFor(rows[a], peer)
      ensures found.Some? ==> found.value in rows && LiveFor(rows[found.value], peer)
      ensures found.Some? && rows[found.value].status.Pending? ==>
                forall a :: a in rows && LiveFor(rows[a], peer) ==> rows[a].status.Pending?
    {
      found := None;
      var todo := rows.Keys;
      while todo != {}
        invariant todo <= rows.Keys
        invariant found.None? ==> forall a :: a in rows.Keys - todo ==> !LiveFor(rows[a], peer)
        invariant found.Some? ==> found.value in rows && LiveFor(rows[found.value], peer)
        invariant found.Some? && rows[found.value].status.Pending? ==>
                    forall a :: a in rows.Keys - todo && LiveFor(rows[a], peer) ==> rows[a].status.Pending?
        decreases todo
      {
        var a :| a in todo;
        todo := todo - {a};
        if LiveFor(rows[a], peer) && (found.None? || rows[a].status.Active?) {
          found := Some(a);
        }
      }
    }

    /** Any inactive wallet: the query has no order. */
    method FindInactiveGasWallet() returns (found: Option<Address>)
      ensures found.None? <==> forall a :: a in rows ==> !rows[a].status.Inactive?
      ensures found.Some? ==> found.value in rows && rows[found.value].status.Inactive?
    {
      if a :| a in rows && rows[a].status.Inactive? {
        return Some(a);
      }
      return None;
    }

    method MarkGasWalletActive(address: Address, peer: PeerId, now: int)
      modifies this
      ensures rows == if address in old(rows) then old(rows)[address := Activated(peer, now)] else old(rows)
    {
      if address in rows {
        rows := rows[address := Activated(peer, now)];
      }
    }

    method MarkGasWalletPending(address: Address)
      modifies this
      ensures rows == if address !in old(rows) then old(rows)
                      else old(rows)[address := old(rows)[address].(status := Pending)]
    {
      if address in rows {
        rows := rows[address := rows[address].(status := Pending)];
      }
    }

    method MarkGasWalletInactive(address: Address)
      modifies this
      ensures rows == if address !in old(rows) then old(rows)
                      else old(rows)[address := old(rows)[address].(status := Inactive, peer := None)]
    {
      if address in rows {
        rows := rows[address := rows[address].(status := Inactive, peer := None)];
      }
    }

    /** The registration handler; `None` is the "Record not found" failure of an empty pool. */
    method RegisterGasWallet(peer: PeerId, now: int) returns (issued: Option<Address>)
      modifies this
      ensures Step(old(rows), Register(now, peer, issued), rows)
    {
      var live := FindLiveGasWalletForPeer(peer);
      if live.Some? {
        if !rows[live.value].status.Active? {
          MarkGasWalletActive(live.value, peer, now);
        }
        return live;
      }
      issued := FindInactiveGasWallet();
      if issued.Some? {
        MarkGasWalletActive(issued.value, peer, now);
      }
    }

    /** The report handler: it walks a snapshot of the table and updates row by row. */
    method RecordActiveGasWallets(active: set<PeerId>, now: int)
      modifies this
      ensures Step(old(rows), Report(now, active), rows)
    {
      var all := rows;
      var todo := all.Keys;
      while todo != {}
        invariant todo <= all.Keys == rows.Keys
        invariant forall a :: a in all ==> rows[a] == if a in todo then all[a] else Reported(all[a], active, now)
        decreases todo
      {
        var a :| a in todo;
        todo := todo - {a};
        var wallet := all[a];
        if wallet.peer.Some? {
          var peer := wallet.peer.value;
          match GasWalletReportAction(wallet.status, peer in active, Elapsed(wallet.activatedAt, now)) {
            case NoAction =>
            case Activate => MarkGasWalletActive(a, peer, now);
            case MarkPending => MarkGasWalletPending(a);
            case MarkInactive => MarkGasWalletInactive(a);
          }
        }
      }
    }
  }

  // ------------
  // | The runs |
  // ------------

  datatype Event =
    | Create(now: int, address: Address)
    | Register(now: int, peer: PeerId, issued: Option<Address>)
    | Report(now: int, active: set<PeerId>)

  /** One handler takes table `s` to table `s'`. */
  predicate Step(s: Table, e: Event, s': Table) {
    match e
    case Create(_, a) => a !in s && s' == s[a := Wallet(None, Inactive, None)]
    case Register(now, peer, issued) => Registers(s, peer, now, issued, s')
    case Report(now, active) =>
      s'.Keys == s.Keys && forall a :: a in s ==> s'[a] == Reported(s[a], active, now)
  }

  predicate Registers(s: Table, peer: PeerId, now: int, issued: Option<Address>, s': Table) {
    if exists a :: a in s && LiveFor(s[a], peer) then
      && issued.Some? && issued.value in s && LiveFor(s[issued.value], peer)
      && (s[issued.value].status.Pending? ==> forall a :: a in s && LiveFor(s[a], peer) ==> s[a].status.Pending?)
      && s' == if s[issued.value].status.Active? then s else s[issued.value := Activated(peer, now)]
    else if exists a :: a in s && s[a].status.Inactive? then
      && issued.Some? && issued.value in s && s[issued.value].status.Inactive?
      && s' == s[issued.value := Activated(peer, now)]
    else
      issued.None? && s' == s
  }

  /** Handlers run one at a time against a clock that does not go back. */
  ghost predicate IsTrace(ss: seq<Table>, es: seq<Event>) {
    && |ss| == |es| + 1
    && ss[0] == map[]
    && (forall i :: 0 <= i < |es| ==> Step(ss[i], es[i], ss[i + 1]))
    && (forall i, j :: 0 <= i <= j < |es| ==> es[i].now <= es[j].now)
  }

  // -------------
  // | Invariant |
  // -------------

  /** `Inactive` iff no peer; every other wallet has an activation time; no peer owns two live wallets. */
  ghost predicate Inv(s: Table) {
    && (forall a :: a in s ==> (s[a].status.Inactive? <==> s[a].peer.None?))
    && (forall a :: a in s && !s[a].status.Inactive? ==> s[a].activatedAt.Some?)
    && (forall a, b :: a in s && b in s && s[a].peer.Some? && s[a].peer == s[b].peer ==> a == b)
  }

  lemma ActivateKeepsInv(s: Table, a: Address, peer: PeerId, now: int)
    requires Inv(s) && a in s
    requires forall b :: b in s && s[b].peer == Some(peer) ==> b == a
    ensures Inv(s[a := Activated(peer, now)])
  {
  }

  lemma StepKeepsInv(s: Table, e: Event, s': Table)
    requires Inv(s) && Step(s, e, s')
    ensures Inv(s')
  {
    match e
    case Register(now, peer, issued) =>
      if s' != s {
        forall b | b in s && s[b].peer == Some(peer) ensures b == issued.value {
          assert LiveFor(s[b], peer);
        }
        ActivateKeepsInv(s, issued.value, peer, now);
      }
    case Report(_, active) =>
      forall a, b | a in s' && b in s' && s'[a].peer.Some? && s'[a].peer == s'[b].peer
        ensures a == b
      {
        assert s[a].peer == s'[a].peer && s[b].peer == s'[b].peer;
      }
    case Create(_, _) =>
  }

  lemma {:induction false} TraceKeepsInv(ss: seq<Table>, es: seq<Event>, k: nat)
    requires IsTrace(ss, es) && k < |ss|
    ensures Inv(ss[k])
  {
    if k > 0 {
      TraceKeepsInv(ss, es, k - 1);
      StepKeepsInv(ss[k - 1], es[k - 1], ss[k]);
    }
  }

  // ------------
  // | The pool |
  // ------------

  function Pool(s: Table): set<Address> {
    set a | a in s && s[a].status.Inactive?
  }

  /**
   Registration is idempotent per peer. A peer that owns a live wallet gets exactly that one
   back and the pool is untouched; any other peer takes exactly one wallet out of the pool;
   registration fails iff the peer owns nothing and the pool is empty. Only the issued wallet
   changes, and an active one of the peer keeps its activation time.
   */
  lemma RegisterDrawsAtMostOne(ss: seq<Table>, es: seq<Event>, k: nat, peer: PeerId)
    requires IsTrace(ss, es) && k < |es| && es[k].Register? && es[k].peer == peer
    ensures es[k].issued.None? <==> Pool(ss[k]) == {} && forall a :: a in ss[k] ==> ss[k][a].peer != Some(peer)
    ensures forall a :: a in ss[k] && ss[k][a].peer == Some(peer) ==>
              es[k].issued == Some(a) && Pool(ss[k + 1]) == Pool(ss[k])
    ensures es[k].issued.Some? ==>
              var a := es[k].issued.value;
              && a in ss[k + 1] && LiveFor(ss[k + 1][a], peer) && ss[k + 1][a].status.Active?
              && (forall b :: b in ss[k] && ss[k][b].peer == Some(peer) ==> a == b)
              && ((forall b :: b in ss[k] ==> ss[k][b].peer != Some(peer)) ==>
                    a in Pool(ss[k]) && Pool(ss[k + 1]) == Pool(ss[k]) - {a})
    ensures ss[k + 1].Keys == ss[k].Keys
    ensures forall b :: b in ss[k] ==>
              ss[k + 1][b] == if es[k].issued != Some(b) || (ss[k][b].status.Active? && ss[k][b].peer == Some(peer))
                              then ss[k][b] else Wallet(Some(peer), Active, Some(es[k].now))
  {
    TraceKeepsInv(ss, es, k);
    TraceKeepsInv(ss, es, k + 1);
    var s := ss[k];
    forall a | a in s && s[a].peer == Some(peer) ensures LiveFor(s[a], peer) {
      assert !s[a].status.Inactive?;
    }
    if es[k].issued.Some? {
      var a := es[k].issued.value;
      assert LiveFor(s[a], peer) || a in Pool(s);
    } else {
      assert forall a :: a in s ==> !LiveFor(s[a], peer) && !s[a].status.Inactive?;
    }
  }

  // -------------------
  // | Losing a wallet |
  // -------------------

  ghost predicate Omits(e: Event, p: PeerId) {
    e.Report? && p !in e.active
  }

  /** Wallet `a` keeps the value `w` from state `i` through state `j`. */
  ghost predicate Holds(ss: seq<Table>, a: Address, w: Wallet, i: nat, j: nat) {
    j < |ss| && forall x :: i <= x <= j ==> a in ss[x] && ss[x][a] == w
  }

  /** The only ways one handler changes a wallet that has a peer. */
  lemma OwnedWalletStep(s: Table, e: Event, s': Table, a: Address)
    requires Inv(s) && Step(s, e, s') && a in s && s[a].peer.Some?
    ensures a in s'
    ensures var w, p := s[a], s[a].peer.value;
            || s'[a] == w
            || s'[a] == Activated(p, e.now)
            || (w.status.Active? && Omits(e, p) && s'[a] == w.(status := Pending)
                && (w.activatedAt.value <= e.now ==> e.now - w.activatedAt.value >= GAS_WALLET_RECLAIM_GRACE))
            || (w.status.Pending? && Omits(e, p) && s'[a] == w.(status := Inactive, peer := None))
    ensures s[a].status.Pending? && e.Report? ==> s'[a] != s[a]
  {
  }

  lemma ActiveStepBack(s: Table, e: Event, s': Table, a: Address)
    requires Inv(s) && Step(s, e, s') && a in s' && s'[a].status.Active?
    ensures a in s && s'[a].peer.Some?
    ensures s[a] == s'[a] || s'[a] == Activated(s'[a].peer.value, e.now)
  {
    StepKeepsInv(s, e, s');
  }

  lemma PendingStepBack(s: Table, e: Event, s': Table, a: Address)
    requires Inv(s) && Step(s, e, s') && a in s' && s'[a].status.Pending?
    ensures a in s && s[a].peer == s'[a].peer && s[a].peer.Some?
    ensures || (s[a] == s'[a] && !e.Report?)
            || (s[a].status.Active? && s'[a] == s[a].(status := Pending)
                && Omits(e, s[a].peer.value) && s[a].activatedAt.Some?
                && (s[a].activatedAt.value <= e.now ==> e.now - s[a].activatedAt.value >= GAS_WALLET_RECLAIM_GRACE))
  {
  }

  /** An active wallet has been exactly as it is since the handler that activated it. */
  lemma {:induction false} OwnedSince(ss: seq<Table>, es: seq<Event>, k: nat, a: Address) returns (i: nat)
    requires IsTrace(ss, es) && k < |ss| && a in ss[k] && ss[k][a].status.Active?
    ensures i < k && ss[k][a].peer.Some? && ss[k][a] == Activated(ss[k][a].peer.value, es[i].now)
    ensures Holds(ss, a, ss[k][a], i + 1, k)
  {
    hide Step;
    TraceKeepsInv(ss, es, k - 1);
    ActiveStepBack(ss[k - 1], es[k - 1], ss[k], a);
    if ss[k - 1][a] == ss[k][a] {
      i := OwnedSince(ss, es, k - 1, a);
    } else {
      i := k - 1;
    }
  }

  /** A pending wallet went pending at a report that omitted its peer after the grace period; no report came since. */
  lemma {:induction false} PendingSince(ss: seq<Table>, es: seq<Event>, k: nat, a: Address, p: PeerId)
    returns (i: nat, m: nat)
    requires IsTrace(ss, es) && k < |ss| && a in ss[k] && ss[k][a].status.Pending? && ss[k][a].peer == Some(p)
    ensures i < m < k && Omits(es[m], p) && (forall x :: m < x < k ==> !es[x].Report?)
    ensures Holds(ss, a, Activated(p, es[i].now), i + 1, m) && Holds(ss, a, ss[k][a], m + 1, k)
    ensures es[m].now - es[i].now >= GAS_WALLET_RECLAIM_GRACE
  {
    hide Step;
    TraceKeepsInv(ss, es, k - 1);
    PendingStepBack(ss[k - 1], es[k - 1], ss[k], a);
    if ss[k - 1][a] == ss[k][a] {
      i, m := PendingSince(ss, es, k - 1, a, p);
    } else {
      i := OwnedSince(ss, es, k - 1, a);
      m := k - 1;
      assert es[i].now <= es[m].now;
    }
  }

  lemma {:induction false} LastHeld(ss: seq<Table>, es: seq<Event>, i: nat, j: nat, a: Address, p: PeerId)
    returns (n: nat)
    requires IsTrace(ss, es) && i < j < |ss|
    requires a in ss[i] && ss[i][a].peer == Some(p) && a in ss[j] && ss[j][a].peer != Some(p)
    ensures i <= n < j && a in ss[n] && ss[n][a].peer == Some(p)
    ensures forall x :: n < x <= j ==> a in ss[x] && ss[x][a].peer != Some(p)
  {
    if a in ss[j - 1] && ss[j - 1][a].peer == Some(p) {
      n := j - 1;
    } else {
      assert a in ss[j - 1] by { StaysInTable(ss, es, i, j - 1, a); }
      n := LastHeld(ss, es, i, j - 1, a, p);
    }
  }

  lemma {:induction false} StaysInTable(ss: seq<Table>, es: seq<Event>, i: nat, j: nat, a: Address)
    requires IsTrace(ss, es) && i <= j < |ss| && a in ss[i]
    ensures a in ss[j]
  {
    if i < j {
      StaysInTable(ss, es, i, j - 1, a);
    }
  }

  /**
   If a peer holds a wallet active and later does not hold it, then there are two consecutive
   reports `m` and `n` that both omit the peer, the first of them at least 180 seconds after the
   peer's last activation of the wallet, at step `k`. Nothing re-activates it for the peer after `k`.
   */
  lemma WalletLostOnlyAfterTwoMisses(ss: seq<Table>, es: seq<Event>, i: nat, j: nat, a: Address, p: PeerId)
    returns (k: nat, m: nat, n: nat)
    requires IsTrace(ss, es) && i < j < |ss|
    requires a in ss[i] && ss[i][a].status.Active? && ss[i][a].peer == Some(p)
    requires a in ss[j] && ss[j][a].peer != Some(p)
    ensures i <= m < n < j && k < m
    ensures Omits(es[m], p) && Omits(es[n], p) && forall x :: m < x < n ==> !es[x].Report?
    ensures Holds(ss, a, Activated(p, es[k].now), k + 1, m)
    ensures es[m].now - es[k].now >= GAS_WALLET_RECLAIM_GRACE
    ensures Holds(ss, a, Activated(p, es[k].now).(status := Pending), m + 1, n)
    ensures forall x :: n < x <= j ==> a in ss[x] && ss[x][a].peer != Some(p)
  {
    n := LastHeld(ss, es, i, j, a, p);
    TraceKeepsInv(ss, es, n);
    OwnedWalletStep(ss[n], es[n], ss[n + 1], a);
    k, m := PendingSince(ss, es, n, a, p);
    assert ss[m + 1][a] == ss[n][a];
  }

  /**
   The safety property of the pool: a wallet issued to `p` and later issued to another peer was
   given up in between by two consecutive reports without `p`, the first at least 180 seconds
   after `p` last activated it.
   */
  lemma ReissueIsSafe(ss: seq<Table>, es: seq<Event>, i: nat, j: nat, a: Address) returns (k: nat, m: nat, n: nat)
    requires IsTrace(ss, es) && i < j < |es|
    requires es[i].Register? && es[j].Register? && es[i].issued == Some(a) == es[j].issued && es[i].peer != es[j].peer
    ensures i < m < n < j && k < m
    ensures Omits(es[m], es[i].peer) && Omits(es[n], es[i].peer) && forall x :: m < x < n ==> !es[x].Report?
    ensures Holds(ss, a, Activated(es[i].peer, es[k].now), k + 1, m)
    ensures es[m].now - es[k].now >= GAS_WALLET_RECLAIM_GRACE
    ensures forall x :: n < x <= j ==> a in ss[x] && ss[x][a].peer != Some(es[i].peer)
  {
    RegisterDrawsAtMostOne(ss, es, i, es[i].peer);
    RegisterDrawsAtMostOne(ss, es, j, es[j].peer);
    StaysInTable(ss, es, i + 1, j, a);
    TraceKeepsInv(ss, es, j);
    assert ss[j][a].peer != Some(es[i].peer);
    k, m, n := WalletLostOnlyAfterTwoMisses(ss, es, i + 1, j, a, es[i].peer);
  }

  /** A peer that no report omits keeps its wallet, whatever else happens. */
  lemma ReportedPeerKeepsWallet(ss: seq<Table>, es: seq<Event>, i: nat, j: nat, a: Address, p: PeerId)
    requires IsTrace(ss, es) && i <= j < |ss|
    requires a in ss[i] && ss[i][a].status.Active? && ss[i][a].peer == Some(p)
    requires forall x :: i <= x < j ==> !Omits(es[x], p)
    ensures a in ss[j] && ss[j][a].peer == Some(p)
  {
    StaysInTable(ss, es, i, j, a);
    if ss[j][a].peer != Some(p) {
      var _, _, _ := WalletLostOnlyAfterTwoMisses(ss, es, i, j, a, p);
    }
  }

  // -----------------------
  // | Reclaiming a wallet |
  // -----------------------

  lemma ReportStep(s: Table, e: Event, s': Table, a: Address, p: PeerId)
    requires Step(s, e, s') && e.Report? && a in s && s[a].peer == Some(p)
    ensures a in s'
    ensures s[a].status.Pending? ==>
              s'[a] == if p in e.active then Wallet(Some(p), Active, Some(e.now))
                       else Wallet(None, Inactive, s[a].activatedAt)
    ensures s[a].status.Active? && p in e.active ==> s'[a] == s[a]
    ensures s[a].status.Active? && p !in e.active && s[a].activatedAt.Some? && s[a].activatedAt.value <= e.now ==>
              s'[a] == if e.now - s[a].activatedAt.value < 180_000 then s[a]
                       else Wallet(Some(p), Pending, s[a].activatedAt)
  {
  }

  /**
   A report that omits the peer of an active wallet, exactly: the wallet goes pending iff 180
   seconds or more have passed since the handler `i` that activated it, and is otherwise unchanged.
   */
  lemma MissedActiveWalletIff(ss: seq<Table>, es: seq<Event>, k: nat, a: Address, p: PeerId) returns (i: nat)
    requires IsTrace(ss, es) && k < |es| && Omits(es[k], p)
    requires a in ss[k] && ss[k][a].status.Active? && ss[k][a].peer == Some(p)
    ensures i < k && Holds(ss, a, Wallet(Some(p), Active, Some(es[i].now)), i + 1, k) && a in ss[k + 1]
    ensures ss[k + 1][a].status.Pending? <==> es[k].now - es[i].now >= 180_000
    ensures !ss[k + 1][a].status.Pending? ==> ss[k + 1][a] == ss[k][a]
    ensures ss[k + 1][a].peer == Some(p)
  {
    hide Step;
    i := OwnedSince(ss, es, k, a);
    ReportStep(ss[k], es[k], ss[k + 1], a, p);
  }

  /** A report that contains the peer of a pending wallet activates it again, and leaves an active one as it is. */
  lemma ReportedWalletIsActive(ss: seq<Table>, es: seq<Event>, k: nat, a: Address, p: PeerId)
    requires IsTrace(ss, es) && k < |es| && es[k].Report? && p in es[k].active
    requires a in ss[k] && ss[k][a].peer == Some(p)
    ensures a in ss[k + 1] && ss[k + 1][a].status.Active? && ss[k + 1][a].peer == Some(p)
    ensures ss[k][a].status.Pending? ==> ss[k + 1][a].activatedAt == Some(es[k].now)
    ensures ss[k][a].status.Active? ==> ss[k + 1][a] == ss[k][a]
  {
    hide Step;
    TraceKeepsInv(ss, es, k);
    ReportStep(ss[k], es[k], ss[k + 1], a, p);
  }

  /** Reports leave the pool's wallets alone, and a new wallet joins the pool without touching any other. */
  lemma PoolIsLeftAlone(ss: seq<Table>, es: seq<Event>, k: nat, a: Address)
    requires IsTrace(ss, es) && k < |es| && (es[k].Report? || es[k].Create?)
    ensures a in Pool(ss[k]) ==> a in ss[k + 1] && ss[k + 1][a] == ss[k][a]
    ensures es[k].Create? ==> Pool(ss[k + 1]) == Pool(ss[k]) + {es[k].address} && es[k].address !in ss[k]
    ensures es[k].Create? && a in ss[k] ==> a in ss[k + 1] && ss[k + 1][a] == ss[k][a]
  {
    TraceKeepsInv(ss, es, k);
  }

  lemma PendingStays(s: Table, e: Event, s': Table, a: Address, p: PeerId)
    requires Inv(s) && Step(s, e, s') && a in s && s[a].status.Pending? && s[a].peer == Some(p)
    requires !e.Report? && !(e.Register? && e.peer == p)
    ensures a in s' && s'[a] == s[a]
  {
  }

  lemma {:induction false} PendingUntil(ss: seq<Table>, es: seq<Event>, m: nat, n: nat, a: Address, p: PeerId)
    requires IsTrace(ss, es) && m <= n < |ss|
    requires a in ss[m] && ss[m][a].status.Pending? && ss[m][a].peer == Some(p)
    requires forall x :: m <= x < n ==> !es[x].Report? && !(es[x].Register? && es[x].peer == p)
    ensures a in ss[n] && ss[n][a] == ss[m][a]
  {
    hide Step;
    if m < n {
      PendingUntil(ss, es, m, n - 1, a, p);
      TraceKeepsInv(ss, es, n - 1);
      PendingStays(ss[n - 1], es[n - 1], ss[n], a, p);
    }
  }

  /**
   An absent peer loses its wallet: after two consecutive reports `m` and `n` without it, the first
   180 seconds or more after the activation `i`, and no registration of the peer in between, the
   wallet is back in the pool. Together with WalletLostOnlyAfterTwoMisses this is exact.
   */
  lemma AbsentPeerIsReclaimed(ss: seq<Table>, es: seq<Event>, i: nat, m: nat, n: nat, a: Address, p: PeerId)
    requires IsTrace(ss, es) && i < m < n < |es|
    requires Holds(ss, a, Wallet(Some(p), Active, Some(es[i].now)), i + 1, m)
    requires Omits(es[m], p) && Omits(es[n], p) && es[m].now - es[i].now >= 180_000
    requires forall x :: m < x < n ==> !es[x].Report? && !(es[x].Register? && es[x].peer == p)
    ensures a in ss[n + 1] && ss[n + 1][a].peer.None? && a in Pool(ss[n + 1])
  {
    hide Step;
    ReportStep(ss[m], es[m], ss[m + 1], a, p);
    PendingUntil(ss, es, m + 1, n, a, p);
    ReportStep(ss[n], es[n], ss[n + 1], a, p);
  }
}
