/**
 Two pieces of money arithmetic of the funds manager, over the reals: the gas refill pass of
 funds-manager/funds-manager-server/src/custody_client/gas_wallets.rs and the Hyperliquid
 withdrawal of custody_client/withdraw.rs with `round_up` of helpers.rs.
 */
module FundsTransfers {

  // --------------
  // | Gas refill |
  // --------------

  function Max(a: real, b: real): real {
    if a < b then b else a
  }

  /** What it takes to bring wallets `i` onwards up to `fillTo`. */
  function Need(balances: seq<real>, i: nat, fillTo: real): real
    requires i <= |balances|
    decreases |balances| - i
  {
    if i == |balances| then 0.0 else Max(fillTo - balances[i], 0.0) + Need(balances, i + 1, fillTo)
  }

  /** What topping up wallets `i` onwards spends: a wallet above the threshold is skipped. */
  function Spend(balances: seq<real>, i: nat, target: real, threshold: real): real
    requires i <= |balances|
    decreases |balances| - i
  {
    if i == |balances| then 0.0
    else (if balances[i] > threshold then 0.0 else target - balances[i]) + Spend(balances, i + 1, target, threshold)
  }

  function Total(balances: seq<real>, i: nat): real
    requires i <= |balances|
    decreases |balances| - i
  {
    if i == |balances| then 0.0 else balances[i] + Total(balances, i + 1)
  }

  /** The fill level of a pass: an even split of the hot wallet when it cannot cover the whole need. */
  function Target(hot: real, balances: seq<real>, fillTo: real): real {
    if balances != [] && hot < Need(balances, 0, fillTo) then hot / |balances| as real else fillTo
  }

  /** A wallet above this balance is not topped up to `amount`. */
  function Threshold(amount: real, tolerance: real): real {
    amount * tolerance
  }

  /** For a positive target, a wallet is above the threshold iff it holds more than the tolerated share of it. */
  lemma AboveThresholdIff(balance: real, amount: real, tolerance: real)
    ensures amount > 0.0 ==> (balance > Threshold(amount, tolerance) <==> balance / amount > tolerance)
    ensures amount == 0.0 ==> (balance > Threshold(amount, tolerance) <==> balance > 0.0)
  {
    if amount > 0.0 {
      var share := balance / amount;
      assert balance == share * amount;
      if share > tolerance {
        assert (share - tolerance) * amount > 0.0;
      } else {
        assert (tolerance - share) * amount >= 0.0;
      }
    }
  }

  /** A larger tolerance never skips a wallet that a smaller one tops up. */
  lemma ToleranceIsMonotone(balance: real, amount: real, tolerance: real, larger: real)
    requires amount >= 0.0 && tolerance <= larger && balance <= Threshold(amount, tolerance)
    ensures balance <= Threshold(amount, larger)
  {
    assert amount * (larger - tolerance) >= 0.0;
  }

  /** The need is what it costs to bring every wallet that is not above the fill level to exactly that level. */
  lemma {:induction false} NeedIsFullRefill(balances: seq<real>, i: nat, fillTo: real)
    requires i <= |balances|
    ensures Need(balances, i, fillTo) == Spend(balances, i, fillTo, fillTo)
    decreases |balances| - i
  {
    if i < |balances| {
      NeedIsFullRefill(balances, i + 1, fillTo);
    }
  }

  /**
   The fill level of a pass, exactly: the desired one if the hot wallet covers a full refill, and
   else the level at which one share for each wallet uses up the hot wallet.
   */
  lemma TargetIff(hot: real, balances: seq<real>, fillTo: real)
    requires hot >= 0.0
    ensures hot >= Spend(balances, 0, fillTo, fillTo) ==> Target(hot, balances, fillTo) == fillTo
    ensures hot < Spend(balances, 0, fillTo, fillTo) ==>
              |balances| > 0 && Target(hot, balances, fillTo) * |balances| as real == hot
  {
    NeedIsFullRefill(balances, 0, fillTo);
  }

  lemma {:induction false} SpendAtMostNeed(balances: seq<real>, i: nat, fillTo: real, threshold: real)
    requires i <= |balances|
    ensures Spend(balances, i, fillTo, threshold) <= Need(balances, i, fillTo)
    decreases |balances| - i
  {
    if i < |balances| {
      SpendAtMostNeed(balances, i + 1, fillTo, threshold);
    }
  }

  lemma {:induction false} SpendAtMostShares(balances: seq<real>, i: nat, target: real, threshold: real)
    requires i <= |balances| && target >= 0.0
    requires forall j :: 0 <= j < |balances| ==> balances[j] >= 0.0
    ensures Spend(balances, i, target, threshold) <= (|balances| - i) as real * target
    decreases |balances| - i
  {
    if i < |balances| {
      SpendAtMostShares(balances, i + 1, target, threshold);
      assert (|balances| - i) as real == (|balances| - (i + 1)) as real + 1.0;
    }
  }

  /** In either branch a whole pass spends no more than the hot wallet holds. */
  lemma PassIsAffordable(hot: real, balances: seq<real>, fillTo: real, threshold: real)
    requires hot >= 0.0 && forall j :: 0 <= j < |balances| ==> balances[j] >= 0.0
    ensures Spend(balances, 0, Target(hot, balances, fillTo), threshold) <= hot
  {
    if balances != [] && hot < Need(balances, 0, fillTo) {
      var n := |balances| as real;
      assert hot / n >= 0.0 && n * (hot / n) == hot;
      SpendAtMostShares(balances, 0, hot / n, threshold);
    } else {
      SpendAtMostNeed(balances, 0, fillTo, threshold);
    }
  }

  /** A top-up never takes ether back from a wallet, so what is still to spend is not negative. */
  lemma {:induction false} SpendIsNotNegative(balances: seq<real>, i: nat, target: real, threshold: real)
    requires i <= |balances| && threshold <= target
    ensures Spend(balances, i, target, threshold) >= 0.0
    decreases |balances| - i
  {
    if i < |balances| {
      SpendIsNotNegative(balances, i + 1, target, threshold);
    }
  }

  lemma TargetIsNotNegative(hot: real, balances: seq<real>, fillTo: real)
    requires hot >= 0.0 && fillTo >= 0.0
    ensures Target(hot, balances, fillTo) >= 0.0
  {
    hide Need;
    if balances != [] {
      assert |balances| as real > 0.0;
    }
  }

  lemma ThresholdIsFraction(t: real, tolerance: real)
    requires t >= 0.0 && 0.0 <= tolerance <= 1.0
    ensures 0.0 <= Threshold(t, tolerance) <= t
  {
    assert t * (1.0 - tolerance) >= 0.0;
  }

  lemma ThresholdBelowTarget(hot: real, balances: seq<real>, fillTo: real, tolerance: real)
    requires hot >= 0.0 && fillTo >= 0.0 && 0.0 <= tolerance <= 1.0
    ensures var target := Target(hot, balances, fillTo); 0.0 <= Threshold(target, tolerance) <= target
  {
    hide Target, Threshold;
    TargetIsNotNegative(hot, balances, fillTo);
    ThresholdIsFraction(Target(hot, balances, fillTo), tolerance);
  }

  lemma {:induction false} TotalUpdate(balances: seq<real>, i: nat, k: nat, v: real)
    requires k < |balances| && i <= |balances|
    ensures Total(balances[k := v], i) == Total(balances, i) + if i <= k then v - balances[k] else 0.0
    decreases |balances| - i
  {
    if i < |balances| {
      TotalUpdate(balances, i + 1, k, v);
    }
  }

  class GasFunds {
    var hot: real
    var wallets: seq<real>

    constructor (hot: real, wallets: seq<real>)
      ensures this.hot == hot && this.wallets == wallets
    {
      this.hot, this.wallets := hot, wallets;
    }

    /** A transfer on chain; it goes through only if the hot wallet covers it. Gas is not modelled. */
    method TransferEther(i: nat, amount: real)
      requires i < |wallets| && amount <= hot
      modifies this
      ensures hot == old(hot) - amount && wallets == old(wallets)[i := old(wallets)[i] + amount]
    {
      hot := hot - amount;
      wallets := wallets[i := wallets[i] + amount];
    }

    method TopUpGasWithTolerance(i: nat, amount: real, tolerance: real)
      requires i < |wallets|
      requires wallets[i] <= Threshold(amount, tolerance) ==> amount - wallets[i] <= hot
      modifies this
      ensures old(wallets)[i] > Threshold(amount, tolerance) ==> hot == old(hot) && wallets == old(wallets)
      ensures old(wallets)[i] <= Threshold(amount, tolerance) ==>
                hot == old(hot) - (amount - old(wallets)[i]) && wallets == old(wallets)[i := amount]
      ensures amount > 0.0 && old(wallets)[i] / amount > tolerance ==> hot == old(hot) && wallets == old(wallets)
      ensures amount > 0.0 && old(wallets)[i] / amount <= tolerance ==>
                hot == old(hot) - (amount - old(wallets)[i]) && wallets == old(wallets)[i := amount]
    {
      AboveThresholdIff(wallets[i], amount, tolerance);
      var bal := wallets[i];
      if bal > Threshold(amount, tolerance) {
        return;
      }
      TransferEther(i, amount - bal);
    }

    method TotalNeed(fillTo: real) returns (total: real)
      ensures total == Need(wallets, 0, fillTo)
    {
      total := 0.0;
      for i := 0 to |wallets|
        invariant total + Need(wallets, i, fillTo) == Need(wallets, 0, fillTo)
      {
        total := total + Max(fillTo - wallets[i], 0.0);
      }
    }

    method ChooseTarget(fillTo: real) returns (target: real)
      requires hot >= 0.0
      ensures target == Target(hot, wallets, fillTo)
    {
      var totalAmount := TotalNeed(fillTo);
      target := if hot < totalAmount then hot / |wallets| as real else fillTo;
    }

    method TopUpAll(target: real, tolerance: real)
      requires Threshold(target, tolerance) <= target && hot >= Spend(wallets, 0, target, Threshold(target, tolerance))
      modifies this
      ensures hot >= 0.0 && |wallets| == |old(wallets)|
      ensures hot + Total(wallets, 0) == old(hot) + Total(old(wallets), 0)
      ensures forall j :: 0 <= j < |wallets| ==>
                wallets[j] == if old(wallets)[j] > Threshold(target, tolerance) then old(wallets)[j] else target
    {
      hide Threshold;
      ghost var threshold := Threshold(target, tolerance);
      for i := 0 to |wallets|
        invariant |wallets| == |old(wallets)|
        invariant hot >= Spend(old(wallets), i, target, threshold)
        invariant hot + Total(wallets, 0) == old(hot) + Total(old(wallets), 0)
        invariant forall j :: i <= j < |wallets| ==> wallets[j] == old(wallets)[j]
        invariant forall j :: 0 <= j < i ==>
                    wallets[j] == if old(wallets)[j] > threshold then old(wallets)[j] else target
      {
        SpendIsNotNegative(old(wallets), i + 1, target, threshold);
        TotalUpdate(wallets, 0, i, target);
        TopUpGasWithTolerance(i, target, tolerance);
      }
    }

    /**
     One refill pass. No transfer of it overdraws the hot wallet and ether is conserved. A wallet
     that holds more than the tolerated share of a positive target is left alone, and any other ends
     with exactly the target.
     */
    method RefillGasForWallets(fillTo: real, tolerance: real)
      requires hot >= 0.0 && forall j :: 0 <= j < |wallets| ==> wallets[j] >= 0.0
      requires fillTo >= 0.0 && 0.0 <= tolerance <= 1.0
      modifies this
      ensures hot >= 0.0 && |wallets| == |old(wallets)|
      ensures hot + Total(wallets, 0) == old(hot) + Total(old(wallets), 0)
      ensures var target := Target(old(hot), old(wallets), fillTo);
              && (target > 0.0 ==> forall j :: 0 <= j < |wallets| ==>
                    wallets[j] == if old(wallets)[j] / target > tolerance then old(wallets)[j] else target)
              && (target <= 0.0 ==> wallets == old(wallets))
    {
      hide Threshold, Target;
      ghost var before := wallets;
      var target := ChooseTarget(fillTo);
      ThresholdBelowTarget(hot, wallets, fillTo, tolerance);
      PassIsAffordable(hot, wallets, fillTo, Threshold(target, tolerance));
      TargetIsNotNegative(hot, wallets, fillTo);
      TopUpAll(target, tolerance);
      forall j | 0 <= j < |wallets|
        ensures target > 0.0 ==> wallets[j] == if before[j] / target > tolerance then before[j] else target
        ensures target == 0.0 ==> wallets[j] == before[j]
      {
        AboveThresholdIff(before[j], target, tolerance);
      }
    }
  }

  // --------------------------
  // | Hyperliquid withdrawal |
  // --------------------------

  const UNITS_PER_USDC := 1_000_000.0

  function Ceil(x: real): int {
    -((-x).Floor)
  }

  /** Round away from zero to six decimals, as `round_up` does. */
  function RoundUp(x: real): real {
    if x >= 0.0 then Ceil(x * UNITS_PER_USDC) as real / UNITS_PER_USDC
    else -(Ceil(-x * UNITS_PER_USDC) as real / UNITS_PER_USDC)
  }

  /** A whole number of USDC base units. */
  ghost predicate OnGrid(x: real) {
    exists k: int :: x == Units(k)
  }

  function Units(k: int): real {
    k as real / UNITS_PER_USDC
  }

  /** For amounts that are not negative, the least multiple of a base unit that covers the amount. */
  lemma RoundUpIsLeast(x: real)
    ensures OnGrid(RoundUp(x))
    ensures x >= 0.0 ==> x <= RoundUp(x) < x + 1.0 / UNITS_PER_USDC
    ensures x < 0.0 ==> x - 1.0 / UNITS_PER_USDC < RoundUp(x) <= x
    ensures x >= 0.0 ==> forall g :: OnGrid(g) && x <= g ==> RoundUp(x) <= g
  {
    if x >= 0.0 {
      assert RoundUp(x) == Units(Ceil(x * UNITS_PER_USDC));
      forall g | OnGrid(g) && x <= g ensures RoundUp(x) <= g {
        var k: int :| g == Units(k);
        assert x * UNITS_PER_USDC <= k as real;
        assert Ceil(x * UNITS_PER_USDC) <= k;
      }
    } else {
      assert RoundUp(x) == Units(-Ceil(-x * UNITS_PER_USDC));
    }
  }

  lemma RoundUpFixesGrid(x: real)
    requires OnGrid(x) && x >= 0.0
    ensures RoundUp(x) == x
  {
    RoundUpIsLeast(x);
  }

  lemma GridDifference(x: real, y: real)
    requires OnGrid(x) && OnGrid(y)
    ensures OnGrid(x - y)
  {
    var i: int :| x == Units(i);
    var j: int :| y == Units(j);
    assert x - y == Units(i - j);
  }

  datatype WithdrawResult = Bridged(toppedUp: real) | InsufficientQuoter | VaultOverdrawn

  /** The quoter hot wallet, the Hyperliquid vault and the bridge. */
  datatype Usdc = Usdc(quoter: real, vault: real, bridge: real)

  class HyperliquidFunds {
    var quoter: real
    var vault: real
    var bridge: real

    function Abs(): Usdc
      reads this
    {
      Usdc(quoter, vault, bridge)
    }

    constructor (quoter: real, vault: real)
      ensures Abs() == Usdc(quoter, vault, 0.0)
    {
      this.quoter, this.vault, this.bridge := quoter, vault, 0.0;
    }

    /** The top-up is decided against the unrounded amount; the bridge moves the rounded one. */
    method WithdrawToHyperliquid(amount: real) returns (r: WithdrawResult)
      modifies this
      ensures (r, Abs()) == Withdraw(old(Abs()), amount)
    {
      var rounded := RoundUp(amount);
      var available := vault;
      var toTransfer := 0.0;
      if available < amount {
        toTransfer := RoundUp(rounded - available);
        if quoter < toTransfer {
          return InsufficientQuoter;
        }
        quoter := quoter - toTransfer;
        vault := vault + toTransfer;
      }
      if vault < rounded {
        return VaultOverdrawn;
      }
      vault := vault - rounded;
      bridge := bridge + rounded;
      return Bridged(toTransfer);
    }
  }

  /** The withdrawal on values. */
  function Withdraw(u: Usdc, amount: real): (WithdrawResult, Usdc) {
    var rounded := RoundUp(amount);
    var toTransfer := if u.vault < amount then RoundUp(rounded - u.vault) else 0.0;
    if u.vault < amount && u.quoter < toTransfer then (InsufficientQuoter, u)
    else
      var u' := Usdc(u.quoter - toTransfer, u.vault + toTransfer, u.bridge);
      if u'.vault < rounded then (VaultOverdrawn, u')
      else (Bridged(toTransfer), Usdc(u'.quoter, u'.vault - rounded, u'.bridge + rounded))
  }

  /**
   The bridge step overdraws the vault exactly when the vault covers the requested amount but
   not the rounded one. A vault that holds whole base units is never in that gap.
   */
  lemma BridgeOverdrawsIff(u: Usdc, amount: real)
    requires u.vault >= 0.0
    ensures Withdraw(u, amount).0 == VaultOverdrawn <==> amount <= u.vault < RoundUp(amount)
    ensures OnGrid(u.vault) ==> Withdraw(u, amount).0 != VaultOverdrawn
  {
    RoundUpIsLeast(amount);
    RoundUpIsLeast(RoundUp(amount) - u.vault);
  }

  /** A vault with a fraction of a base unit can be in that gap. */
  lemma FractionalVaultIsOverdrawn(quoter: real)
    ensures Withdraw(Usdc(quoter, 0.0000005, 0.0), 0.0000003).0 == VaultOverdrawn
  {
    assert 0.0000003 * UNITS_PER_USDC == 0.3;
    assert Ceil(0.3) == 1;
    assert RoundUp(0.0000003) == 0.000001;
    BridgeOverdrawsIff(Usdc(quoter, 0.0000005, 0.0), 0.0000003);
  }

  /**
   For a vault of whole base units a top-up brings it to exactly the rounded amount, so the
   bridge empties it, and exceeds the real shortfall by less than one base unit.
   */
  lemma TopUpIsTight(u: Usdc, amount: real)
    requires OnGrid(u.vault) && u.vault >= 0.0 && u.vault < amount
    ensures var (r, u') := Withdraw(u, amount);
            var needed := RoundUp(amount) - u.vault;
            && (r == InsufficientQuoter <==> u.quoter < needed)
            && (r != InsufficientQuoter ==> r == Bridged(needed) && u'.vault == 0.0 && u'.quoter == u.quoter - needed)
            && amount - u.vault <= needed < amount - u.vault + 1.0 / UNITS_PER_USDC
  {
    RoundUpIsLeast(amount);
    GridDifference(RoundUp(amount), u.vault);
    RoundUpFixesGrid(RoundUp(amount) - u.vault);
  }

  /**
   Every case of a withdrawal. A vault that covers the amount is never topped up, and then the
   bridge gets the rounded amount out of it or the step overdraws. Any other is topped up by what
   the rounded amount lacks, rounded again, if the quoter wallet covers that.
   */
  lemma WithdrawCases(u: Usdc, amount: real)
    requires u.vault >= 0.0
    ensures var (r, u') := Withdraw(u, amount);
            var rounded, lacking := RoundUp(amount), RoundUp(RoundUp(amount) - u.vault);
            && (u.vault >= amount && u.vault >= rounded ==>
                  r == Bridged(0.0) && u' == Usdc(u.quoter, u.vault - rounded, u.bridge + rounded))
            && (u.vault >= amount && u.vault < rounded ==> r == VaultOverdrawn && u' == u)
            && (u.vault < amount && u.quoter < lacking ==> r == InsufficientQuoter && u' == u)
            && (u.vault < amount && u.quoter >= lacking ==>
                  && r == Bridged(lacking)
                  && u' == Usdc(u.quoter - lacking, u.vault + lacking - rounded, u.bridge + rounded))
  {
    RoundUpIsLeast(amount);
    RoundUpIsLeast(RoundUp(amount) - u.vault);
  }

  /** Whatever happens, USDC only moves: nothing is created or lost, and a refusal moves nothing. */
  lemma WithdrawConserves(u: Usdc, amount: real)
    ensures var (r, u') := Withdraw(u, amount);
            && u'.quoter + u'.vault + u'.bridge == u.quoter + u.vault + u.bridge
            && (r == InsufficientQuoter ==> u' == u)
            && (r.Bridged? ==> u'.bridge == u.bridge + RoundUp(amount) && u'.vault >= 0.0)
  {
  }

  /** The balances after a list of withdrawals. */
  function WithdrawAll(u: Usdc, amounts: seq<real>): Usdc {
    if amounts == [] then u
    else Withdraw(WithdrawAll(u, amounts[..|amounts| - 1]), amounts[|amounts| - 1]).1
  }

  lemma WithdrawKeepsGrid(u: Usdc, amount: real)
    requires OnGrid(u.vault) && u.vault >= 0.0
    ensures var (r, u') := Withdraw(u, amount); r != VaultOverdrawn && OnGrid(u'.vault) && u'.vault >= 0.0
  {
    BridgeOverdrawsIff(u, amount);
    WithdrawConserves(u, amount);
    RoundUpIsLeast(amount);
    GridDifference(u.vault, RoundUp(amount));
    GridDifference(u.vault, u.vault);
    if u.vault < amount {
      TopUpIsTight(u, amount);
    }
  }

  /**
   Over any list of withdrawals from a vault of whole base units the vault keeps whole base units,
   so no bridge step ever overdraws it, and USDC is conserved.
   */
  lemma {:induction false} VaultNeverOverdrawn(u: Usdc, amounts: seq<real>, amount: real)
    requires OnGrid(u.vault) && u.vault >= 0.0
    ensures var u' := WithdrawAll(u, amounts);
            && OnGrid(u'.vault) && u'.vault >= 0.0 && Withdraw(u', amount).0 != VaultOverdrawn
            && u'.quoter + u'.vault + u'.bridge == u.quoter + u.vault + u.bridge
  {
    if amounts != [] {
      var n := |amounts| - 1;
      VaultNeverOverdrawn(u, amounts[..n], amounts[n]);
      WithdrawKeepsGrid(WithdrawAll(u, amounts[..n]), amounts[n]);
      WithdrawConserves(WithdrawAll(u, amounts[..n]), amounts[n]);
    }
    WithdrawKeepsGrid(WithdrawAll(u, amounts), amount);
  }
}
