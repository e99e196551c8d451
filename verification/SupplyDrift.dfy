/**
 The stored total supply against the sum of the wallet balances, over every
 serial run of contract calls from the empty world state.
 */
module SupplyDrift {
  import opened Outcomes
  import opened MapSums
  import opened WalletContract

  /** Half of the last printed decimal: what one rounding of the supply can lose or gain. */
  const HALF_TICK: real := 0.00005

  function BalanceOf(v: Value): real { if v.WalletBytes? then v.wallet.balance else 0.0 }

  ghost function SumOfBalances(s: State): real { Sum(s, BalanceOf) }

  // ---------- serial runs ----------

  function Run(calls: seq<Call>): State {
    if calls == [] then map[] else Exec(calls[|calls| - 1], Run(calls[..|calls| - 1])).state
  }

  /** Whether the last call of a nonempty run succeeded. */
  predicate LastSucceeds(calls: seq<Call>)
    requires calls != []
  {
    Exec(calls[|calls| - 1], Run(calls[..|calls| - 1])).result.Ok?
  }

  /** Number of successful Mint and Melt calls in a run. */
  function SupplyUpdates(calls: seq<Call>): nat {
    if calls == [] then 0
    else SupplyUpdates(calls[..|calls| - 1])
         + if !calls[|calls| - 1].Transfer? && LastSucceeds(calls) then 1 else 0
  }

  predicate SelfTransfer(c: Call) { c.Transfer? && c.from == c.to }

  /** Sum of the amounts of the successful transfers from a wallet to itself. */
  function SelfCredits(calls: seq<Call>): real {
    if calls == [] then 0.0
    else SelfCredits(calls[..|calls| - 1])
         + if SelfTransfer(calls[|calls| - 1]) && LastSucceeds(calls) then calls[|calls| - 1].amount.value else 0.0
  }

  lemma {:induction false} RunKeepsWellTyped(calls: seq<Call>, u: string)
    ensures WellTyped(Run(calls))
    ensures Balance(Run(calls), u) >= 0.0
  {
    if calls != [] {
      RunKeepsWellTyped(calls[..|calls| - 1], u);
      ExecMovesBalances(calls[|calls| - 1], Run(calls[..|calls| - 1]), u);
    }
  }

  // ---------- one call ----------

  lemma StoreSum(s: State, w: Wallet)
    requires WellTyped(s)
    ensures SumOfBalances(Store(s, w)) == SumOfBalances(s) - Balance(s, w.walletID) + w.balance
  {
    SumUpdate(s, BalanceOf, WalletKey(w.walletID), WalletBytes(w));
  }

  lemma RecordSum(s: State, tx: Transaction)
    requires WellTyped(s)
    ensures SumOfBalances(Record(s, tx)) == SumOfBalances(s)
  {
    KeysApart();
    SumUpdate(s, BalanceOf, TxKey(tx.txID), TxBytes(tx));
  }

  lemma AddSupplySum(s: State, delta: real)
    requires WellTyped(s)
    ensures SumOfBalances(AddSupply(s, delta)) == SumOfBalances(s)
  {
    SumUpdate(s, BalanceOf, SUPPLY_KEY, SupplyBytes(RoundTicks(TotalSupply(s) + delta)));
  }

  lemma ExecOneSums(kind: string, w: Wallet, c: Call, delta: real, s: State)
    requires WellTyped(s) && !c.Transfer? && c.amount.Some?
    requires w == LoadOrNew(s, c.walletID) && w.balance + delta >= 0.0
    ensures var s' := ExecOne(kind, w, c, delta, s).state;
            && SumOfBalances(s') == SumOfBalances(s) + delta
            && TotalSupply(s') == TicksValue(RoundTicks(TotalSupply(s) + delta))
  {
    var w' := Credit(w, delta, c.now);
    var tx := ExecOne(kind, w, c, delta, s).result.value;
    LoadSound(s, c.walletID);
    StoreKeeps(s, w');
    StoreSum(s, w');
    RecordKeeps(Store(s, w'), tx);
    RecordSum(Store(s, w'), tx);
    AddSupplyKeeps(Record(Store(s, w'), tx), delta);
    AddSupplySum(Record(Store(s, w'), tx), delta);
  }

  lemma ExecTwoSums(c: Call, s: State)
    requires WellTyped(s) && c.Transfer? && Exec(c, s).result.Ok?
    ensures SumOfBalances(Exec(c, s).state) == SumOfBalances(s) + if c.from == c.to then c.amount.value else 0.0
    ensures TotalSupply(Exec(c, s).state) == TotalSupply(s)
  {
    LoadSound(s, c.from);
    LoadSound(s, c.to);
    var f' := Credit(LoadOrNew(s, c.from), -c.amount.value, c.now);
    var t' := Credit(LoadOrNew(s, c.to), c.amount.value, c.now);
    var tx := Exec(c, s).result.value;
    StoreKeeps(s, f');
    StoreSum(s, f');
    StoreKeeps(Store(s, f'), t');
    StoreSum(Store(s, f'), t');
    RecordKeeps(Store(Store(s, f'), t'), tx);
    RecordSum(Store(Store(s, f'), t'), tx);
  }

  /** A successful transfer conserves the sum of balances exactly when its two wallets differ. */
  lemma TransferConservesIff(c: Call, s: State)
    requires WellTyped(s) && c.Transfer? && Exec(c, s).result.Ok?
    ensures SumOfBalances(Exec(c, s).state) == SumOfBalances(s) <==> c.from != c.to
    ensures TotalSupply(Exec(c, s).state) == TotalSupply(s)
  {
    ExecTwoSums(c, s);
  }

  /** Sum and stored supply after a successful Mint or Melt, which move by the same amount up to rounding. */
  lemma SupplyCallSums(c: Call, s: State)
    requires WellTyped(s) && !c.Transfer? && Exec(c, s).result.Ok?
    ensures var delta := if c.Mint? then c.amount.value else -c.amount.value;
            && SumOfBalances(Exec(c, s).state) == SumOfBalances(s) + delta
            && TotalSupply(Exec(c, s).state) == TicksValue(RoundTicks(TotalSupply(s) + delta))
  {
    LoadSound(s, c.walletID);
    ExecOneSums(if c.Mint? then "mint" else "melt", LoadOrNew(s, c.walletID), c,
                if c.Mint? then c.amount.value else -c.amount.value, s);
  }

  /** Printing and parsing give back a multiple of 0.0001. */
  lemma RoundTicksExact(n: int)
    ensures RoundTicks(TicksValue(n)) == n
  {
    assert TicksValue(n) * 10000.0 == n as real;
  }

  const MINT_10 := Mint("w", Some(10.0), 0.0, "t0", "now")
  const PAY_SELF := Transfer("w", "w", Some(4.0), "t1", "now")

  lemma TenMinted()
    ensures var s := Run([MINT_10]);
            WellTyped(s) && SumOfBalances(s) == 10.0 && TotalSupply(s) == 10.0 && Balance(s, "w") == 10.0
  {
    assert Run([MINT_10]) == Exec(MINT_10, map[]).state;
    SupplyCallSums(MINT_10, map[]);
    RoundTicksExact(100000);
    ExecMovesBalances(MINT_10, map[], "w");
  }

  lemma FourToItself(s: State)
    requires WellTyped(s) && Balance(s, "w") >= 4.0
    ensures var o := Exec(PAY_SELF, s);
            && o.result.Ok? && TotalSupply(o.state) == TotalSupply(s)
            && SumOfBalances(o.state) == SumOfBalances(s) + 4.0 && Balance(o.state, "w") == Balance(s, "w") + 4.0
  {
    SucceedsIff(PAY_SELF, s);
    ExecTwoSums(PAY_SELF, s);
    ExecMovesBalances(PAY_SELF, s, "w");
  }

  /** Ten minted, then four of them paid by the wallet to itself: the supply says 10, the wallet holds 14. */
  lemma SelfTransferMakesMoney()
    ensures var s := Run([MINT_10, PAY_SELF]);
            && Exec(PAY_SELF, Run([MINT_10])).result.Ok?
            && SumOfBalances(s) == 14.0 && TotalSupply(s) == 10.0 && Balance(s, "w") == 14.0
  {
    assert [MINT_10, PAY_SELF][..1] == [MINT_10];
    TenMinted();
    FourToItself(Run([MINT_10]));
  }

  // ---------- whole runs ----------

  /** Stored supply minus sum of balances, with self-transfers accounted for. */
  ghost function Drift(calls: seq<Call>): real {
    TotalSupply(Run(calls)) - SumOfBalances(Run(calls)) + SelfCredits(calls)
  }

  lemma RefusedCallKeeps(c: Call, s: State)
    requires Exec(c, s).result.Err?
    ensures Exec(c, s).state == s
  {}

  lemma DriftStep(calls: seq<Call>)
    requires calls != []
    ensures var before := calls[..|calls| - 1];
            var n := SupplyUpdates(calls) - SupplyUpdates(before);
            && 0 <= n <= 1
            && -(n as real) * HALF_TICK <= Drift(calls) - Drift(before) <= n as real * HALF_TICK
  {
    var before, c := calls[..|calls| - 1], calls[|calls| - 1];
    RunKeepsWellTyped(before, "");
    if !LastSucceeds(calls) {
      RefusedCallKeeps(c, Run(before));
    } else if c.Transfer? {
      ExecTwoSums(c, Run(before));
    } else {
      SupplyCallSums(c, Run(before));
    }
  }

  /**
   After any run with k successful Mint/Melt calls the stored supply is within
   k * 0.00005 of the sum of all balances, once the credits made by transfers of a
   wallet to itself are taken out of that sum.
   */
  lemma {:induction false} DriftBound(calls: seq<Call>)
    ensures -(SupplyUpdates(calls) as real) * HALF_TICK <= Drift(calls) <= SupplyUpdates(calls) as real * HALF_TICK
  {
    if calls != [] {
      DriftBound(calls[..|calls| - 1]);
      DriftStep(calls);
    }
  }

  /** Multiples of 0.0001. */
  ghost predicate WholeTicks(x: real) { exists n :: x == TicksValue(n) }

  lemma TicksSum(x: real, y: real)
    requires WholeTicks(x) && WholeTicks(y)
    ensures TicksValue(RoundTicks(x + y)) == x + y
    ensures TicksValue(RoundTicks(x - y)) == x - y
  {
    var a :| x == TicksValue(a);
    var b :| y == TicksValue(b);
    RoundTicksExact(a + b);
    RoundTicksExact(a - b);
    assert TicksValue(a + b) == x + y && TicksValue(a - b) == x - y;
  }

  /** Stored supply minus sum of balances is unchanged, self-transfers set aside, by a whole-tick call. */
  lemma WholeTicksCall(c: Call, s: State)
    requires WellTyped(s) && WholeTicks(TotalSupply(s))
    requires !c.Transfer? && c.amount.Some? ==> WholeTicks(c.amount.value)
    ensures var o := Exec(c, s);
            && WholeTicks(TotalSupply(o.state))
            && TotalSupply(o.state) - SumOfBalances(o.state)
               + (if SelfTransfer(c) && o.result.Ok? then c.amount.value else 0.0)
               == TotalSupply(s) - SumOfBalances(s)
  {
    if Exec(c, s).result.Err? {
      RefusedCallKeeps(c, s);
    } else if c.Transfer? {
      ExecTwoSums(c, s);
    } else {
      SupplyCallSums(c, s);
      TicksSum(TotalSupply(s), c.amount.value);
    }
  }

  /** With amounts that are multiples of 0.0001 the stored supply is exact. */
  lemma {:induction false} NoDriftOnWholeTicks(calls: seq<Call>)
    requires forall c :: c in calls && !c.Transfer? && c.amount.Some? ==> WholeTicks(c.amount.value)
    ensures Drift(calls) == 0.0
    ensures WholeTicks(TotalSupply(Run(calls)))
  {
    assert TicksValue(0) == 0.0;
    if calls != [] {
      NoDriftOnWholeTicks(calls[..|calls| - 1]);
      assert calls[|calls| - 1] in calls;
      RunKeepsWellTyped(calls[..|calls| - 1], "");
      WholeTicksCall(calls[|calls| - 1], Run(calls[..|calls| - 1]));
    }
  }

  /** The supply report of a run in which no wallet pays itself. */
  lemma {:induction false} NoSelfTransferNoCredit(calls: seq<Call>)
    requires forall c :: c in calls ==> !SelfTransfer(c)
    ensures SelfCredits(calls) == 0.0
  {
    if calls != [] {
      assert calls[|calls| - 1] in calls;
      NoSelfTransferNoCredit(calls[..|calls| - 1]);
    }
  }

  /** The documented form: transfers only between distinct wallets. */
  lemma SupplyTracksBalances(calls: seq<Call>, u: string)
    requires forall c :: c in calls ==> !SelfTransfer(c)
    ensures var k := SupplyUpdates(calls) as real;
            && -k * HALF_TICK <= TotalSupply(Run(calls)) - SumOfBalances(Run(calls)) <= k * HALF_TICK
            && Balance(Run(calls), u) >= 0.0
    ensures (forall c :: c in calls && !c.Transfer? && c.amount.Some? ==> WholeTicks(c.amount.value))
            ==> TotalSupply(Run(calls)) == SumOfBalances(Run(calls))
  {
    NoSelfTransferNoCredit(calls);
    DriftBound(calls);
    RunKeepsWellTyped(calls, u);
    if forall c :: c in calls && !c.Transfer? && c.amount.Some? ==> WholeTicks(c.amount.value) {
      NoDriftOnWholeTicks(calls);
    }
  }

  // ---------- the bound is attained ----------

  const HALF_TICK_MINT := Mint("w", Some(HALF_TICK), 0.0, "t", "now")

  lemma HalfTickMintRoundsAway(s: State)
    requires WellTyped(s) && TotalSupply(s) == 0.0
    ensures Exec(HALF_TICK_MINT, s).result.Ok?
    ensures TotalSupply(Exec(HALF_TICK_MINT, s).state) == 0.0
    ensures SumOfBalances(Exec(HALF_TICK_MINT, s).state) == SumOfBalances(s) + HALF_TICK
  {
    SupplyCallSums(HALF_TICK_MINT, s);
    assert RoundTicks(HALF_TICK) == 0;
  }

  lemma OneMoreHalfTick(calls: seq<Call>)
    requires TotalSupply(Run(calls)) == 0.0
    ensures var more := calls + [HALF_TICK_MINT];
            && SupplyUpdates(more) == SupplyUpdates(calls) + 1
            && TotalSupply(Run(more)) == 0.0
            && SumOfBalances(Run(more)) == SumOfBalances(Run(calls)) + HALF_TICK
  {
    assert (calls + [HALF_TICK_MINT])[..|calls|] == calls;
    RunKeepsWellTyped(calls, "");
    HalfTickMintRoundsAway(Run(calls));
  }

  /** For every k, a run of k mints of 0.00005 drifts by the full k * 0.00005. */
  lemma {:induction false} DriftBoundIsTight(k: nat)
    ensures var calls := seq(k, _ => HALF_TICK_MINT);
            && SupplyUpdates(calls) == k
            && TotalSupply(Run(calls)) == 0.0
            && SumOfBalances(Run(calls)) == k as real * HALF_TICK
  {
    if k > 0 {
      DriftBoundIsTight(k - 1);
      OneMoreHalfTick(seq(k - 1, _ => HALF_TICK_MINT));
      assert seq(k, _ => HALF_TICK_MINT) == seq(k - 1, _ => HALF_TICK_MINT) + [HALF_TICK_MINT];
    }
  }
}
