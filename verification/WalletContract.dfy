/**
 The on-chain BTNG wallet contract: Mint, Melt and Transfer over the key/value
 world state. Amounts are exact reals; the stored supply text, printed with four
 decimals, is represented by the integer number of ten-thousandths it denotes.
 */
module WalletContract {
  import opened Outcomes

  /** The marshalled form of a WalletState. */
  datatype Wallet = Wallet(walletID: string, balance: real, updatedAt: string)

  datatype Transaction = Transaction(
    txID: string, kind: string, walletID: string, amount: real,
    balanceAfter: real, timestamp: string, goldPriceUSD: real)

  /** The three kinds of bytes the contract stores. */
  datatype Value = WalletBytes(wallet: Wallet) | TxBytes(tx: Transaction) | SupplyBytes(ticks: int)

  type State = map<string, Value>

  datatype Error =
    | WalletIDRequired
    | NotPositive(operation: string)
    | WalletNotFound(walletID: string)
    | Insufficient(walletID: string, has: real, requested: real)

  /** One contract invocation. An amount is None when its text does not parse. */
  datatype Call =
    | Mint(walletID: string, amount: Option<real>, goldPrice: real, txID: string, now: string)
    | Melt(walletID: string, amount: Option<real>, goldPrice: real, txID: string, now: string)
    | Transfer(from: string, to: string, amount: Option<real>, txID: string, now: string)

  datatype Outcome = Outcome(result: Result<Transaction, Error>, state: State)

  // ---------- keys ----------

  const SUPPLY_KEY := "BTNG_TOTAL_SUPPLY"

  function WalletKey(walletID: string): string { "WALLET_" + walletID }

  function TxKey(txID: string): string { "TX_" + txID }

  /** The three key families are disjoint and wallet keys are injective. */
  lemma KeysApart()
    ensures forall w :: WalletKey(w) != SUPPLY_KEY
    ensures forall id :: TxKey(id) != SUPPLY_KEY
    ensures forall w, id :: WalletKey(w) != TxKey(id)
    ensures forall w1, w2 :: WalletKey(w1) == WalletKey(w2) ==> w1 == w2
  {
    forall w ensures WalletKey(w) != SUPPLY_KEY { assert WalletKey(w)[0] == 'W'; }
    forall id ensures TxKey(id) != SUPPLY_KEY { assert TxKey(id)[0] == 'T'; }
    forall w, id ensures WalletKey(w) != TxKey(id) {
      assert WalletKey(w)[0] == 'W' && TxKey(id)[0] == 'T';
    }
    forall w1, w2 | WalletKey(w1) == WalletKey(w2) ensures w1 == w2 {
      assert w1 == WalletKey(w1)[7..] && w2 == WalletKey(w2)[7..];
    }
  }

  // ---------- supply text ----------

  /** Four-decimal printing: the nearest number of ten-thousandths, ties to even. */
  function RoundTicks(x: real): (n: int)
    ensures -0.5 <= x * 10000.0 - n as real <= 0.5
    ensures x * 10000.0 - n as real == 0.5 || x * 10000.0 - n as real == -0.5 ==> n % 2 == 0
  {
    var below := (x * 10000.0).Floor;
    var rest := x * 10000.0 - below as real;
    if rest < 0.5 || (rest == 0.5 && below % 2 == 0) then below else below + 1
  }

  /** Parsing the stored text back. */
  function TicksValue(ticks: int): real { ticks as real / 10000.0 }

  function SupplyOf(v: Option<Value>): real {
    if v.Some? && v.value.SupplyBytes? then TicksValue(v.value.ticks) else 0.0
  }

  function WalletOf(v: Option<Value>): Option<Wallet> {
    if v.Some? && v.value.WalletBytes? then Some(v.value.wallet) else None
  }

  function Lookup(s: State, key: string): Option<Value> {
    if key in s then Some(s[key]) else None
  }

  function Load(s: State, walletID: string): Option<Wallet> { WalletOf(Lookup(s, WalletKey(walletID))) }

  function Balance(s: State, walletID: string): real {
    match Load(s, walletID) case Some(w) => w.balance case None => 0.0
  }

  function TotalSupply(s: State): real { SupplyOf(Lookup(s, SUPPLY_KEY)) }

  // ---------- what one call does when it runs alone ----------

  function Store(s: State, w: Wallet): State { s[WalletKey(w.walletID) := WalletBytes(w)] }

  function Record(s: State, tx: Transaction): State { s[TxKey(tx.txID) := TxBytes(tx)] }

  function AddSupply(s: State, delta: real): State {
    s[SUPPLY_KEY := SupplyBytes(RoundTicks(TotalSupply(s) + delta))]
  }

  function LoadOrNew(s: State, walletID: string): Wallet {
    match Load(s, walletID) case Some(w) => w case None => Wallet(walletID, 0.0, "")
  }

  function Credit(w: Wallet, amount: real, now: string): Wallet {
    w.(balance := w.balance + amount, updatedAt := now)
  }

  /** The error a call ends with, if any; a refused call writes nothing. */
  function Refusal(c: Call, s: State): Option<Error> {
    if !c.Transfer? && c.walletID == "" then Some(WalletIDRequired)
    else if c.amount.None? || c.amount.value <= 0.0 then
      Some(NotPositive(if c.Mint? then "mint" else if c.Melt? then "melt" else "transfer"))
    else if c.Mint? then None
    else
      var payer := if c.Melt? then c.walletID else c.from;
      match Load(s, payer)
      case None => Some(WalletNotFound(payer))
      case Some(w) =>
        if w.balance < c.amount.value then Some(Insufficient(payer, w.balance, c.amount.value)) else None
  }

  function ExecOne(kind: string, w: Wallet, c: Call, delta: real, s: State): Outcome
    requires !c.Transfer? && c.amount.Some?
  {
    var w' := Credit(w, delta, c.now);
    var tx := Transaction(c.txID, kind, c.walletID, c.amount.value, w'.balance, c.now, c.goldPrice);
    Outcome(Ok(tx), AddSupply(Record(Store(s, w'), tx), delta))
  }

  function ExecTwo(f: Wallet, t: Wallet, c: Call, s: State): Outcome
    requires c.Transfer? && c.amount.Some?
  {
    var f', t' := Credit(f, -c.amount.value, c.now), Credit(t, c.amount.value, c.now);
    var tx := Transaction(c.txID, "transfer", c.from + "->" + c.to, c.amount.value, f'.balance, c.now, 0.0);
    Outcome(Ok(tx), Record(Store(Store(s, f'), t'), tx))
  }

  function Exec(c: Call, s: State): Outcome {
    if Refusal(c, s).Some? then Outcome(Err(Refusal(c, s).value), s)
    else match c
      case Mint(w, amount, _, _, _) => ExecOne("mint", LoadOrNew(s, w), c, amount.value, s)
      case Melt(w, amount, _, _, _) => ExecOne("melt", LoadOrNew(s, w), c, -amount.value, s)
      case Transfer(from, to, _, _, _) => ExecTwo(LoadOrNew(s, from), LoadOrNew(s, to), c, s)
  }

  // ---------- the contract itself ----------

  /** The wallet object that a handler fetches and updates in place. */
  class WalletState {
    const walletID: string
    var balance: real
    var updatedAt: string

    constructor (walletID: string, balance: real, updatedAt: string)
      ensures Marshal() == Wallet(walletID, balance, updatedAt)
    {
      this.walletID, this.balance, this.updatedAt := walletID, balance, updatedAt;
    }

    function Marshal(): Wallet
      reads this
    {
      Wallet(walletID, balance, updatedAt)
    }
  }

  /** The stub of one invocation that runs with the world state to itself. */
  class Stub {
    const txID: string
    var state: State

    constructor (txID: string, state: State)
      ensures this.txID == txID && this.state == state
    {
      this.txID, this.state := txID, state;
    }

    method GetState(key: string) returns (v: Option<Value>)
      ensures v == Lookup(state, key)
    {
      v := if key in state then Some(state[key]) else None;
    }

    method PutState(key: string, v: Value)
      modifies this
      ensures state == old(state)[key := v]
    {
      state := state[key := v];
    }
  }

  class BTNGWalletContract {
    constructor () {}

    /** A fresh wallet object, or null when the key is absent or does not hold a wallet. */
    method GetWalletState(ctx: Stub, walletID: string) returns (wallet: WalletState?)
      ensures wallet == null <==> Load(ctx.state, walletID).None?
      ensures wallet != null ==> fresh(wallet) && wallet.Marshal() == Load(ctx.state, walletID).value
      ensures wallet != null <==> "WALLET_" + walletID in ctx.state && ctx.state["WALLET_" + walletID].WalletBytes?
      ensures wallet != null ==> wallet.Marshal() == ctx.state["WALLET_" + walletID].wallet
    {
      var data := ctx.GetState(WalletKey(walletID));
      if data.None? || !data.value.WalletBytes? {
        return null;
      }
      var w := data.value.wallet;
      wallet := new WalletState(w.walletID, w.balance, w.updatedAt);
    }

    method PutWalletState(ctx: Stub, wallet: WalletState)
      modifies ctx
      ensures ctx.state == Store(old(ctx.state), wallet.Marshal())
      ensures ctx.state == old(ctx.state)["WALLET_" + wallet.walletID :=
                WalletBytes(Wallet(wallet.walletID, wallet.balance, wallet.updatedAt))]
    {
      ctx.PutState(WalletKey(wallet.walletID), WalletBytes(wallet.Marshal()));
    }

    method UpdateTotalSupply(ctx: Stub, delta: real)
      modifies ctx
      ensures ctx.state == AddSupply(old(ctx.state), delta)
      ensures var key := "BTNG_TOTAL_SUPPLY";
              && key in ctx.state && ctx.state[key].SupplyBytes?
              && ctx.state == old(ctx.state)[key := ctx.state[key]]
              && (key !in old(ctx.state) ==> -0.5 <= delta * 10000.0 - ctx.state[key].ticks as real <= 0.5)
              && (key in old(ctx.state) && old(ctx.state)[key].SupplyBytes? ==>
                    -0.5 <= delta * 10000.0 - (ctx.state[key].ticks - old(ctx.state)[key].ticks) as real <= 0.5)
    {
      var supplyBytes := ctx.GetState(SUPPLY_KEY);
      var currentSupply := SupplyOf(supplyBytes);
      var newSupply := currentSupply + delta;
      ctx.PutState(SUPPLY_KEY, SupplyBytes(RoundTicks(newSupply)));
    }

    method Mint(ctx: Stub, walletID: string, amount: Option<real>, goldPrice: real, now: string)
      returns (r: Result<Transaction, Error>)
      modifies ctx
      ensures Outcome(r, ctx.state) == Exec(Call.Mint(walletID, amount, goldPrice, ctx.txID, now), old(ctx.state))
      ensures r.Ok? <==> walletID != "" && amount.Some? && amount.value > 0.0
      ensures r.Err? ==> ctx.state == old(ctx.state)
                         && r.error == if walletID == "" then WalletIDRequired else NotPositive("mint")
      ensures r.Ok? ==>
                r.value == Transaction(ctx.txID, "mint", walletID, amount.value, r.value.balanceAfter, now, goldPrice)
    {
      if walletID == "" {
        return Err(WalletIDRequired);
      }
      if amount.None? || amount.value <= 0.0 {
        return Err(NotPositive("mint"));
      }
      var wallet := GetWalletState(ctx, walletID);
      if wallet == null {
        wallet := new WalletState(walletID, 0.0, "");
      }
      wallet.balance := wallet.balance + amount.value;
      wallet.updatedAt := now;
      PutWalletState(ctx, wallet);
      var tx := Transaction(ctx.txID, "mint", walletID, amount.value, wallet.balance, wallet.updatedAt, goldPrice);
      ctx.PutState(TxKey(tx.txID), TxBytes(tx));
      UpdateTotalSupply(ctx, amount.value);
      return Ok(tx);
    }

    method Melt(ctx: Stub, walletID: string, amount: Option<real>, goldPrice: real, now: string)
      returns (r: Result<Transaction, Error>)
      modifies ctx
      ensures Outcome(r, ctx.state) == Exec(Call.Melt(walletID, amount, goldPrice, ctx.txID, now), old(ctx.state))
      ensures r.Ok? <==> && walletID != "" && amount.Some? && amount.value > 0.0
                         && var w := Load(old(ctx.state), walletID); w.Some? && w.value.balance >= amount.value
      ensures r.Err? ==>
                && ctx.state == old(ctx.state)
                && r.error == if walletID == "" then WalletIDRequired
                              else if amount.None? || amount.value <= 0.0 then NotPositive("melt")
                              else match Load(old(ctx.state), walletID)
                                   case None => WalletNotFound(walletID)
                                   case Some(w) => Insufficient(walletID, w.balance, amount.value)
      ensures r.Ok? ==>
                r.value == Transaction(ctx.txID, "melt", walletID, amount.value, r.value.balanceAfter, now, goldPrice)
    {
      if walletID == "" {
        return Err(WalletIDRequired);
      }
      if amount.None? || amount.value <= 0.0 {
        return Err(NotPositive("melt"));
      }
      var wallet := GetWalletState(ctx, walletID);
      if wallet == null {
        return Err(WalletNotFound(walletID));
      }
      if wallet.balance < amount.value {
        return Err(Insufficient(walletID, wallet.balance, amount.value));
      }
      wallet.balance := wallet.balance - amount.value;
      wallet.updatedAt := now;
      PutWalletState(ctx, wallet);
      var tx := Transaction(ctx.txID, "melt", walletID, amount.value, wallet.balance, wallet.updatedAt, goldPrice);
      ctx.PutState(TxKey(tx.txID), TxBytes(tx));
      UpdateTotalSupply(ctx, -amount.value);
      return Ok(tx);
    }

    /** Both wallets are read before either is written: a self-transfer holds two copies of one wallet. */
    method Transfer(ctx: Stub, fromWallet: string, toWallet: string, amount: Option<real>, now: string)
      returns (r: Result<Transaction, Error>)
      modifies ctx
      ensures Outcome(r, ctx.state) == Exec(Call.Transfer(fromWallet, toWallet, amount, ctx.txID, now), old(ctx.state))
      ensures r.Ok? <==> && amount.Some? && amount.value > 0.0
                         && var w := Load(old(ctx.state), fromWallet); w.Some? && w.value.balance >= amount.value
      ensures r.Err? ==>
                && ctx.state == old(ctx.state)
                && r.error == if amount.None? || amount.value <= 0.0 then NotPositive("transfer")
                              else match Load(old(ctx.state), fromWallet)
                                   case None => WalletNotFound(fromWallet)
                                   case Some(w) => Insufficient(fromWallet, w.balance, amount.value)
      ensures r.Ok? ==>
                r.value == Transaction(ctx.txID, "transfer", fromWallet + "->" + toWallet, amount.value,
                                       r.value.balanceAfter, now, 0.0)
    {
      if amount.None? || amount.value <= 0.0 {
        return Err(NotPositive("transfer"));
      }
      var from := GetWalletState(ctx, fromWallet);
      if from == null {
        return Err(WalletNotFound(fromWallet));
      }
      if from.balance < amount.value {
        return Err(Insufficient(fromWallet, from.balance, amount.value));
      }
      var to := GetWalletState(ctx, toWallet);
      if to == null {
        to := new WalletState(toWallet, 0.0, "");
      }
      ghost var f, t := from.Marshal(), to.Marshal();
      from.balance := from.balance - amount.value;
      from.updatedAt := now;
      to.balance := to.balance + amount.value;
      to.updatedAt := now;
      assert from.Marshal() == Credit(f, -amount.value, now) && to.Marshal() == Credit(t, amount.value, now);
      PutWalletState(ctx, from);
      PutWalletState(ctx, to);
      var tx := Transaction(ctx.txID, "transfer", fromWallet + "->" + toWallet, amount.value, from.balance, now, 0.0);
      ctx.PutState(TxKey(tx.txID), TxBytes(tx));
      return Ok(tx);
    }
  }

  // ---------- what every call keeps and moves ----------

  /** Each key family holds its own kind of value, and a wallet names its own key; no balance is negative. */
  ghost predicate WellTyped(s: State) {
    && (forall w :: WalletKey(w) in s ==>
                      s[WalletKey(w)].WalletBytes? && s[WalletKey(w)].wallet.walletID == w
                      && s[WalletKey(w)].wallet.balance >= 0.0)
    && (forall k :: k in s && s[k].WalletBytes? ==> k == WalletKey(s[k].wallet.walletID))
    && (SUPPLY_KEY in s ==> s[SUPPLY_KEY].SupplyBytes?)
  }

  /** The amount a call adds to (or takes from) one wallet when it succeeds. */
  function Moved(c: Call, walletID: string): real {
    if c.amount.None? then 0.0 else
    match c
    case Mint(w, amount, _, _, _) => if walletID == w then amount.value else 0.0
    case Melt(w, amount, _, _, _) => if walletID == w then -amount.value else 0.0
    case Transfer(from, to, amount, _, _) =>
      if walletID == to then amount.value else if walletID == from then -amount.value else 0.0
  }

  lemma StoreKeeps(s: State, w: Wallet)
    requires WellTyped(s) && w.balance >= 0.0
    ensures WellTyped(Store(s, w))
    ensures forall u :: Load(Store(s, w), u) == if u == w.walletID then Some(w) else Load(s, u)
    ensures TotalSupply(Store(s, w)) == TotalSupply(s)
  {
    KeysApart();
  }

  lemma RecordKeeps(s: State, tx: Transaction)
    requires WellTyped(s)
    ensures WellTyped(Record(s, tx))
    ensures forall u :: Load(Record(s, tx), u) == Load(s, u)
    ensures TotalSupply(Record(s, tx)) == TotalSupply(s)
  {
    KeysApart();
  }

  lemma AddSupplyKeeps(s: State, delta: real)
    requires WellTyped(s)
    ensures WellTyped(AddSupply(s, delta))
    ensures forall u :: Load(AddSupply(s, delta), u) == Load(s, u)
    ensures TotalSupply(AddSupply(s, delta)) == TicksValue(RoundTicks(TotalSupply(s) + delta))
  {
    KeysApart();
  }

  /** A wallet found under a well-typed state names itself and is not overdrawn. */
  lemma LoadSound(s: State, walletID: string)
    requires WellTyped(s)
    ensures LoadOrNew(s, walletID).walletID == walletID
    ensures LoadOrNew(s, walletID).balance == Balance(s, walletID) >= 0.0
  {}

  /** The state after one wallet's balance is replaced and the transaction recorded. */
  lemma WriteOne(s: State, w: Wallet, tx: Transaction, delta: real, u: string)
    requires WellTyped(s) && w.balance >= 0.0
    ensures WellTyped(AddSupply(Record(Store(s, w), tx), delta))
    ensures Balance(AddSupply(Record(Store(s, w), tx), delta), u)
            == if u == w.walletID then w.balance else Balance(s, u)
  {
    StoreKeeps(s, w);
    RecordKeeps(Store(s, w), tx);
    AddSupplyKeeps(Record(Store(s, w), tx), delta);
  }

  lemma WriteTwo(s: State, f: Wallet, t: Wallet, tx: Transaction, u: string)
    requires WellTyped(s) && f.balance >= 0.0 && t.balance >= 0.0
    ensures WellTyped(Record(Store(Store(s, f), t), tx))
    ensures Balance(Record(Store(Store(s, f), t), tx), u)
            == if u == t.walletID then t.balance else if u == f.walletID then f.balance else Balance(s, u)
  {
    StoreKeeps(s, f);
    StoreKeeps(Store(s, f), t);
    RecordKeeps(Store(Store(s, f), t), tx);
  }

  /** The invariant, and one wallet's balance, after a state change. */
  ghost predicate MovedBy(s: State, s': State, u: string, amount: real) {
    WellTyped(s') && Balance(s', u) == Balance(s, u) + amount >= 0.0
  }

  lemma MintMoves(c: Call, s: State, u: string)
    requires WellTyped(s) && c.Mint? && Exec(c, s).result.Ok?
    ensures MovedBy(s, Exec(c, s).state, u, Moved(c, u))
  {
    LoadSound(s, u);
    LoadSound(s, c.walletID);
    var w := LoadOrNew(s, c.walletID);
    WriteOne(s, Credit(w, c.amount.value, c.now), Exec(c, s).result.value, c.amount.value, u);
  }

  lemma MeltMoves(c: Call, s: State, u: string)
    requires WellTyped(s) && c.Melt? && Exec(c, s).result.Ok?
    ensures MovedBy(s, Exec(c, s).state, u, Moved(c, u))
  {
    LoadSound(s, u);
    LoadSound(s, c.walletID);
    var w := LoadOrNew(s, c.walletID);
    WriteOne(s, Credit(w, -c.amount.value, c.now), Exec(c, s).result.value, -c.amount.value, u);
  }

  lemma TransferMoves(c: Call, s: State, u: string)
    requires WellTyped(s) && c.Transfer? && Exec(c, s).result.Ok?
    ensures MovedBy(s, Exec(c, s).state, u, Moved(c, u))
  {
    LoadSound(s, u);
    LoadSound(s, c.from);
    LoadSound(s, c.to);
    var f, t := LoadOrNew(s, c.from), LoadOrNew(s, c.to);
    WriteTwo(s, Credit(f, -c.amount.value, c.now),
             Credit(t, c.amount.value, c.now), Exec(c, s).result.value, u);
  }

  /**
   Every wallet's balance after a call: a failed call changes nothing; a successful
   one moves exactly the requested amount, never below zero. A transfer to oneself
   credits without debiting.
   */
  lemma ExecMovesBalances(c: Call, s: State, u: string)
    requires WellTyped(s)
    ensures WellTyped(Exec(c, s).state)
    ensures Balance(Exec(c, s).state, u) >= 0.0
    ensures Balance(Exec(c, s).state, u) == Balance(s, u) + if Exec(c, s).result.Ok? then Moved(c, u) else 0.0
  {
    if Exec(c, s).result.Err? {
      LoadSound(s, u);
    } else {
      match c
      case Mint(_, _, _, _, _) => MintMoves(c, s, u);
      case Melt(_, _, _, _, _) => MeltMoves(c, s, u);
      case Transfer(_, _, _, _, _) => TransferMoves(c, s, u);
    }
  }

  /** The wallet a Melt or Transfer takes from, or a Mint adds to. */
  function Payer(c: Call): string { if c.Transfer? then c.from else c.walletID }

  /** A call succeeds exactly when it is well formed and, unless it mints, its wallet covers the amount. */
  lemma SucceedsIff(c: Call, s: State)
    requires WellTyped(s)
    ensures Exec(c, s).result.Ok? <==>
            && (c.Transfer? || c.walletID != "")
            && c.amount.Some? && c.amount.value > 0.0
            && (c.Mint? || Balance(s, Payer(c)) >= c.amount.value)
  {}

  lemma RecordFound(s: State, tx: Transaction, delta: real)
    ensures Lookup(Record(s, tx), TxKey(tx.txID)) == Some(TxBytes(tx))
    ensures Lookup(AddSupply(Record(s, tx), delta), TxKey(tx.txID)) == Some(TxBytes(tx))
  {
    KeysApart();
  }

  lemma RecordAfterExec(c: Call, s: State)
    requires Exec(c, s).result.Ok?
    ensures Lookup(Exec(c, s).state, TxKey(c.txID)) == Some(TxBytes(Exec(c, s).result.value))
  {
    var tx := Exec(c, s).result.value;
    if c.Transfer? {
      var f' := Credit(LoadOrNew(s, c.from), -c.amount.value, c.now);
      var t' := Credit(LoadOrNew(s, c.to), c.amount.value, c.now);
      RecordFound(Store(Store(s, f'), t'), tx, 0.0);
    } else {
      var delta := if c.Mint? then c.amount.value else -c.amount.value;
      RecordFound(Store(s, Credit(LoadOrNew(s, c.walletID), delta, c.now)), tx, delta);
    }
  }

  /** The wallets a call writes carry its time. */
  lemma WritersAreStamped(c: Call, s: State)
    requires WellTyped(s) && Exec(c, s).result.Ok?
    ensures var w := Load(Exec(c, s).state, Payer(c));
            w.Some? && w.value.walletID == Payer(c) && w.value.updatedAt == c.now
    ensures c.Transfer? ==> var w := Load(Exec(c, s).state, c.to); w.Some? && w.value.updatedAt == c.now
  {
    var tx := Exec(c, s).result.value;
    if c.Transfer? {
      var f' := Credit(LoadOrNew(s, c.from), -c.amount.value, c.now);
      var t' := Credit(LoadOrNew(s, c.to), c.amount.value, c.now);
      LoadSound(s, c.from);
      LoadSound(s, c.to);
      StoreKeeps(s, f');
      StoreKeeps(Store(s, f'), t');
      RecordKeeps(Store(Store(s, f'), t'), tx);
    } else {
      var delta := if c.Mint? then c.amount.value else -c.amount.value;
      var w' := Credit(LoadOrNew(s, c.walletID), delta, c.now);
      LoadSound(s, c.walletID);
      StoreKeeps(s, w');
      RecordKeeps(Store(s, w'), tx);
      AddSupplyKeeps(Record(Store(s, w'), tx), delta);
    }
  }

  /**
   The record of a successful call is stored under its ID with the call's own kind, wallets,
   amount, time and gold price, and the balance it reports is the wallet's stored balance,
   except for a transfer of a wallet to itself.
   */
  lemma RecordTellsBalance(c: Call, s: State)
    requires WellTyped(s) && Exec(c, s).result.Ok?
    ensures var o := Exec(c, s);
            var b := o.result.value.balanceAfter;
            && "TX_" + c.txID in o.state && o.state["TX_" + c.txID] == TxBytes(o.result.value)
            && o.result.value == (match c
                                  case Mint(w, x, price, id, now) => Transaction(id, "mint", w, x.value, b, now, price)
                                  case Melt(w, x, price, id, now) => Transaction(id, "melt", w, x.value, b, now, price)
                                  case Transfer(w, u, x, id, now) =>
                                    Transaction(id, "transfer", w + "->" + u, x.value, b, now, 0.0))
            && (o.result.value.balanceAfter == Balance(o.state, Payer(c)) <==> !(c.Transfer? && c.from == c.to))
  {
    ExecMovesBalances(c, s, Payer(c));
    RecordAfterExec(c, s);
    LoadSound(s, Payer(c));
  }
}
