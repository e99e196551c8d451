/**
 Contract calls in flight at the same time. Each call is a program of GetState and
 PutState steps. A GetState returns what is committed at that moment and notes the
 version it saw; PutStates are buffered; a commit is accepted only if every version
 read is still current. The acceptance rule is Fabric's and is an assumption here.
 */
module Serializability {
  import opened Outcomes
  import opened WalletContract
  import SupplyDrift

  // ---------- a call as a program ----------

  datatype Action = Get(key: string) | Put(key: string, value: Value) | Return(result: Result<Transaction, Error>)

  function Observed(obs: seq<Option<Value>>, i: nat): Option<Value> {
    if i < |obs| then obs[i] else None
  }

  function Or(w: Option<Wallet>, walletID: string): Wallet {
    match w case Some(x) => x case None => Wallet(walletID, 0.0, "")
  }

  /** Mint and Melt: get wallet, put wallet, put record, get supply, put supply. */
  function ActSupply(c: Call, pc: nat, obs: seq<Option<Value>>): Action
    requires !c.Transfer?
  {
    var found := WalletOf(Observed(obs, 0));
    if c.walletID == "" then Return(Err(WalletIDRequired))
    else if c.amount.None? || c.amount.value <= 0.0 then Return(Err(NotPositive(if c.Mint? then "mint" else "melt")))
    else if pc == 0 then Get(WalletKey(c.walletID))
    else if c.Melt? && found.None? then Return(Err(WalletNotFound(c.walletID)))
    else if c.Melt? && found.value.balance < c.amount.value then
      Return(Err(Insufficient(c.walletID, found.value.balance, c.amount.value)))
    else
      var delta := if c.Mint? then c.amount.value else -c.amount.value;
      var w' := Credit(Or(found, c.walletID), delta, c.now);
      var tx := Transaction(c.txID, if c.Mint? then "mint" else "melt", c.walletID, c.amount.value,
                            w'.balance, c.now, c.goldPrice);
      match pc
      case 1 => Put(WalletKey(w'.walletID), WalletBytes(w'))
      case 2 => Put(TxKey(c.txID), TxBytes(tx))
      case 3 => Get(SUPPLY_KEY)
      case 4 => Put(SUPPLY_KEY, SupplyBytes(RoundTicks(SupplyOf(Observed(obs, 1)) + delta)))
      case _ => Return(Ok(tx))
  }

  /** Transfer: get both wallets, put both wallets, put record. */
  function ActTransfer(c: Call, pc: nat, obs: seq<Option<Value>>): Action
    requires c.Transfer?
  {
    var from := WalletOf(Observed(obs, 0));
    if c.amount.None? || c.amount.value <= 0.0 then Return(Err(NotPositive("transfer")))
    else if pc == 0 then Get(WalletKey(c.from))
    else if from.None? then Return(Err(WalletNotFound(c.from)))
    else if from.value.balance < c.amount.value then
      Return(Err(Insufficient(c.from, from.value.balance, c.amount.value)))
    else
      var f' := Credit(from.value, -c.amount.value, c.now);
      var t' := Credit(Or(WalletOf(Observed(obs, 1)), c.to), c.amount.value, c.now);
      var tx := Transaction(c.txID, "transfer", c.from + "->" + c.to, c.amount.value, f'.balance, c.now, 0.0);
      match pc
      case 1 => Get(WalletKey(c.to))
      case 2 => Put(WalletKey(f'.walletID), WalletBytes(f'))
      case 3 => Put(WalletKey(t'.walletID), WalletBytes(t'))
      case 4 => Put(TxKey(c.txID), TxBytes(tx))
      case _ => Return(Ok(tx))
  }

  /** The step a call takes at program counter pc, having observed obs. */
  function Act(c: Call, pc: nat, obs: seq<Option<Value>>): Action {
    if c.Transfer? then ActTransfer(c, pc, obs) else ActSupply(c, pc, obs)
  }

  // ---------- running alone, every write visible at once ----------

  datatype Machine = Machine(state: State, pc: nat, obs: seq<Option<Value>>)

  function Step(c: Call, m: Machine): Machine {
    match Act(c, m.pc, m.obs)
    case Get(key) => Machine(m.state, m.pc + 1, m.obs + [Lookup(m.state, key)])
    case Put(key, value) => Machine(m.state[key := value], m.pc + 1, m.obs)
    case Return(_) => m
  }

  function Alone(c: Call, s: State, n: nat): Machine {
    if n == 0 then Machine(s, 0, []) else Step(c, Alone(c, s, n - 1))
  }

  lemma {:induction false} AloneStays(c: Call, s: State, n: nat, k: nat)
    requires Act(c, Alone(c, s, n).pc, Alone(c, s, n).obs).Return? && n <= k
    ensures Alone(c, s, k) == Alone(c, s, n)
    decreases k
  {
    if n < k {
      AloneStays(c, s, n, k - 1);
    }
  }

  lemma AloneUnrolled(c: Call, s: State)
    ensures Alone(c, s, 1) == Step(c, Machine(s, 0, []))
    ensures Alone(c, s, 2) == Step(c, Alone(c, s, 1))
    ensures Alone(c, s, 3) == Step(c, Alone(c, s, 2))
    ensures Alone(c, s, 4) == Step(c, Alone(c, s, 3))
    ensures Alone(c, s, 5) == Step(c, Alone(c, s, 4))
  {
    assert Alone(c, s, 0) == Machine(s, 0, []);
  }

  /** Mint or Melt, not refused: the states it goes through when alone. */
  lemma SupplyCallTrace(c: Call, s: State)
    requires !c.Transfer? && Refusal(c, s).None?
    ensures var delta := if c.Mint? then c.amount.value else -c.amount.value;
            var s3 := Record(Store(s, Credit(LoadOrNew(s, c.walletID), delta, c.now)), Exec(c, s).result.value);
            Alone(c, s, 4) == Machine(s3, 4, [Lookup(s, WalletKey(c.walletID)), Lookup(s3, SUPPLY_KEY)])
  {
    AloneUnrolled(c, s);
    var obs := [Lookup(s, WalletKey(c.walletID))];
    var w' := Credit(LoadOrNew(s, c.walletID), if c.Mint? then c.amount.value else -c.amount.value, c.now);
    assert Alone(c, s, 1) == Machine(s, 1, obs);
    assert Alone(c, s, 2) == Machine(Store(s, w'), 2, obs);
    assert Alone(c, s, 3) == Machine(Record(Store(s, w'), Exec(c, s).result.value), 3, obs);
  }

  lemma SupplyCallRefused(c: Call, s: State)
    requires !c.Transfer? && Refusal(c, s).Some?
    ensures var m := Alone(c, s, 5);
            Act(c, m.pc, m.obs) == Return(Exec(c, s).result) && m.state == s
  {
    AloneUnrolled(c, s);
    if Alone(c, s, 1).pc == 1 {
      assert Alone(c, s, 1) == Machine(s, 1, [Lookup(s, WalletKey(c.walletID))]);
    }
  }

  /** Five steps of the program, run alone, are the call. */
  lemma SupplyCallAlone(c: Call, s: State)
    requires !c.Transfer?
    ensures var m := Alone(c, s, 5);
            Act(c, m.pc, m.obs) == Return(Exec(c, s).result) && m.state == Exec(c, s).state
  {
    if Refusal(c, s).None? {
      SupplyCallTrace(c, s);
      assert Alone(c, s, 5) == Step(c, Alone(c, s, 4));
    } else {
      SupplyCallRefused(c, s);
    }
  }

  lemma TransferAlone(c: Call, s: State)
    requires c.Transfer?
    ensures var m := Alone(c, s, 5);
            Act(c, m.pc, m.obs) == Return(Exec(c, s).result) && m.state == Exec(c, s).state
  {
    AloneUnrolled(c, s);
    var m1 := Alone(c, s, 1);
    if m1.pc == 1 {
      assert m1 == Machine(s, 1, [Lookup(s, WalletKey(c.from))]);
      if Refusal(c, s).None? {
        var f' := Credit(LoadOrNew(s, c.from), -c.amount.value, c.now);
        var t' := Credit(LoadOrNew(s, c.to), c.amount.value, c.now);
        var m2 := Alone(c, s, 2);
        assert m2 == Machine(s, 2, m1.obs + [Lookup(s, WalletKey(c.to))]);
        assert Alone(c, s, 3) == Machine(Store(s, f'), 3, m2.obs);
        assert Alone(c, s, 4) == Machine(Store(Store(s, f'), t'), 4, m2.obs);
      }
    }
  }

  lemma FiveStepsReturn(c: Call, s: State)
    ensures var m := Alone(c, s, 5);
            Act(c, m.pc, m.obs) == Return(Exec(c, s).result) && m.state == Exec(c, s).state
  {
    if c.Transfer? { TransferAlone(c, s); } else { SupplyCallAlone(c, s); }
  }

  /** Whenever the program returns while running alone, it has computed Exec. */
  lemma ReturnIsExec(c: Call, s: State, n: nat)
    requires n <= 5 && Act(c, Alone(c, s, n).pc, Alone(c, s, n).obs).Return?
    ensures Act(c, Alone(c, s, n).pc, Alone(c, s, n).obs).result == Exec(c, s).result
    ensures Alone(c, s, n).state == Exec(c, s).state
  {
    AloneStays(c, s, n, 5);
    FiveStepsReturn(c, s);
  }

  // ---------- in flight ----------

  datatype Read = Read(key: string, version: nat)

  datatype InFlight = InFlight(call: Call, pc: nat, obs: seq<Option<Value>>, seen: seq<Read>, writes: State)

  datatype Committed = Committed(call: Call, tx: Transaction)

  datatype System = System(
    state: State, versions: map<string, nat>, height: nat, calls: map<nat, InFlight>, log: seq<Committed>)

  datatype Event = Begin(t: nat, call: Call) | Advance(t: nat) | Commit(t: nat) | Drop(t: nat)

  const EMPTY := System(map[], map[], 0, map[], [])

  function Version(y: System, key: string): nat {
    if key in y.versions then y.versions[key] else 0
  }

  predicate UpToDate(y: System, f: InFlight) {
    forall i | 0 <= i < |f.seen| :: Version(y, f.seen[i].key) == f.seen[i].version
  }

  function AdvanceCall(y: System, f: InFlight): InFlight {
    match Act(f.call, f.pc, f.obs)
    case Get(key) =>
      f.(pc := f.pc + 1, obs := f.obs + [Lookup(y.state, key)], seen := f.seen + [Read(key, Version(y, key))])
    case Put(key, value) => f.(pc := f.pc + 1, writes := f.writes[key := value])
    case Return(_) => f
  }

  function Bump(versions: map<string, nat>, keys: set<string>, height: nat): map<string, nat> {
    map k | k in versions.Keys + keys :: if k in keys then height else versions[k]
  }

  function CommitCall(y: System, t: nat): System
    requires t in y.calls
  {
    var f := y.calls[t];
    var rest := y.(calls := y.calls - {t});
    match Act(f.call, f.pc, f.obs)
    case Return(Ok(tx)) =>
      if UpToDate(y, f) then
        rest.(state := y.state + f.writes, height := y.height + 1,
              versions := Bump(y.versions, f.writes.Keys, y.height + 1),
              log := y.log + [Committed(f.call, tx)])
      else rest
    case Return(Err(_)) => rest
    case _ => y
  }

  function Next(y: System, e: Event): System {
    match e
    case Begin(t, call) =>
      if t in y.calls then y else y.(calls := y.calls[t := InFlight(call, 0, [], [], map[])])
    case Advance(t) =>
      if t in y.calls then y.(calls := y.calls[t := AdvanceCall(y, y.calls[t])]) else y
    case Commit(t) =>
      if t in y.calls then CommitCall(y, t) else y
    case Drop(t) => y.(calls := y.calls - {t})
  }

  function Interleave(events: seq<Event>): System {
    if events == [] then EMPTY else Next(Interleave(events[..|events| - 1]), events[|events| - 1])
  }

  function CallsOf(log: seq<Committed>): seq<Call> { seq(|log|, i requires 0 <= i < |log| => log[i].call) }

  // ---------- the invariant ----------

  /** No key about to be read is in the write buffer. */
  ghost predicate NoReadOfOwnWrite(f: InFlight) {
    && f.pc <= 5
    && |f.seen| == |f.obs|
    && (f.call.Transfer? ==> (f.pc <= 2 ==> f.writes == map[]))
    && (!f.call.Transfer? ==> (f.pc <= 1 ==> f.writes == map[]) && (f.pc <= 4 ==> SUPPLY_KEY !in f.writes))
  }

  ghost predicate Agrees(s: State, f: InFlight) {
    |f.seen| == |f.obs| && forall i :: 0 <= i < |f.seen| ==> Lookup(s, f.seen[i].key) == f.obs[i]
  }

  /** Running alone from s leads to where the call is, its buffer laid over s. */
  ghost predicate ExplainedFrom(s: State, f: InFlight) {
    Alone(f.call, s, f.pc) == Machine(s + f.writes, f.pc, f.obs)
  }

  /** From any state that agrees with what the call read, running alone leads to where the call is. */
  ghost predicate Explained(f: InFlight) {
    forall s: State | Agrees(s, f) :: ExplainedFrom(s, f)
  }

  /** A version still current means a value still current. */
  ghost predicate Sighted(y: System, f: InFlight) {
    && |f.seen| == |f.obs|
    && forall i :: 0 <= i < |f.seen| ==>
         && f.seen[i].version <= y.height
         && (Version(y, f.seen[i].key) == f.seen[i].version ==> Lookup(y.state, f.seen[i].key) == f.obs[i])
  }

  ghost predicate Good(y: System, f: InFlight) {
    NoReadOfOwnWrite(f) && Explained(f) && Sighted(y, f)
  }

  ghost predicate Serial(y: System) {
    && y.state == SupplyDrift.Run(CallsOf(y.log))
    && forall i :: 0 <= i < |y.log| ==>
         Exec(y.log[i].call, SupplyDrift.Run(CallsOf(y.log[..i]))).result == Ok(y.log[i].tx)
  }

  ghost predicate Inv(y: System) {
    && (forall k :: k in y.versions ==> y.versions[k] <= y.height)
    && (forall t :: t in y.calls ==> Good(y, y.calls[t]))
    && Serial(y)
  }

  // ---------- preservation ----------

  lemma GetsAreUnwritten(f: InFlight)
    requires NoReadOfOwnWrite(f) && Act(f.call, f.pc, f.obs).Get?
    ensures Act(f.call, f.pc, f.obs).key !in f.writes
  {}

  lemma AdvanceKeepsWrites(y: System, f: InFlight)
    requires NoReadOfOwnWrite(f)
    ensures NoReadOfOwnWrite(AdvanceCall(y, f))
  {
    KeysApart();
  }

  /** One step in flight, seen from a state that agrees with the reads, is one step alone. */
  lemma AdvanceIsStep(y: System, f: InFlight, s: State)
    requires NoReadOfOwnWrite(f) && Agrees(s, AdvanceCall(y, f))
    ensures var f' := AdvanceCall(y, f);
            Step(f.call, Machine(s + f.writes, f.pc, f.obs)) == Machine(s + f'.writes, f'.pc, f'.obs)
  {
    match Act(f.call, f.pc, f.obs)
    case Get(key) =>
      assert AdvanceCall(y, f).seen[|f.seen|].key == key;
      GetsAreUnwritten(f);
    case Put(key, value) =>
      assert (s + f.writes)[key := value] == s + f.writes[key := value];
    case Return(_) =>
  }

  lemma AgreedBefore(y: System, f: InFlight, s: State)
    requires |f.seen| == |f.obs| && Agrees(s, AdvanceCall(y, f))
    ensures Agrees(s, f)
  {
    var f' := AdvanceCall(y, f);
    assert forall i :: 0 <= i < |f.seen| ==> f'.seen[i] == f.seen[i] && f'.obs[i] == f.obs[i];
  }

  lemma ExplainedOnward(y: System, f: InFlight, s: State)
    requires NoReadOfOwnWrite(f) && Agrees(s, AdvanceCall(y, f)) && ExplainedFrom(s, f)
    ensures ExplainedFrom(s, AdvanceCall(y, f))
  {
    if !Act(f.call, f.pc, f.obs).Return? {
      AdvanceIsStep(y, f, s);
    }
  }

  lemma AdvanceExplained(y: System, f: InFlight)
    requires NoReadOfOwnWrite(f) && Explained(f)
    ensures Explained(AdvanceCall(y, f))
  {
    var f' := AdvanceCall(y, f);
    forall s: State | Agrees(s, f') ensures ExplainedFrom(s, f') {
      AgreedBefore(y, f, s);
      ExplainedOnward(y, f, s);
    }
  }

  lemma AdvanceGood(y: System, f: InFlight)
    requires Good(y, f) && forall k :: k in y.versions ==> y.versions[k] <= y.height
    ensures Good(y, AdvanceCall(y, f))
  {
    AdvanceKeepsWrites(y, f);
    AdvanceExplained(y, f);
  }

  /** A commit of other calls never makes a stale read look current. */
  lemma CommitKeepsGood(y: System, t: nat, f: InFlight)
    requires t in y.calls && Good(y, f)
    ensures Good(CommitCall(y, t), f)
  {
    var y' := CommitCall(y, t);
    forall i | 0 <= i < |f.seen|
      ensures f.seen[i].version <= y'.height
      ensures Version(y', f.seen[i].key) == f.seen[i].version ==> Lookup(y'.state, f.seen[i].key) == f.obs[i]
    {
      var r := f.seen[i];
      if y'.state != y.state {
        assert Version(y', r.key) == if r.key in y.calls[t].writes then y.height + 1 else Version(y, r.key);
      }
    }
  }

  lemma AppendCall(log: seq<Committed>, c: Committed)
    ensures SupplyDrift.Run(CallsOf(log + [c])) == Exec(c.call, SupplyDrift.Run(CallsOf(log))).state
  {
    var calls := CallsOf(log + [c]);
    assert calls[..|calls| - 1] == CallsOf(log);
  }

  /** What a call buffered, applied to the state it commits to, is what the call does there. */
  lemma WritesAreExec(y: System, f: InFlight)
    requires Good(y, f) && UpToDate(y, f) && Act(f.call, f.pc, f.obs).Return?
    ensures Act(f.call, f.pc, f.obs).result == Exec(f.call, y.state).result
    ensures y.state + f.writes == Exec(f.call, y.state).state
  {
    assert Agrees(y.state, f);
    assert ExplainedFrom(y.state, f);
    ReturnIsExec(f.call, y.state, f.pc);
  }

  lemma AppendSerial(y: System, y': System, c: Committed)
    requires Serial(y) && y'.log == y.log + [c]
    requires Exec(c.call, y.state) == Outcome(Ok(c.tx), y'.state)
    ensures Serial(y')
  {
    AppendCall(y.log, c);
    forall i | 0 <= i < |y'.log|
      ensures Exec(y'.log[i].call, SupplyDrift.Run(CallsOf(y'.log[..i]))).result == Ok(y'.log[i].tx)
    {
      assert y'.log[..i] == y.log[..i];
      if i == |y.log| {
        assert y.log[..i] == y.log;
      }
    }
  }

  lemma CommitIsSerial(y: System, t: nat)
    requires Serial(y) && t in y.calls && Good(y, y.calls[t])
    ensures Serial(CommitCall(y, t))
  {
    var y', f := CommitCall(y, t), y.calls[t];
    if y'.log != y.log {
      WritesAreExec(y, f);
      AppendSerial(y, y', y'.log[|y.log|]);
    }
  }

  lemma CommitKeepsInv(y: System, t: nat)
    requires Inv(y) && t in y.calls
    ensures Inv(CommitCall(y, t))
  {
    var y' := CommitCall(y, t);
    assert Good(y, y.calls[t]);
    CommitIsSerial(y, t);
    forall u | u in y'.calls ensures Good(y', y'.calls[u]) {
      CommitKeepsGood(y, t, y.calls[u]);
    }
  }

  /** Goodness of a call depends only on the committed state and its versions. */
  lemma SameStoreGood(y: System, y': System, f: InFlight)
    requires Good(y, f)
    requires y'.state == y.state && y'.versions == y.versions && y'.height == y.height
    ensures Good(y', f)
  {}

  lemma FreshCallGood(y: System, call: Call)
    ensures Good(y, InFlight(call, 0, [], [], map[]))
  {
    var f := InFlight(call, 0, [], [], map[]);
    forall s: State | Agrees(s, f) ensures ExplainedFrom(s, f) {
      assert s + f.writes == s;
    }
  }

  lemma NextKeepsInv(y: System, e: Event)
    requires Inv(y)
    ensures Inv(Next(y, e))
  {
    if e.Commit? {
      if e.t in y.calls {
        CommitKeepsInv(y, e.t);
      }
    } else {
      var y' := Next(y, e);
      forall u | u in y'.calls ensures Good(y', y'.calls[u]) {
        if u in y.calls && y'.calls[u] == y.calls[u] {
          SameStoreGood(y, y', y.calls[u]);
        } else if e.Begin? {
          FreshCallGood(y', e.call);
        } else {
          AdvanceGood(y, y.calls[u]);
          SameStoreGood(y, y', y'.calls[u]);
        }
      }
    }
  }

  /**
   Serializability: after any interleaving, the committed state is that of the
   committed calls run one after the other in commit order, each with the result it
   returned.
   */
  lemma {:induction false} Serializable(events: seq<Event>)
    ensures Inv(Interleave(events))
    ensures Interleave(events).state == SupplyDrift.Run(CallsOf(Interleave(events).log))
    ensures forall i :: 0 <= i < |Interleave(events).log| ==>
              Exec(Interleave(events).log[i].call, SupplyDrift.Run(CallsOf(Interleave(events).log[..i]))).result
              == Ok(Interleave(events).log[i].tx)
  {
    if events != [] {
      Serializable(events[..|events| - 1]);
      NextKeepsInv(Interleave(events[..|events| - 1]), events[|events| - 1]);
    }
  }

  lemma {:induction false} UpdatesAtMostCalls(calls: seq<Call>)
    ensures SupplyDrift.SupplyUpdates(calls) <= |calls|
  {
    if calls != [] {
      UpdatesAtMostCalls(calls[..|calls| - 1]);
    }
  }

  /** So the supply bound and the absence of overdrafts hold of every interleaving. */
  lemma ConcurrentSupplyTracksBalances(events: seq<Event>, u: string)
    ensures var s := Interleave(events).state;
            var calls := CallsOf(Interleave(events).log);
            var k := SupplyDrift.SupplyUpdates(calls) as real;
            && k <= |calls| as real
            && -k * SupplyDrift.HALF_TICK
               <= TotalSupply(s) - SupplyDrift.SumOfBalances(s) + SupplyDrift.SelfCredits(calls)
               <= k * SupplyDrift.HALF_TICK
            && Balance(s, u) >= 0.0
    ensures var s := Interleave(events).state;
            var calls := CallsOf(Interleave(events).log);
            (forall c :: c in calls && !c.Transfer? && c.amount.Some? ==> SupplyDrift.WholeTicks(c.amount.value))
            ==> TotalSupply(s) == SupplyDrift.SumOfBalances(s) - SupplyDrift.SelfCredits(calls)
  {
    Serializable(events);
    var calls := CallsOf(Interleave(events).log);
    if forall c :: c in calls && !c.Transfer? && c.amount.Some? ==> SupplyDrift.WholeTicks(c.amount.value) {
      SupplyDrift.NoDriftOnWholeTicks(calls);
    }
    SupplyDrift.DriftBound(calls);
    SupplyDrift.RunKeepsWellTyped(calls, u);
    UpdatesAtMostCalls(calls);
  }

  // ---------- no needless refusals ----------

  /** n steps of one call with no commit in between. */
  function Advanced(y: System, f: InFlight, n: nat): InFlight {
    if n == 0 then f else AdvanceCall(y, Advanced(y, f, n - 1))
  }

  /** In flight after n steps, exactly where running alone is after n steps. */
  ghost predicate Tracks(y: System, c: Call, f: InFlight, n: nat) {
    && f.call == c && Good(y, f) && UpToDate(y, f)
    && Alone(c, y.state, n) == Machine(y.state + f.writes, f.pc, f.obs)
  }

  lemma UpToDateAgrees(y: System, f: InFlight)
    requires Sighted(y, f) && UpToDate(y, f)
    ensures Agrees(y.state, f)
  {}

  lemma AdvanceUpToDate(y: System, f: InFlight)
    requires UpToDate(y, f)
    ensures UpToDate(y, AdvanceCall(y, f))
  {}

  lemma TracksStep(y: System, c: Call, f: InFlight, n: nat)
    requires Tracks(y, c, f, n) && forall k :: k in y.versions ==> y.versions[k] <= y.height
    ensures Tracks(y, c, AdvanceCall(y, f), n + 1)
  {
    AdvanceGood(y, f);
    AdvanceUpToDate(y, f);
    UpToDateAgrees(y, AdvanceCall(y, f));
    AdvanceIsStep(y, f, y.state);
  }

  lemma {:induction false} UndisturbedTracksAlone(y: System, c: Call, n: nat)
    requires forall k :: k in y.versions ==> y.versions[k] <= y.height
    ensures Tracks(y, c, Advanced(y, InFlight(c, 0, [], [], map[]), n), n)
  {
    if n == 0 {
      FreshCallGood(y, c);
      assert y.state + map[] == y.state;
    } else {
      UndisturbedTracksAlone(y, c, n - 1);
      TracksStep(y, c, Advanced(y, InFlight(c, 0, [], [], map[]), n - 1), n - 1);
    }
  }

  function LogEntry(c: Call, r: Result<Transaction, Error>): seq<Committed> {
    match r case Ok(tx) => [Committed(c, tx)] case Err(_) => []
  }

  lemma AcceptedCommit(y: System, t: nat, c: Call)
    requires t in y.calls && Tracks(y, c, y.calls[t], 5)
    ensures var y' := CommitCall(y, t);
            && y'.calls == y.calls - {t}
            && y'.state == Exec(c, y.state).state
            && y'.log == y.log + LogEntry(c, Exec(c, y.state).result)
  {
    FiveStepsReturn(c, y.state);
    if Exec(c, y.state).result.Err? {
      SupplyDrift.RefusedCallKeeps(c, y.state);
    }
  }

  /** y with a call in flight at t. */
  function Flying(y: System, t: nat, f: InFlight): System { y.(calls := y.calls[t := f]) }

  lemma FlownStillTracks(y: System, t: nat, c: Call, f: InFlight)
    requires t !in y.calls && Tracks(y, c, f, 5)
    ensures Tracks(Flying(y, t, f), c, f, 5)
    ensures Flying(y, t, f).calls - {t} == y.calls
  {
    SameStoreGood(y, Flying(y, t, f), f);
    assert UpToDate(Flying(y, t, f), f);
  }

  lemma FlownCommits(y: System, t: nat, c: Call)
    requires t !in y.calls && forall k :: k in y.versions ==> y.versions[k] <= y.height
    ensures var y' := Next(Flying(y, t, Advanced(y, InFlight(c, 0, [], [], map[]), 5)), Commit(t));
            && y'.calls == y.calls
            && y'.state == Exec(c, y.state).state
            && y'.log == y.log + LogEntry(c, Exec(c, y.state).result)
  {
    UndisturbedTracksAlone(y, c, 5);
    FlownStillTracks(y, t, c, Advanced(y, InFlight(c, 0, [], [], map[]), 5));
    AcceptedCommit(Flying(y, t, Advanced(y, InFlight(c, 0, [], [], map[]), 5)), t, c);
  }

  /** A call's events: it begins, and takes n steps. */
  function Flight(t: nat, c: Call, n: nat): seq<Event> {
    if n == 0 then [Begin(t, c)] else Flight(t, c, n - 1) + [Advance(t)]
  }

  lemma InterleaveAppend(events: seq<Event>, e: Event)
    ensures Interleave(events + [e]) == Next(Interleave(events), e)
  {
    assert (events + [e])[..|events|] == events;
  }

  lemma AdvanceFlying(y: System, t: nat, f: InFlight)
    ensures Next(Flying(y, t, f), Advance(t)) == Flying(y, t, AdvanceCall(y, f))
  {
    assert AdvanceCall(Flying(y, t, f), f) == AdvanceCall(y, f);
    assert y.calls[t := f][t := AdvanceCall(y, f)] == y.calls[t := AdvanceCall(y, f)];
  }

  lemma FlightStep(events: seq<Event>, t: nat, c: Call, n: nat, f: InFlight)
    requires n > 0 && Interleave(events + Flight(t, c, n - 1)) == Flying(Interleave(events), t, f)
    ensures Interleave(events + Flight(t, c, n)) == Flying(Interleave(events), t, AdvanceCall(Interleave(events), f))
  {
    assert events + Flight(t, c, n) == events + Flight(t, c, n - 1) + [Advance(t)];
    InterleaveAppend(events + Flight(t, c, n - 1), Advance(t));
    AdvanceFlying(Interleave(events), t, f);
  }

  lemma {:induction false} FlightIsAdvanced(events: seq<Event>, t: nat, c: Call, n: nat)
    requires t !in Interleave(events).calls
    ensures var y := Interleave(events);
            Interleave(events + Flight(t, c, n)) == Flying(y, t, Advanced(y, InFlight(c, 0, [], [], map[]), n))
  {
    var y := Interleave(events);
    if n == 0 {
      InterleaveAppend(events, Begin(t, c));
    } else {
      FlightIsAdvanced(events, t, c, n - 1);
      FlightStep(events, t, c, n, Advanced(y, InFlight(c, 0, [], [], map[]), n - 1));
    }
  }

  /**
   A call during whose flight nothing commits is accepted exactly when, alone, it
   would succeed, and then leaves the state it would leave alone.
   */
  lemma UndisturbedCallCommits(events: seq<Event>, t: nat, c: Call)
    requires t !in Interleave(events).calls
    ensures var y := Interleave(events);
            var y' := Interleave(events + Flight(t, c, 5) + [Commit(t)]);
            && y'.calls == y.calls
            && y'.state == Exec(c, y.state).state
            && y'.log == y.log + LogEntry(c, Exec(c, y.state).result)
  {
    Serializable(events);
    FlightIsAdvanced(events, t, c, 5);
    FlownCommits(Interleave(events), t, c);
    InterleaveAppend(events + Flight(t, c, 5), Commit(t));
  }

  /** And a call given up at any point of such a flight leaves no trace. */
  lemma DroppedCallLeavesNothing(events: seq<Event>, t: nat, c: Call, n: nat)
    requires t !in Interleave(events).calls
    ensures Interleave(events + Flight(t, c, n) + [Drop(t)]) == Interleave(events)
  {
    var y := Interleave(events);
    FlightIsAdvanced(events, t, c, n);
    InterleaveAppend(events + Flight(t, c, n), Drop(t));
    assert Flying(y, t, Advanced(y, InFlight(c, 0, [], [], map[]), n)).calls - {t} == y.calls;
  }
}
