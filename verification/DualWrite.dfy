/**
 The mint and melt routes write every request to two ledgers: the Fabric contract
 and the .NET wallet service. Either side may fail to apply a request on its own.
 */
module DualWrite {
  import opened MapSums
  import opened Outcomes
  import opened WalletContract

  // ---------- the .NET side ----------

  type Ledger = map<string, real>

  datatype LogEntry = LogEntry(kind: string, wallet: string, amount: real, balanceAfter: real)

  datatype ServiceError = WalletRequired | AmountNotPositive | InsufficientFunds(has: real, requested: real)

  predicate IsWhiteSpace(c: char) {
    var n := c as int;
    || 0x9 <= n <= 0xD || n == 0x20 || n == 0x85 || n == 0xA0 || n == 0x1680 || 0x2000 <= n <= 0x200A
    || n == 0x2028 || n == 0x2029 || n == 0x202F || n == 0x205F || n == 0x3000
  }

  predicate IsBlank(s: string) { forall c :: c in s ==> IsWhiteSpace(c) }

  function Held(l: Ledger, wallet: string): real { if wallet in l then l[wallet] else 0.0 }

  datatype Kind = MintKind | MeltKind

  /** Why the service refuses a request, if it does. */
  function ServiceRefusal(kind: Kind, l: Ledger, wallet: string, amount: real): Option<ServiceError> {
    if IsBlank(wallet) then Some(WalletRequired)
    else if amount <= 0.0 then Some(AmountNotPositive)
    else if kind.MeltKind? && Held(l, wallet) < amount then Some(InsufficientFunds(Held(l, wallet), amount))
    else None
  }

  function Signed(kind: Kind, amount: real): real { if kind.MintKind? then amount else -amount }

  function ServiceApply(kind: Kind, l: Ledger, wallet: string, amount: real): Ledger {
    if ServiceRefusal(kind, l, wallet, amount).Some? then l
    else l[wallet := Held(l, wallet) + Signed(kind, amount)]
  }

  class BTNGWalletService {
    var ledger: Ledger
    var transactionLog: seq<LogEntry>

    constructor ()
      ensures ledger == map[] && transactionLog == []
    {
      ledger, transactionLog := map[], [];
    }

    method Mint(wallet: string, amount: real) returns (r: Result<LogEntry, ServiceError>)
      modifies this
      ensures ledger == ServiceApply(MintKind, old(ledger), wallet, amount)
      ensures r.Ok? <==> !IsBlank(wallet) && amount > 0.0
      ensures r.Err? ==>
                ledger == old(ledger) && r.error == if IsBlank(wallet) then WalletRequired else AmountNotPositive
      ensures r.Ok? ==>
                var before := if wallet in old(ledger) then old(ledger)[wallet] else 0.0;
                && ledger == old(ledger)[wallet := before + amount]
                && r.value == LogEntry("mint", wallet, amount, before + amount)
      ensures match ServiceRefusal(MintKind, old(ledger), wallet, amount)
              case Some(e) => r == Err(e) && transactionLog == old(transactionLog)
              case None => r == Ok(LogEntry("mint", wallet, amount, Held(ledger, wallet)))
                           && transactionLog == old(transactionLog) + [r.value]
    {
      if IsBlank(wallet) {
        return Err(WalletRequired);
      }
      if amount <= 0.0 {
        return Err(AmountNotPositive);
      }
      var current := GetBalance(wallet);
      ledger := ledger[wallet := current + amount];
      var tx := LogEntry("mint", wallet, amount, ledger[wallet]);
      transactionLog := transactionLog + [tx];
      return Ok(tx);
    }

    method Melt(wallet: string, amount: real) returns (r: Result<LogEntry, ServiceError>)
      modifies this
      ensures ledger == ServiceApply(MeltKind, old(ledger), wallet, amount)
      ensures var before := if wallet in old(ledger) then old(ledger)[wallet] else 0.0;
              && (r.Ok? <==> !IsBlank(wallet) && 0.0 < amount <= before)
              && (r.Err? ==> ledger == old(ledger)
                             && r.error == if IsBlank(wallet) then WalletRequired
                                           else if amount <= 0.0 then AmountNotPositive
                                           else InsufficientFunds(before, amount))
              && (r.Ok? ==> ledger == old(ledger)[wallet := before - amount]
                            && r.value == LogEntry("melt", wallet, amount, before - amount))
      ensures match ServiceRefusal(MeltKind, old(ledger), wallet, amount)
              case Some(e) => r == Err(e) && transactionLog == old(transactionLog)
              case None => r == Ok(LogEntry("melt", wallet, amount, Held(ledger, wallet)))
                           && transactionLog == old(transactionLog) + [r.value]
    {
      if IsBlank(wallet) {
        return Err(WalletRequired);
      }
      if amount <= 0.0 {
        return Err(AmountNotPositive);
      }
      var currentBalance := GetBalance(wallet);
      if currentBalance < amount {
        return Err(InsufficientFunds(currentBalance, amount));
      }
      // amount is positive, so a covered wallet has an entry
      ledger := ledger[wallet := ledger[wallet] - amount];
      var tx := LogEntry("melt", wallet, amount, ledger[wallet]);
      transactionLog := transactionLog + [tx];
      return Ok(tx);
    }

    method GetBalance(wallet: string) returns (balance: real)
      ensures balance == Held(ledger, wallet) == if wallet in ledger then ledger[wallet] else 0.0
    {
      balance := if wallet in ledger then ledger[wallet] else 0.0;
    }
  }

  // ---------- the routes, with requests in flight ----------

  datatype Request = Request(kind: Kind, wallet: string, amount: real, goldPrice: real, txID: string, now: string)

  /**
   Where one request is on one side: under way, lost before it got there, or processed. The
   service's calls share one dictionary without a lock, so there a call may also be part-way:
   past its guard, or holding the balance it is about to write back changed. guardAt and
   readAt are the numbers of writes to the wallet that its guard and its read came after.
   */
  datatype Progress = Waiting | Lost | Refused | Applied
                    | Guarded(guardAt: nat) | HasRead(balance: real, guardAt: nat, readAt: nat)

  datatype Entry = Entry(request: Request, onFabric: Progress, onService: Progress)

  /**
   One write to the service's dictionary: the balance the call had read, the one it overwrote,
   and whether no other call had written the wallet since this one's guard, and since its read.
   */
  datatype Write = Write(request: Request, read: real, overwrote: real, guardCurrent: bool, readCurrent: bool)

  /** Both ledgers, every accepted request, what each side has processed, in its own order, and the service's writes. */
  datatype World = World(fabric: State, service: Ledger, entries: map<nat, Entry>,
                         fabricSeen: seq<Request>, serviceSeen: seq<Request>, writes: seq<Write>)

  /**
   A POST submits; its two calls then reach the two sides independently. At the service,
   ToService is a call's first access to the dictionary (a mint's read, a melt's guard), Fetch a
   melt's second read, and WriteBack the write. The contract's commits are serial; a call
   that its version check rejects is lost there.
   */
  datatype Step = Submit(id: nat, request: Request) | ToFabric(id: nat)
                | ToService(id: nat) | Fetch(id: nat) | WriteBack(id: nat)
                | LoseFabric(id: nat) | LoseService(id: nat)

  const START := World(map[], map[], map[], [], [], [])

  /** The route's own guard: anything else is answered with status 400. */
  predicate Acceptable(r: Request) { r.wallet != "" && r.amount > 0.0 }

  function FabricCall(r: Request): Call {
    if r.kind.MintKind? then Call.Mint(r.wallet, Some(r.amount), r.goldPrice, r.txID, r.now)
    else Call.Melt(r.wallet, Some(r.amount), r.goldPrice, r.txID, r.now)
  }

  function CountAt(ws: seq<Write>, u: string): nat {
    if ws == [] then 0 else CountAt(ws[..|ws| - 1], u) + if ws[|ws| - 1].request.wallet == u then 1 else 0
  }

  function Version(w: World, u: string): nat { CountAt(w.writes, u) }

  function SetEntry(w: World, id: nat, e: Entry): World { w.(entries := w.entries[id := e]) }

  predicate FabricWaits(w: World, id: nat) { id in w.entries && w.entries[id].onFabric.Waiting? }

  predicate ServiceWaits(w: World, id: nat) { id in w.entries && w.entries[id].onService.Waiting? }

  predicate ServiceGuarded(w: World, id: nat) { id in w.entries && w.entries[id].onService.Guarded? }

  predicate ServiceHasRead(w: World, id: nat) { id in w.entries && w.entries[id].onService.HasRead? }

  function FabricStep(w: World, id: nat): World
    requires id in w.entries
  {
    var e := w.entries[id];
    var o := Exec(FabricCall(e.request), w.fabric);
    SetEntry(w, id, e.(onFabric := if o.result.Ok? then Applied else Refused))
      .(fabric := o.state, fabricSeen := w.fabricSeen + [e.request])
  }

  /** Both checks of the arguments and the first look at the dictionary. */
  function ArriveStep(w: World, id: nat): World
    requires id in w.entries
  {
    var e := w.entries[id];
    var r := e.request;
    var at := Version(w, r.wallet);
    if ServiceRefusal(r.kind, w.service, r.wallet, r.amount).Some? then
      SetEntry(w, id, e.(onService := Refused)).(serviceSeen := w.serviceSeen + [r])
    else if r.kind.MintKind? then SetEntry(w, id, e.(onService := HasRead(Held(w.service, r.wallet), at, at)))
    else SetEntry(w, id, e.(onService := Guarded(at)))
  }

  function FetchStep(w: World, id: nat): World
    requires ServiceGuarded(w, id)
  {
    var e := w.entries[id];
    var u := e.request.wallet;
    SetEntry(w, id, e.(onService := HasRead(Held(w.service, u), e.onService.guardAt, Version(w, u))))
  }

  function WriteStep(w: World, id: nat): World
    requires ServiceHasRead(w, id)
  {
    var e := w.entries[id];
    var r, c, v := e.request, e.onService, Version(w, e.request.wallet);
    SetEntry(w, id, e.(onService := Applied))
      .(service := w.service[r.wallet := c.balance + Signed(r.kind, r.amount)],
        serviceSeen := w.serviceSeen + [r],
        writes := w.writes + [Write(r, c.balance, Held(w.service, r.wallet), c.guardAt == v, c.readAt == v)])
  }

  function Next(w: World, step: Step): World {
    match step
    case Submit(id, r) =>
      if Acceptable(r) && id !in w.entries then SetEntry(w, id, Entry(r, Waiting, Waiting)) else w
    case ToFabric(id) => if FabricWaits(w, id) then FabricStep(w, id) else w
    case ToService(id) => if ServiceWaits(w, id) then ArriveStep(w, id) else w
    case Fetch(id) => if ServiceGuarded(w, id) then FetchStep(w, id) else w
    case WriteBack(id) => if ServiceHasRead(w, id) then WriteStep(w, id) else w
    case LoseFabric(id) => if FabricWaits(w, id) then SetEntry(w, id, w.entries[id].(onFabric := Lost)) else w
    case LoseService(id) => if ServiceWaits(w, id) then SetEntry(w, id, w.entries[id].(onService := Lost)) else w
  }

  function Run(steps: seq<Step>): World {
    if steps == [] then START else Next(Run(steps[..|steps| - 1]), steps[|steps| - 1])
  }

  lemma RunAppend(steps: seq<Step>, step: Step)
    ensures Run(steps + [step]) == Next(Run(steps), step)
  {
    assert (steps + [step])[..|steps|] == steps;
  }

  lemma CountAppend(ws: seq<Write>, x: Write, u: string)
    ensures CountAt(ws + [x], u) == CountAt(ws, u) + if x.request.wallet == u then 1 else 0
  {
    assert (ws + [x])[..|ws|] == ws;
  }

  // ---------- what holds in every state ----------

  /** What a call in progress knows: it is still true if nobody has written the wallet since. */
  ghost predicate CallSound(w: World, r: Request, c: Progress) {
    var v := Version(w, r.wallet);
    && (c.Guarded? || c.HasRead? ==>
          && !IsBlank(r.wallet) && c.guardAt <= v
          && (r.kind.MeltKind? ==> r.wallet in w.service && (c.guardAt == v ==> Held(w.service, r.wallet) >= r.amount)))
    && (c.Guarded? ==> r.kind.MeltKind?)
    && (c.HasRead? ==> c.guardAt <= c.readAt <= v && (c.readAt == v ==> c.balance == Held(w.service, r.wallet)))
  }

  ghost predicate WriteSound(x: Write) {
    (x.guardCurrent ==> x.readCurrent) && (x.readCurrent ==> x.read == x.overwrote)
  }

  ghost predicate Sound(w: World) {
    && WellTyped(w.fabric)
    && (forall id :: id in w.entries ==>
          Acceptable(w.entries[id].request) && CallSound(w, w.entries[id].request, w.entries[id].onService))
    && (forall x :: x in w.writes ==> WriteSound(x))
    && (forall r :: r in w.fabricSeen || r in w.serviceSeen ==> Acceptable(r))
  }

  /** The contract refuses an acceptable request only for lack of funds. */
  lemma FabricGuard(r: Request, s: State)
    requires Acceptable(r) && WellTyped(s)
    ensures Exec(FabricCall(r), s).result.Ok? <==> r.kind.MintKind? || Balance(s, r.wallet) >= r.amount
  {
    SucceedsIff(FabricCall(r), s);
  }

  /** An amount moved at one wallet, if it was. */
  function MovedAt(r: Request, applied: bool, u: string): real {
    if applied && r.wallet == u then Signed(r.kind, r.amount) else 0.0
  }

  /** The contract moves its balance by the requested amount exactly when its guard passes. */
  lemma DeliveryEffects(w: World, id: nat, u: string)
    requires Sound(w) && id in w.entries
    ensures var r := w.entries[id].request;
            var passes := r.kind.MintKind? || Balance(w.fabric, r.wallet) >= r.amount;
            var w' := FabricStep(w, id);
            && w'.entries == w.entries[id := w.entries[id].(onFabric := if passes then Applied else Refused)]
            && Balance(w'.fabric, u) == Balance(w.fabric, u) + MovedAt(r, passes, u)
            && WellTyped(w'.fabric) && w'.service == w.service && w'.writes == w.writes
            && (FabricWaits(w, id) ==> Next(w, ToFabric(id)) == w')
  {
    FabricGuard(w.entries[id].request, w.fabric);
    ExecMovesBalances(FabricCall(w.entries[id].request), w.fabric, u);
  }

  /** A write replaces what is there by what was read, moved by the requested amount; other wallets stay. */
  lemma WriteEffects(w: World, id: nat, u: string)
    requires ServiceHasRead(w, id)
    ensures var e, w' := w.entries[id], Next(w, WriteBack(id));
            && Held(w'.service, u) == (if e.request.wallet == u
                                       then e.onService.balance + Signed(e.request.kind, e.request.amount)
                                       else Held(w.service, u))
            && Version(w', u) == Version(w, u) + (if e.request.wallet == u then 1 else 0)
            && w'.fabric == w.fabric
            && |w'.writes| == |w.writes| + 1 && w'.writes[|w.writes|].request == e.request
            && w'.writes[..|w.writes|] == w.writes
            && w'.writes[|w.writes|].readCurrent == (e.onService.readAt == Version(w, e.request.wallet))
            && w'.writes[|w.writes|].guardCurrent == (e.onService.guardAt == Version(w, e.request.wallet))
  {
    CountAppend(w.writes, WriteStep(w, id).writes[|w.writes|], u);
  }

  lemma WriteKeepsCall(w: World, id: nat, r: Request, c: Progress)
    requires ServiceHasRead(w, id) && CallSound(w, r, c)
    ensures CallSound(WriteStep(w, id), r, c)
  {
    WriteEffects(w, id, r.wallet);
  }

  lemma ArrivalSound(w: World, id: nat)
    requires Sound(w) && ServiceWaits(w, id)
    ensures CallSound(w, w.entries[id].request, ArriveStep(w, id).entries[id].onService)
  {}

  lemma FetchSound(w: World, id: nat)
    requires Sound(w) && ServiceGuarded(w, id)
    ensures CallSound(w, w.entries[id].request, FetchStep(w, id).entries[id].onService)
  {
    assert CallSound(w, w.entries[id].request, w.entries[id].onService);
  }

  /** Only the call's own steps change what it knows. */
  lemma OtherCallStays(w: World, step: Step, id: nat)
    requires id in w.entries
    ensures var e, e' := w.entries[id], Next(w, step).entries[id];
            && e'.request == e.request
            && (e'.onService == e.onService || (step.id == id && (step.ToService? || step.Fetch?))
                || e'.onService.Lost? || e'.onService.Applied?)
  {}

  lemma DictionaryStays(w: World, step: Step, r: Request, c: Progress)
    requires !step.WriteBack? && CallSound(w, r, c)
    ensures CallSound(Next(w, step), r, c)
  {}

  lemma StepKeepsCalls(w: World, step: Step, id: nat)
    requires Sound(w) && id in w.entries
    ensures CallSound(Next(w, step), Next(w, step).entries[id].request, Next(w, step).entries[id].onService)
  {
    var r, c := w.entries[id].request, w.entries[id].onService;
    OtherCallStays(w, step, id);
    if step == ToService(id) && ServiceWaits(w, id) {
      ArrivalSound(w, id);
      DictionaryStays(w, step, r, ArriveStep(w, id).entries[id].onService);
    } else if step == Fetch(id) && ServiceGuarded(w, id) {
      FetchSound(w, id);
      DictionaryStays(w, step, r, FetchStep(w, id).entries[id].onService);
    } else if step.WriteBack? && ServiceHasRead(w, step.id) {
      WriteKeepsCall(w, step.id, r, c);
    } else if !step.WriteBack? {
      DictionaryStays(w, step, r, c);
    }
  }

  lemma StepKeepsLogs(w: World, step: Step)
    requires Sound(w)
    ensures forall x :: x in Next(w, step).writes ==> WriteSound(x)
    ensures forall r :: r in Next(w, step).fabricSeen || r in Next(w, step).serviceSeen ==> Acceptable(r)
  {
    if step.WriteBack? && ServiceHasRead(w, step.id) {
      assert CallSound(w, w.entries[step.id].request, w.entries[step.id].onService);
    }
  }

  lemma StepSound(w: World, step: Step)
    requires Sound(w)
    ensures Sound(Next(w, step))
  {
    if step.ToFabric? && FabricWaits(w, step.id) {
      DeliveryEffects(w, step.id, "");
    }
    StepKeepsLogs(w, step);
    forall id | id in Next(w, step).entries
      ensures Acceptable(Next(w, step).entries[id].request)
      ensures CallSound(Next(w, step), Next(w, step).entries[id].request, Next(w, step).entries[id].onService)
    {
      if id in w.entries {
        OtherCallStays(w, step, id);
        StepKeepsCalls(w, step, id);
      }
    }
  }

  lemma {:induction false} RunSound(steps: seq<Step>)
    ensures Sound(Run(steps))
  {
    if steps != [] {
      RunSound(steps[..|steps| - 1]);
      StepSound(Run(steps[..|steps| - 1]), steps[|steps| - 1]);
    }
  }

  // ---------- the gap in every interleaving ----------

  ghost function Gap(w: World, u: string): real { Balance(w.fabric, u) - Held(w.service, u) }

  /** Signed amount of one request at wallet u, if so far exactly one side has applied it. */
  function OneSided(e: Entry, u: string): real {
    MovedAt(e.request, e.onFabric.Applied?, u) - MovedAt(e.request, e.onService.Applied?, u)
  }

  function OneSidedAt(u: string): Entry -> real { (e: Entry) => OneSided(e, u) }

  /** What the service's writes to a wallet have wiped out: balance overwritten less balance read. */
  function Overwritten(ws: seq<Write>, u: string): real {
    if ws == [] then 0.0
    else
      var x := ws[|ws| - 1];
      Overwritten(ws[..|ws| - 1], u) + if x.request.wallet == u then x.overwrote - x.read else 0.0
  }

  ghost predicate GapAccounted(w: World, u: string) {
    Gap(w, u) == Sum(w.entries, OneSidedAt(u)) + Overwritten(w.writes, u)
  }

  lemma EntryChange(w: World, id: nat, e: Entry, u: string)
    ensures Sum(w.entries[id := e], OneSidedAt(u))
            == Sum(w.entries, OneSidedAt(u)) - (if id in w.entries then OneSided(w.entries[id], u) else 0.0)
               + OneSided(e, u)
  {
    SumUpdate(w.entries, OneSidedAt(u), id, e);
  }

  lemma WriteAccountsGap(w: World, id: nat, u: string)
    requires GapAccounted(w, u) && ServiceHasRead(w, id)
    ensures GapAccounted(WriteStep(w, id), u)
  {
    var w' := WriteStep(w, id);
    EntryChange(w, id, w'.entries[id], u);
    assert w'.writes[..|w'.writes| - 1] == w.writes;
  }

  /** Submitting, losing, arriving at the service and reading there apply nothing. */
  lemma ProgressAppliesNothing(w: World, step: Step, u: string)
    requires !step.WriteBack? && !step.ToFabric?
    ensures var w' := Next(w, step);
            && w'.fabric == w.fabric && w'.service == w.service && w'.writes == w.writes
            && (w'.entries != w.entries ==>
                  && step.id in w'.entries && w'.entries == w.entries[step.id := w'.entries[step.id]]
                  && OneSided(w'.entries[step.id], u)
                     == if step.id in w.entries then OneSided(w.entries[step.id], u) else 0.0)
  {}

  lemma ProgressAccountsGap(w: World, step: Step, u: string)
    requires GapAccounted(w, u) && !step.WriteBack? && !step.ToFabric?
    ensures GapAccounted(Next(w, step), u)
  {
    var w' := Next(w, step);
    ProgressAppliesNothing(w, step, u);
    if w'.entries != w.entries {
      EntryChange(w, step.id, w'.entries[step.id], u);
    }
  }

  lemma DeliveryAccountsGap(w: World, id: nat, u: string)
    requires Sound(w) && GapAccounted(w, u) && FabricWaits(w, id)
    ensures GapAccounted(FabricStep(w, id), u)
  {
    EntryChange(w, id, FabricStep(w, id).entries[id], u);
    DeliveryEffects(w, id, u);
  }

  lemma StepAccountsGap(w: World, step: Step, u: string)
    requires Sound(w) && GapAccounted(w, u)
    ensures GapAccounted(Next(w, step), u)
  {
    if step.WriteBack? {
      if ServiceHasRead(w, step.id) { WriteAccountsGap(w, step.id, u); }
    } else if step.ToFabric? {
      if FabricWaits(w, step.id) { DeliveryAccountsGap(w, step.id, u); }
    } else {
      ProgressAccountsGap(w, step, u);
    }
  }

  /**
   In every interleaving of submissions, deliveries, losses and the reads and writes of the
   service's calls, the gap at every wallet is the signed sum of the requests that exactly
   one side has applied, plus what the service's writes to it have wiped out.
   */
  lemma {:induction false} GapLaw(steps: seq<Step>, u: string)
    ensures Gap(Run(steps), u) == Sum(Run(steps).entries, OneSidedAt(u)) + Overwritten(Run(steps).writes, u)
  {
    if steps != [] {
      GapLaw(steps[..|steps| - 1], u);
      RunSound(steps[..|steps| - 1]);
      StepAccountsGap(Run(steps[..|steps| - 1]), steps[|steps| - 1], u);
    }
  }

  /** No write to the wallet came between a call's last read of it and the call's own write. */
  ghost predicate ReadsCurrent(ws: seq<Write>, u: string) {
    forall i :: 0 <= i < |ws| && ws[i].request.wallet == u ==> ws[i].readCurrent
  }

  lemma {:induction false} CurrentOverwritesNothing(ws: seq<Write>, u: string)
    requires ReadsCurrent(ws, u) && forall x :: x in ws ==> WriteSound(x)
    ensures Overwritten(ws, u) == 0.0
  {
    if ws != [] {
      assert ws[|ws| - 1] in ws && forall x :: x in ws[..|ws| - 1] ==> x in ws;
      CurrentOverwritesNothing(ws[..|ws| - 1], u);
    }
  }

  /** The gap is one-sided requests alone iff the writes wiped out nothing on balance, as with current reads. */
  lemma GapIsOneSidedIff(steps: seq<Step>, u: string)
    ensures Gap(Run(steps), u) == Sum(Run(steps).entries, OneSidedAt(u)) <==> Overwritten(Run(steps).writes, u) == 0.0
    ensures ReadsCurrent(Run(steps).writes, u) ==> Gap(Run(steps), u) == Sum(Run(steps).entries, OneSidedAt(u))
  {
    GapLaw(steps, u);
    RunSound(steps);
    if ReadsCurrent(Run(steps).writes, u) {
      CurrentOverwritesNothing(Run(steps).writes, u);
    }
  }

  // ---------- the fate of a request ----------

  /** A submission is accepted iff it names a wallet and a positive amount, and its ID is new. */
  lemma SubmissionIff(steps: seq<Step>, id: nat, r: Request)
    ensures var w, w' := Run(steps), Run(steps + [Submit(id, r)]);
            if r.wallet != "" && r.amount > 0.0 && id !in w.entries then
              w' == w.(entries := w.entries[id := Entry(r, Waiting, Waiting)])
            else w' == w
  {
    RunAppend(steps, Submit(id, r));
  }

  predicate IsFinal(c: Progress) { c.Lost? || c.Refused? || c.Applied? }

  /** w' has the request, and whatever was final about it in w. */
  ghost predicate SameFate(w: World, w': World, id: nat) {
    && id in w.entries && id in w'.entries && w'.entries[id].request == w.entries[id].request
    && (IsFinal(w.entries[id].onFabric) ==> w'.entries[id].onFabric == w.entries[id].onFabric)
    && (IsFinal(w.entries[id].onService) ==> w'.entries[id].onService == w.entries[id].onService)
  }

  lemma StepKeepsFate(w: World, step: Step, id: nat)
    requires id in w.entries
    ensures SameFate(w, Next(w, step), id)
  {}

  /** What has become of a request on a side stays so: no side processes it twice, or after it was lost. */
  lemma {:induction false} FateIsFinal(steps: seq<Step>, more: seq<Step>, id: nat)
    requires id in Run(steps).entries
    ensures SameFate(Run(steps), Run(steps + more), id)
    decreases |more|
  {
    if more == [] {
      assert steps + more == steps;
    } else {
      var front := more[..|more| - 1];
      FateIsFinal(steps, front, id);
      assert steps + more == steps + front + [more[|more| - 1]];
      RunAppend(steps + front, more[|more| - 1]);
      StepKeepsFate(Run(steps + front), more[|more| - 1], id);
    }
  }

  /** A delivery that is lost on the way to a side changes nothing else, then or later on that side. */
  lemma LostStaysLost(steps: seq<Step>, more: seq<Step>, id: nat)
    ensures FabricWaits(Run(steps), id) ==>
              var w, w' := Run(steps), Run(steps + [LoseFabric(id)]);
              && w' == w.(entries := w.entries[id := w.entries[id].(onFabric := Lost)])
              && var z := Run(steps + [LoseFabric(id)] + more); id in z.entries && z.entries[id].onFabric.Lost?
    ensures ServiceWaits(Run(steps), id) ==>
              var w, w' := Run(steps), Run(steps + [LoseService(id)]);
              && w' == w.(entries := w.entries[id := w.entries[id].(onService := Lost)])
              && var z := Run(steps + [LoseService(id)] + more); id in z.entries && z.entries[id].onService.Lost?
  {
    RunAppend(steps, LoseFabric(id));
    RunAppend(steps, LoseService(id));
    if FabricWaits(Run(steps), id) {
      FateIsFinal(steps + [LoseFabric(id)], more, id);
    }
    if ServiceWaits(Run(steps), id) {
      FateIsFinal(steps + [LoseService(id)], more, id);
    }
  }

  // ---------- what a current read is ----------

  predicate WritesTo(w: World, step: Step, u: string) {
    step.WriteBack? && ServiceHasRead(w, step.id) && w.entries[step.id].request.wallet == u
  }

  lemma VersionChange(w: World, step: Step, u: string)
    ensures Version(Next(w, step), u) == Version(w, u) + if WritesTo(w, step, u) then 1 else 0
  {
    if step.WriteBack? && ServiceHasRead(w, step.id) {
      WriteEffects(w, step.id, u);
    }
  }

  lemma RunTo(steps: seq<Step>, k: nat)
    requires k < |steps|
    ensures Run(steps[..k + 1]) == Next(Run(steps[..k]), steps[k])
  {
    assert steps[..k + 1] == steps[..k] + [steps[k]];
    RunAppend(steps[..k], steps[k]);
  }

  predicate WritesAt(steps: seq<Step>, i: nat, u: string)
    requires i < |steps|
  {
    WritesTo(Run(steps[..i]), steps[i], u)
  }

  lemma VersionAt(steps: seq<Step>, k: nat, u: string)
    requires k < |steps|
    ensures Version(Run(steps[..k + 1]), u)
            == Version(Run(steps[..k]), u) + if WritesAt(steps, k, u) then 1 else 0
  {
    RunTo(steps, k);
    VersionChange(Run(steps[..k]), steps[k], u);
  }

  /** Nobody writes the wallet in the steps from the j-th up to the k-th. */
  ghost predicate Unwritten(steps: seq<Step>, j: nat, k: nat, u: string)
    requires k <= |steps|
  {
    forall i :: j <= i < k ==> !WritesAt(steps, i, u)
  }

  lemma {:induction false} CounterStands(v: seq<nat>, ticks: seq<bool>, j: nat, k: nat)
    requires j <= k <= |ticks| && |v| == |ticks| + 1
    requires forall i :: 0 <= i < |ticks| ==> v[i + 1] == v[i] + if ticks[i] then 1 else 0
    ensures v[j] <= v[k] && (v[j] == v[k] <==> forall i :: j <= i < k ==> !ticks[i])
    decreases k
  {
    if j < k {
      CounterStands(v, ticks, j, k - 1);
      assert v[k - 1 + 1] == v[k - 1] + if ticks[k - 1] then 1 else 0;
    }
  }

  /** The count of writes to a wallet stands still exactly while nobody writes it. */
  lemma VersionSameIff(steps: seq<Step>, j: nat, k: nat, u: string)
    requires j <= k <= |steps|
    ensures Version(Run(steps[..j]), u) <= Version(Run(steps[..k]), u)
    ensures Version(Run(steps[..j]), u) == Version(Run(steps[..k]), u) <==> Unwritten(steps, j, k, u)
  {
    var v := seq(|steps| + 1, i requires 0 <= i <= |steps| => Version(Run(steps[..i]), u));
    var ticks := seq(|steps|, i requires 0 <= i < |steps| => WritesAt(steps, i, u));
    forall i | 0 <= i < |steps| ensures v[i + 1] == v[i] + if ticks[i] then 1 else 0 {
      VersionAt(steps, i, u);
    }
    CounterStands(v, ticks, j, k);
    assert forall i :: j <= i < k ==> ticks[i] == WritesAt(steps, i, u);
  }

  predicate InProgress(c: Progress) { c.Guarded? || c.HasRead? }

  /** The same call, further on: what its guard and its read saw stays with it until it has written. */
  predicate SameCall(w: World, w': World, id: nat) {
    && id in w.entries && id in w'.entries && w'.entries[id].request == w.entries[id].request
    && var c, c' := w.entries[id].onService, w'.entries[id].onService;
       c'.Applied? || (InProgress(c) && InProgress(c') && c'.guardAt == c.guardAt && (c.HasRead? ==> c' == c))
  }

  lemma CallStays(w: World, step: Step, id: nat)
    requires id in w.entries && (InProgress(w.entries[id].onService) || w.entries[id].onService.Applied?)
    ensures SameCall(w, Next(w, step), id)
  {}

  lemma StepKeepsCall(steps: seq<Step>, k: nat, id: nat)
    requires k < |steps|
    requires var w := Run(steps[..k]);
             id in w.entries && (InProgress(w.entries[id].onService) || w.entries[id].onService.Applied?)
    ensures SameCall(Run(steps[..k]), Run(steps[..k + 1]), id)
  {
    RunTo(steps, k);
    CallStays(Run(steps[..k]), steps[k], id);
  }

  lemma {:induction false} KeepsWhatItSaw(steps: seq<Step>, j: nat, k: nat, id: nat)
    requires j <= k <= |steps|
    requires var w := Run(steps[..j]); id in w.entries && InProgress(w.entries[id].onService)
    ensures SameCall(Run(steps[..j]), Run(steps[..k]), id)
    decreases k
  {
    if j < k {
      KeepsWhatItSaw(steps, j, k - 1, id);
      StepKeepsCall(steps, k - 1, id);
    }
  }

  /** The step at which a call reads the balance it will write back. */
  predicate ReadsAt(w: World, step: Step, id: nat) {
    !ServiceHasRead(w, id) && ServiceHasRead(Next(w, step), id)
  }

  /** The step at which a call first looks at the balance, and goes on. */
  predicate EntersAt(w: World, step: Step, id: nat) {
    ServiceWaits(w, id) && id in Next(w, step).entries && InProgress(Next(w, step).entries[id].onService)
  }

  lemma ReadTakesVersion(w: World, step: Step, id: nat)
    requires ReadsAt(w, step, id)
    ensures var e := Next(w, step).entries[id];
            id in w.entries && e.request == w.entries[id].request
            && e.onService.readAt == Version(Next(w, step), e.request.wallet)
  {}

  lemma GuardTakesVersion(w: World, step: Step, id: nat)
    requires EntersAt(w, step, id)
    ensures var e := Next(w, step).entries[id];
            id in w.entries && e.request == w.entries[id].request
            && e.onService.guardAt == Version(Next(w, step), e.request.wallet)
  {}

  /** A write's read is marked current exactly when nobody wrote the wallet between the two. */
  lemma ReadCurrentIff(steps: seq<Step>, j: nat, k: nat, id: nat)
    requires j < k < |steps| && ReadsAt(Run(steps[..j]), steps[j], id)
    requires steps[k] == WriteBack(id) && ServiceHasRead(Run(steps[..k]), id)
    ensures var u := Run(steps[..k]).entries[id].request.wallet;
            var ws := Run(steps[..k + 1]).writes;
            && ws != [] && ws[|ws| - 1].request == Run(steps[..k]).entries[id].request
            && (ws[|ws| - 1].readCurrent <==> Unwritten(steps, j + 1, k, u))
  {
    var u := Run(steps[..k]).entries[id].request.wallet;
    RunTo(steps, j);
    RunTo(steps, k);
    KeepsWhatItSaw(steps, j + 1, k, id);
    VersionSameIff(steps, j + 1, k, u);
    ReadTakesVersion(Run(steps[..j]), steps[j], id);
    WriteEffects(Run(steps[..k]), id, u);
  }

  /** And its guard exactly when nobody did between the call's first look and its write. */
  lemma GuardCurrentIff(steps: seq<Step>, j: nat, k: nat, id: nat)
    requires j < k < |steps| && EntersAt(Run(steps[..j]), steps[j], id)
    requires steps[k] == WriteBack(id) && ServiceHasRead(Run(steps[..k]), id)
    ensures var u := Run(steps[..k]).entries[id].request.wallet;
            var ws := Run(steps[..k + 1]).writes;
            && ws != [] && ws[|ws| - 1].request == Run(steps[..k]).entries[id].request
            && (ws[|ws| - 1].guardCurrent <==> Unwritten(steps, j + 1, k, u))
  {
    var u := Run(steps[..k]).entries[id].request.wallet;
    RunTo(steps, j);
    RunTo(steps, k);
    KeepsWhatItSaw(steps, j + 1, k, id);
    VersionSameIff(steps, j + 1, k, u);
    GuardTakesVersion(Run(steps[..j]), steps[j], id);
    WriteEffects(Run(steps[..k]), id, u);
  }
}
