/**
 When the two ledgers of a dual write agree: calls that take turns at the service, and what
 the order of delivery can do.
 */
module DeliveryOrders {
  import opened DualWrite
  import opened MapSums
  import opened Outcomes
  import opened WalletContract

  // ---------- calls one after the other ----------

  /** One call at the service from its first access to its end, with nobody in between. */
  function Served(w: World, id: nat): World { Next(Next(Next(w, ToService(id)), Fetch(id)), WriteBack(id)) }

  lemma ServedMint(w: World, id: nat)
    requires ServiceWaits(w, id) && w.entries[id].request.kind.MintKind?
    requires !IsBlank(w.entries[id].request.wallet) && w.entries[id].request.amount > 0.0
    ensures Served(w, id) == WriteStep(ArriveStep(w, id), id)
  {}

  lemma ServedMelt(w: World, id: nat)
    requires ServiceWaits(w, id) && w.entries[id].request.kind.MeltKind?
    requires ServiceRefusal(MeltKind, w.service, w.entries[id].request.wallet, w.entries[id].request.amount).None?
    ensures Served(w, id) == WriteStep(FetchStep(ArriveStep(w, id), id), id)
  {}

  lemma ServedRefusal(w: World, id: nat)
    requires ServiceWaits(w, id)
    requires var r := w.entries[id].request; ServiceRefusal(r.kind, w.service, r.wallet, r.amount).Some?
    ensures Served(w, id) == ArriveStep(w, id)
  {}

  /** Undisturbed, the steps of a call do what the service's method does. */
  lemma ServedIsCall(w: World, id: nat, u: string)
    requires Sound(w) && ServiceWaits(w, id)
    ensures var r, w' := w.entries[id].request, Served(w, id);
            var refusal := ServiceRefusal(r.kind, w.service, r.wallet, r.amount);
            && w'.service == ServiceApply(r.kind, w.service, r.wallet, r.amount)
            && w'.entries == w.entries[id := w.entries[id].(onService := if refusal.None? then Applied else Refused)]
            && w'.serviceSeen == w.serviceSeen + [r] && w'.fabric == w.fabric && w'.fabricSeen == w.fabricSeen
            && Held(w'.service, u) == Held(w.service, u) + MovedAt(r, refusal.None?, u)
  {
    var r := w.entries[id].request;
    if ServiceRefusal(r.kind, w.service, r.wallet, r.amount).Some? {
      ServedRefusal(w, id);
    } else if r.kind.MintKind? {
      ServedMint(w, id);
    } else {
      ServedMelt(w, id);
    }
  }

  lemma ServedSound(w: World, id: nat)
    requires Sound(w)
    ensures Sound(Served(w, id))
  {
    StepSound(w, ToService(id));
    StepSound(Next(w, ToService(id)), Fetch(id));
    StepSound(Next(Next(w, ToService(id)), Fetch(id)), WriteBack(id));
  }

  /** No other call wrote the wallet between a call's guard and its own write. */
  ghost predicate GuardsCurrent(ws: seq<Write>, u: string) {
    forall i :: 0 <= i < |ws| && ws[i].request.wallet == u ==> ws[i].guardCurrent
  }

  /** A call on the wallet that is in progress at the service. */
  predicate Busy(w: World, id: nat, u: string) {
    id in w.entries && w.entries[id].request.wallet == u && InProgress(w.entries[id].onService)
  }

  ghost predicate Idle(w: World, u: string) { forall id :: id in w.entries ==> !Busy(w, id, u) }

  ghost predicate Queued(w: World, step: Step, u: string) {
    step.ToService? && ServiceWaits(w, step.id) && w.entries[step.id].request.wallet == u ==> Idle(w, u)
  }

  /** Calls on the wallet are queued: none enters the service while another is in progress there. */
  ghost predicate OneAtATime(steps: seq<Step>, u: string) {
    steps != [] ==>
      OneAtATime(steps[..|steps| - 1], u) && Queued(Run(steps[..|steps| - 1]), steps[|steps| - 1], u)
  }

  /** The one call in progress, if any, saw its guard pass on the present balance. */
  ghost predicate Alone(w: World, u: string) {
    && GuardsCurrent(w.writes, u)
    && (forall i, j :: Busy(w, i, u) && Busy(w, j, u) ==> i == j)
    && (forall i :: Busy(w, i, u) ==> w.entries[i].onService.guardAt == Version(w, u))
  }

  lemma WriteStaysAlone(w: World, id: nat, u: string)
    requires Alone(w, u) && ServiceHasRead(w, id)
    ensures Alone(WriteStep(w, id), u)
  {
    var w' := WriteStep(w, id);
    WriteEffects(w, id, u);
    assert forall i :: Busy(w', i, u) ==> Busy(w, i, u) && i != id;
    assert w.entries[id].request.wallet == u ==> Busy(w, id, u);
    forall i | 0 <= i < |w'.writes| && w'.writes[i].request.wallet == u ensures w'.writes[i].guardCurrent {
      if i < |w.writes| {
        assert w'.writes[i] == w.writes[i];
      }
    }
  }

  lemma ArrivalStaysAlone(w: World, id: nat, u: string)
    requires Alone(w, u) && ServiceWaits(w, id) && Queued(w, ToService(id), u)
    ensures Alone(ArriveStep(w, id), u)
  {
    assert forall i :: Busy(ArriveStep(w, id), i, u) ==> Busy(w, i, u) || i == id;
  }

  lemma FetchStaysAlone(w: World, id: nat, u: string)
    requires Alone(w, u) && ServiceGuarded(w, id)
    ensures Alone(FetchStep(w, id), u)
  {
    assert forall i :: Busy(FetchStep(w, id), i, u) ==> Busy(w, i, u);
  }

  lemma OthersStayAlone(w: World, step: Step, u: string)
    requires Alone(w, u) && !step.WriteBack? && !step.ToService? && !step.Fetch?
    ensures Alone(Next(w, step), u)
  {
    assert forall i :: Busy(Next(w, step), i, u) ==> Busy(w, i, u);
  }

  /** Calls that take turns on a wallet always write on a guard that still holds. */
  lemma {:induction false} OneAtATimeIsAlone(steps: seq<Step>, u: string)
    requires OneAtATime(steps, u)
    ensures Alone(Run(steps), u)
  {
    if steps != [] {
      var w, step := Run(steps[..|steps| - 1]), steps[|steps| - 1];
      OneAtATimeIsAlone(steps[..|steps| - 1], u);
      match step
      case ToService(id) => if ServiceWaits(w, id) { ArrivalStaysAlone(w, id, u); }
      case Fetch(id) => if ServiceGuarded(w, id) { FetchStaysAlone(w, id, u); }
      case WriteBack(id) => if ServiceHasRead(w, id) { WriteStaysAlone(w, id, u); }
      case _ => OthersStayAlone(w, step, u);
    }
  }

  // ---------- delivery orders ----------

  /** The requests for one wallet, in delivery order. */
  function ForWallet(rs: seq<Request>, u: string): seq<Request> {
    if rs == [] then []
    else ForWallet(rs[..|rs| - 1], u) + if rs[|rs| - 1].wallet == u then [rs[|rs| - 1]] else []
  }

  /** A balance after one request: a mint adds, a melt takes if covered. */
  function Settle1(b: real, r: Request): real {
    if r.kind.MintKind? then b + r.amount else if b >= r.amount then b - r.amount else b
  }

  function Settle(b: real, rs: seq<Request>): real {
    if rs == [] then b else Settle1(Settle(b, rs[..|rs| - 1]), rs[|rs| - 1])
  }

  /** The contract's balance at a wallet depends only on the wallet's own requests, in its delivery order. */
  ghost predicate FabricSettled(w: World, u: string) {
    Balance(w.fabric, u) == Settle(0.0, ForWallet(w.fabricSeen, u))
  }

  /** So does the service's, with the requests in the order in which their calls ended. */
  ghost predicate ServiceSettled(w: World, u: string) {
    Held(w.service, u) == if IsBlank(u) then 0.0 else Settle(0.0, ForWallet(w.serviceSeen, u))
  }

  lemma SettleAppend(b: real, rs: seq<Request>, r: Request)
    ensures Settle(b, rs + [r]) == Settle1(Settle(b, rs), r)
  {
    assert (rs + [r])[..|rs|] == rs;
  }

  lemma ForWalletAppend(rs: seq<Request>, r: Request, u: string)
    ensures ForWallet(rs + [r], u) == if r.wallet == u then ForWallet(rs, u) + [r] else ForWallet(rs, u)
  {
    assert (rs + [r])[..|rs|] == rs;
  }

  lemma FabricSettles(w: World, id: nat, u: string)
    requires Sound(w) && FabricSettled(w, u) && id in w.entries
    ensures FabricSettled(FabricStep(w, id), u)
  {
    DeliveryEffects(w, id, u);
    ForWalletAppend(w.fabricSeen, w.entries[id].request, u);
    SettleAppend(0.0, ForWallet(w.fabricSeen, u), w.entries[id].request);
  }

  lemma StepFabricSettles(w: World, step: Step, u: string)
    requires Sound(w) && FabricSettled(w, u)
    ensures FabricSettled(Next(w, step), u)
  {
    if step.ToFabric? && FabricWaits(w, step.id) {
      FabricSettles(w, step.id, u);
    }
  }

  lemma {:induction false} RunFabricSettles(steps: seq<Step>, u: string)
    ensures FabricSettled(Run(steps), u)
  {
    if steps != [] {
      var w, step := Run(steps[..|steps| - 1]), steps[|steps| - 1];
      RunFabricSettles(steps[..|steps| - 1], u);
      RunSound(steps[..|steps| - 1]);
      StepFabricSettles(w, step, u);
    }
  }

  lemma ArrivalEffects(w: World, id: nat)
    requires Sound(w) && ServiceWaits(w, id)
    ensures var r, w' := w.entries[id].request, ArriveStep(w, id);
            && w'.service == w.service && w'.fabric == w.fabric
            && (w'.serviceSeen == w.serviceSeen
                || (w'.serviceSeen == w.serviceSeen + [r]
                    && (IsBlank(r.wallet) || Settle1(Held(w.service, r.wallet), r) == Held(w.service, r.wallet))))
  {}

  lemma RefusalSettles(w: World, id: nat, u: string)
    requires Sound(w) && ServiceSettled(w, u) && ServiceWaits(w, id)
    ensures ServiceSettled(ArriveStep(w, id), u)
  {
    ArrivalEffects(w, id);
    ForWalletAppend(w.serviceSeen, w.entries[id].request, u);
    SettleAppend(0.0, ForWallet(w.serviceSeen, u), w.entries[id].request);
  }

  lemma CurrentWriteMoves(w: World, id: nat, u: string)
    requires Sound(w) && ServiceHasRead(w, id)
    requires w.entries[id].request.wallet == u ==> w.entries[id].onService.guardAt == Version(w, u)
    ensures var r := w.entries[id].request;
            && !IsBlank(r.wallet) && WriteStep(w, id).serviceSeen == w.serviceSeen + [r]
            && Held(WriteStep(w, id).service, u)
               == if r.wallet == u then Settle1(Held(w.service, u), r) else Held(w.service, u)
  {
    assert CallSound(w, w.entries[id].request, w.entries[id].onService);
    WriteEffects(w, id, u);
  }

  lemma CurrentWriteSettles(w: World, id: nat, u: string)
    requires Sound(w) && ServiceSettled(w, u) && ServiceHasRead(w, id)
    requires w.entries[id].request.wallet == u ==> w.entries[id].onService.guardAt == Version(w, u)
    ensures ServiceSettled(WriteStep(w, id), u)
  {
    CurrentWriteMoves(w, id, u);
    ForWalletAppend(w.serviceSeen, w.entries[id].request, u);
    SettleAppend(0.0, ForWallet(w.serviceSeen, u), w.entries[id].request);
  }

  /** Writes are only ever added, so a run's earlier writes are current if all are. */
  lemma GuardsWereCurrent(w: World, step: Step, u: string)
    requires GuardsCurrent(Next(w, step).writes, u)
    ensures GuardsCurrent(w.writes, u)
    ensures WritesTo(w, step, u) ==> w.entries[step.id].onService.guardAt == Version(w, u)
  {
    if step.WriteBack? && ServiceHasRead(w, step.id) {
      var ws := Next(w, step).writes;
      WriteEffects(w, step.id, u);
      forall i | 0 <= i < |w.writes| && w.writes[i].request.wallet == u ensures w.writes[i].guardCurrent {
        assert ws[i] == w.writes[i];
      }
    }
  }

  lemma {:induction false} RunServiceSettles(steps: seq<Step>, u: string)
    requires GuardsCurrent(Run(steps).writes, u)
    ensures ServiceSettled(Run(steps), u)
  {
    if steps != [] {
      var w, step := Run(steps[..|steps| - 1]), steps[|steps| - 1];
      RunSound(steps[..|steps| - 1]);
      GuardsWereCurrent(w, step, u);
      RunServiceSettles(steps[..|steps| - 1], u);
      if step.ToService? && ServiceWaits(w, step.id) {
        RefusalSettles(w, step.id, u);
      } else if step.WriteBack? && ServiceHasRead(w, step.id) {
        CurrentWriteSettles(w, step.id, u);
      }
    }
  }

  /**
   Exactly when the ledgers agree at a wallet on which no service call overlapped another's
   write: settling its requests in the contract's order gives what settling them in the
   service's order gives, or zero for a blank name, which the service never credits.
   */
  lemma AgreeIffSameSettlement(steps: seq<Step>, u: string)
    requires GuardsCurrent(Run(steps).writes, u)
    ensures var w := Run(steps);
            Gap(w, u) == 0.0 <==>
            Settle(0.0, ForWallet(w.fabricSeen, u))
            == if IsBlank(u) then 0.0 else Settle(0.0, ForWallet(w.serviceSeen, u))
  {
    RunFabricSettles(steps, u);
    RunServiceSettles(steps, u);
  }

  /** The wallet's requests have reached both sides, in the same order. */
  predicate SameOrder(w: World, u: string) { ForWallet(w.fabricSeen, u) == ForWallet(w.serviceSeen, u) }

  ghost predicate NoBlankWallets(w: World) { forall id :: id in w.entries ==> !IsBlank(w.entries[id].request.wallet) }

  lemma SubmittedBefore(w: World, step: Step)
    requires NoBlankWallets(Next(w, step))
    ensures NoBlankWallets(w)
  {
    forall id | id in w.entries ensures !IsBlank(w.entries[id].request.wallet) {
      assert id in Next(w, step).entries && Next(w, step).entries[id].request == w.entries[id].request;
    }
  }

  lemma BlankStaysUnseen(w: World, step: Step, u: string)
    requires NoBlankWallets(w) && IsBlank(u)
    ensures ForWallet(Next(w, step).fabricSeen, u) == ForWallet(w.fabricSeen, u)
  {
    if step.ToFabric? && FabricWaits(w, step.id) {
      ForWalletAppend(w.fabricSeen, w.entries[step.id].request, u);
    }
  }

  lemma {:induction false} SeenWereSubmitted(steps: seq<Step>, u: string)
    requires NoBlankWallets(Run(steps)) && IsBlank(u)
    ensures ForWallet(Run(steps).fabricSeen, u) == []
  {
    if steps != [] {
      var before, step := Run(steps[..|steps| - 1]), steps[|steps| - 1];
      SubmittedBefore(before, step);
      SeenWereSubmitted(steps[..|steps| - 1], u);
      BlankStaysUnseen(before, step, u);
    }
  }

  /**
   With no blank wallet name, the ledgers are equal at a wallet whenever its requests have
   reached both sides in the same order, and its calls at the service took turns, or at
   least none wrote between another's guard and write.
   */
  lemma LedgersStayEqual(steps: seq<Step>, u: string)
    requires NoBlankWallets(Run(steps)) && SameOrder(Run(steps), u)
    requires OneAtATime(steps, u) || GuardsCurrent(Run(steps).writes, u)
    ensures Gap(Run(steps), u) == 0.0
  {
    if OneAtATime(steps, u) {
      OneAtATimeIsAlone(steps, u);
    }
    AgreeIffSameSettlement(steps, u);
    if IsBlank(u) {
      SeenWereSubmitted(steps, u);
    }
  }

  /** The gap one request opens when it is delivered to both sides with nothing in between. */
  lemma DeliveredGap(w: World, id: nat, u: string)
    requires Sound(w) && FabricWaits(w, id) && ServiceWaits(w, id)
    requires Gap(w, w.entries[id].request.wallet) == 0.0
    ensures var r := w.entries[id].request;
            Gap(Served(FabricStep(w, id), id), u)
            == Gap(w, u)
               + MovedAt(r, IsBlank(r.wallet) && (r.kind.MintKind? || Balance(w.fabric, r.wallet) >= r.amount), u)
  {
    StepSound(w, ToFabric(id));
    DeliveryEffects(w, id, u);
    ServedIsCall(FabricStep(w, id), id, u);
  }

  /** One request delivered to both sides of equal ledgers, with nothing in between, keeps them equal exactly when: */
  lemma AgreementKeptIff(w: World, id: nat)
    requires Sound(w) && FabricWaits(w, id) && ServiceWaits(w, id) && forall u :: Gap(w, u) == 0.0
    ensures var r := w.entries[id].request;
            (forall u :: Gap(Served(Next(w, ToFabric(id)), id), u) == 0.0) <==>
            !(IsBlank(r.wallet) && (r.kind.MintKind? || Balance(w.fabric, r.wallet) >= r.amount))
  {
    var r := w.entries[id].request;
    var w' := Served(Next(w, ToFabric(id)), id);
    assert Gap(w, r.wallet) == 0.0;
    DeliveredGap(w, id, r.wallet);
    forall u ensures Gap(w', u) == MovedAt(r, Gap(w', r.wallet) != 0.0, u) {
      assert Gap(w, u) == 0.0;
      DeliveredGap(w, id, u);
    }
  }

  // ---------- two requests in flight on one wallet ----------

  /** Whether the two orders of two requests settle a balance differently. */
  predicate OrderMatters(b: real, r1: Request, r2: Request) {
    if r1.kind.MeltKind? && r2.kind.MeltKind? then
      r1.amount != r2.amount && r1.amount <= b && r2.amount <= b && b < r1.amount + r2.amount
    else if r1.kind.MeltKind? then b < r1.amount <= b + r2.amount
    else if r2.kind.MeltKind? then b < r2.amount <= b + r1.amount
    else false
  }

  lemma TwoOrdersDifferIff(b: real, r1: Request, r2: Request)
    requires b >= 0.0 && r1.amount > 0.0 && r2.amount > 0.0
    ensures Settle1(Settle1(b, r1), r2) != Settle1(Settle1(b, r2), r1) <==> OrderMatters(b, r1, r2)
  {}

  /** Two requests on one wallet, both under way to both sides of a wallet in agreement. */
  ghost predicate TwoInFlight(w: World, i: nat, j: nat) {
    && i != j && FabricWaits(w, i) && ServiceWaits(w, i) && FabricWaits(w, j) && ServiceWaits(w, j)
    && w.entries[i].request.wallet == w.entries[j].request.wallet
    && !IsBlank(w.entries[i].request.wallet)
    && Gap(w, w.entries[i].request.wallet) == 0.0
  }

  /** Both requests delivered to the contract, in this order. */
  function AtFabric(w: World, i: nat, j: nat): World { Next(Next(w, ToFabric(i)), ToFabric(j)) }

  lemma FabricSettles1(w: World, id: nat, u: string)
    requires Sound(w) && FabricWaits(w, id) && w.entries[id].request.wallet == u
    ensures var w' := Next(w, ToFabric(id));
            && Sound(w') && w'.service == w.service && w'.writes == w.writes
            && w'.entries == w.entries[id := w.entries[id].(onFabric := w'.entries[id].onFabric)]
            && (w.entries[id].request.kind.MintKind? ==> w'.entries[id].onFabric.Applied?)
            && Balance(w'.fabric, u) == Settle1(Balance(w.fabric, u), w.entries[id].request)
  {
    StepSound(w, ToFabric(id));
    DeliveryEffects(w, id, u);
  }

  lemma TwoToFabric(w: World, i: nat, j: nat, u: string)
    requires Sound(w) && i != j && FabricWaits(w, i) && FabricWaits(w, j)
    requires w.entries[i].request.wallet == u == w.entries[j].request.wallet
    ensures var w' := AtFabric(w, i, j);
            && Sound(w') && w'.service == w.service && w'.entries.Keys == w.entries.Keys && w'.writes == w.writes
            && (forall k :: k in w.entries ==> w'.entries[k].request == w.entries[k].request
                                               && w'.entries[k].onService == w.entries[k].onService)
            && Balance(w'.fabric, u)
               == Settle1(Settle1(Balance(w.fabric, u), w.entries[i].request), w.entries[j].request)
  {
    FabricSettles1(w, i, u);
    FabricSettles1(Next(w, ToFabric(i)), j, u);
  }

  lemma TwoToService(w: World, i: nat, j: nat, u: string)
    requires Sound(w) && i != j && ServiceWaits(w, i) && ServiceWaits(w, j) && !IsBlank(u)
    requires w.entries[i].request.wallet == u == w.entries[j].request.wallet
    ensures var w' := Served(Served(w, i), j);
            && w'.fabric == w.fabric
            && Held(w'.service, u)
               == Settle1(Settle1(Held(w.service, u), w.entries[i].request), w.entries[j].request)
  {
    ServedSound(w, i);
    ServedIsCall(w, i, u);
    ServedIsCall(Served(w, i), j, u);
  }

  /** Both requests delivered to the contract as i, j and served one after the other as k, l. */
  lemma DeliverTwo(w: World, i: nat, j: nat, k: nat, l: nat)
    requires Sound(w) && TwoInFlight(w, i, j) && ((k == i && l == j) || (k == j && l == i))
    ensures var w' := Served(Served(AtFabric(w, i, j), k), l);
            var u := w.entries[i].request.wallet;
            var b := Balance(w.fabric, u);
            && Balance(w'.fabric, u) == Settle1(Settle1(b, w.entries[i].request), w.entries[j].request)
            && Held(w'.service, u) == Settle1(Settle1(b, w.entries[k].request), w.entries[l].request)
  {
    var u := w.entries[i].request.wallet;
    TwoToFabric(w, i, j, u);
    TwoToService(AtFabric(w, i, j), k, l, u);
  }

  /**
   The exact race of orders: calls that do not overlap keep the wallet in agreement when made
   in one order on both sides; in opposite orders they break it iff the order matters.
   */
  lemma OppositeOrdersDisagreeIff(w: World, i: nat, j: nat)
    requires Sound(w) && TwoInFlight(w, i, j)
    ensures var u := w.entries[i].request.wallet;
            && Gap(Served(Served(AtFabric(w, i, j), i), j), u) == 0.0
            && (Gap(Served(Served(AtFabric(w, i, j), j), i), u) != 0.0 <==>
                OrderMatters(Balance(w.fabric, u), w.entries[i].request, w.entries[j].request))
  {
    var u := w.entries[i].request.wallet;
    DeliverTwo(w, i, j, i, j);
    DeliverTwo(w, i, j, j, i);
    LoadSound(w.fabric, u);
    TwoOrdersDifferIff(Balance(w.fabric, u), w.entries[i].request, w.entries[j].request);
  }
}
