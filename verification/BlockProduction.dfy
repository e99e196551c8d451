/**
 CreateBlock takes the consensus lock three times: to select, to take the next index
 and to reward. Between these sections other producers, registrations and unstakings
 may run. Each step below is one lock section; a run is any sequence of steps.
 */
module BlockProduction {
  import opened Outcomes
  import opened MapSums
  import opened ProofOfStake

  /** Where a CreateBlock call is: it has selected, or it holds an index and has yet to reward. */
  datatype Phase = Selected(address: string) | Indexed(address: string, index: nat)

  datatype Event =
    | Joined(address: string, amount: real)
    | Returned(address: string, amount: real)
    | Produced(address: string, index: nat)
    | Reward(address: string, index: nat, credited: bool)

  datatype State = State(registry: Registry, index: nat, producers: map<nat, Phase>, history: seq<Event>)

  datatype Step =
    | Register(address: string, amount: real)
    | Unstake(address: string)
    | Select(producer: nat, address: string)
    | TakeIndex(producer: nat)
    | ApplyReward(producer: nat)

  const START := State(map[], 0, map[], [])

  predicate Selectable(m: Registry, a: string) { a in m && m[a].active }

  /**
   One lock section; a refused operation changes nothing. Which selectable validator a
   Select step picks is left open; SelectionStepsCover says these are all that can be picked.
   */
  function Next(s: State, step: Step): State {
    match step
    case Register(a, amount) =>
      (match Registered(s.registry, a, amount)
       case Ok(m) => s.(registry := m, history := s.history + [Joined(a, amount)])
       case Err(_) => s)
    case Unstake(a) =>
      if a in s.registry then
        s.(registry := s.registry - {a}, history := s.history + [Returned(a, s.registry[a].stake)])
      else s
    case Select(p, a) =>
      if p !in s.producers && Selectable(s.registry, a) then s.(producers := s.producers[p := Selected(a)]) else s
    case TakeIndex(p) =>
      if p in s.producers && s.producers[p].Selected? then
        var a := s.producers[p].address;
        s.(index := s.index + 1, producers := s.producers[p := Indexed(a, s.index + 1)],
           history := s.history + [Produced(a, s.index + 1)])
      else s
    case ApplyReward(p) =>
      if p in s.producers && s.producers[p].Indexed? then
        var a := s.producers[p].address;
        s.(registry := Rewarded(s.registry, a), producers := s.producers - {p},
           history := s.history + [Reward(a, s.producers[p].index, a in s.registry)])
      else s
  }

  function Run(steps: seq<Step>): State {
    if steps == [] then START else Next(Run(steps[..|steps| - 1]), steps[|steps| - 1])
  }

  // ---------- what the history says ----------

  /** The blocks produced, in the order of their index-taking sections. */
  function Blocks(history: seq<Event>): seq<Event> {
    if history == [] then []
    else Blocks(history[..|history| - 1]) + if history[|history| - 1].Produced? then [history[|history| - 1]] else []
  }

  /** Number of reward steps made for block index i. */
  function RewardsFor(history: seq<Event>, i: nat): nat {
    if history == [] then 0
    else
      var e := history[|history| - 1];
      RewardsFor(history[..|history| - 1], i) + if e.Reward? && e.index == i then 1 else 0
  }

  function EventValue(e: Event): real {
    match e
    case Joined(_, amount) => amount
    case Returned(_, amount) => -amount
    case Produced(_, _) => 0.0
    case Reward(_, _, credited) => if credited then 2.0 else 0.0
  }

  /** Stake paid in minus stake paid out, plus rewards credited, for one address. */
  function NetPaid(history: seq<Event>, a: string): real {
    if history == [] then 0.0
    else
      var e := history[|history| - 1];
      NetPaid(history[..|history| - 1], a) +
      if e.address != a then 0.0 else EventValue(e)
  }

  function NetPaidTotal(history: seq<Event>): real {
    if history == [] then 0.0
    else NetPaidTotal(history[..|history| - 1]) + EventValue(history[|history| - 1])
  }

  function Stake(m: Registry, a: string): real { if a in m then m[a].stake else 0.0 }

  function StakeOf(e: Entry): real { e.stake }

  /** A block index taken but not yet rewarded. */
  ghost predicate Awaiting(s: State, i: nat) {
    exists p :: p in s.producers && s.producers[p].Indexed? && s.producers[p].index == i
  }

  // ---------- invariants ----------

  ghost predicate IndicesInOrder(s: State) {
    && |Blocks(s.history)| == s.index
    && forall i :: 0 <= i < s.index ==> Blocks(s.history)[i].Produced? && Blocks(s.history)[i].index == i + 1
  }

  /** In-flight indices are distinct, taken, and carry the address of their block. */
  ghost predicate InFlightSound(s: State) {
    && |Blocks(s.history)| == s.index
    && (forall p :: p in s.producers && s.producers[p].Indexed? ==>
          && 1 <= s.producers[p].index <= s.index
          && Blocks(s.history)[s.producers[p].index - 1].address == s.producers[p].address)
    && (forall p, q :: p in s.producers && q in s.producers && p != q
                       && s.producers[p].Indexed? && s.producers[q].Indexed? ==>
                         s.producers[p].index != s.producers[q].index)
  }

  /** Each block is rewarded once, or will be by the producer that holds its index. */
  ghost predicate RewardedOnce(s: State) {
    forall i: nat :: RewardsFor(s.history, i) == if 1 <= i <= s.index && !Awaiting(s, i) then 1 else 0
  }

  /** A reward step names the validator of its block. */
  ghost predicate RewardsMatchBlocks(s: State) {
    && |Blocks(s.history)| == s.index
    && forall k :: 0 <= k < |s.history| && s.history[k].Reward? ==>
                     && 1 <= s.history[k].index <= s.index
                     && Blocks(s.history)[s.history[k].index - 1].address == s.history[k].address
  }

  ghost predicate Conserved(s: State, a: string) { Stake(s.registry, a) == NetPaid(s.history, a) }

  ghost predicate Inv(s: State) {
    && WellKept(s.registry) && IndicesInOrder(s) && InFlightSound(s) && RewardedOnce(s) && RewardsMatchBlocks(s)
  }

  lemma BlocksGrow(history: seq<Event>, e: Event)
    ensures Blocks(history + [e]) == if e.Produced? then Blocks(history) + [e] else Blocks(history)
  {
    assert (history + [e])[..|history|] == history;
  }

  lemma RewardsGrow(history: seq<Event>, e: Event, i: nat)
    ensures RewardsFor(history + [e], i) == RewardsFor(history, i) + if e.Reward? && e.index == i then 1 else 0
  {
    assert (history + [e])[..|history|] == history;
  }

  lemma PaymentsGrow(history: seq<Event>, e: Event, a: string)
    ensures NetPaid(history + [e], a) == NetPaid(history, a) + if e.address != a then 0.0 else EventValue(e)
    ensures NetPaidTotal(history + [e]) == NetPaidTotal(history) + EventValue(e)
  {
    assert (history + [e])[..|history|] == history;
  }

  lemma StepOrdersIndices(s: State, step: Step)
    requires IndicesInOrder(s)
    ensures IndicesInOrder(Next(s, step))
  {
    var s' := Next(s, step);
    if s'.history != s.history {
      BlocksGrow(s.history, s'.history[|s.history|]);
    }
  }

  lemma TakeIndexKeepsInFlight(s: State, p: nat)
    requires InFlightSound(s) && p in s.producers && s.producers[p].Selected?
    ensures InFlightSound(Next(s, TakeIndex(p)))
  {
    BlocksGrow(s.history, Produced(s.producers[p].address, s.index + 1));
  }

  /** No new block, no new index, no new holder of an index. */
  ghost predicate NothingTaken(s: State, s': State) {
    && Blocks(s'.history) == Blocks(s.history) && s'.index == s.index
    && forall p :: p in s'.producers && s'.producers[p].Indexed? ==>
                     p in s.producers && s'.producers[p] == s.producers[p]
  }

  lemma NothingTakenKeeps(s: State, s': State)
    requires InFlightSound(s) && NothingTaken(s, s')
    ensures InFlightSound(s')
  {}

  lemma OtherStepsTakeNothing(s: State, step: Step)
    requires !step.TakeIndex?
    ensures NothingTaken(s, Next(s, step))
  {
    var s' := Next(s, step);
    if s'.history != s.history {
      BlocksGrow(s.history, s'.history[|s.history|]);
    }
  }

  lemma StepKeepsInFlight(s: State, step: Step)
    requires InFlightSound(s)
    ensures InFlightSound(Next(s, step))
  {
    if !step.TakeIndex? {
      OtherStepsTakeNothing(s, step);
      NothingTakenKeeps(s, Next(s, step));
    } else if step.producer in s.producers && s.producers[step.producer].Selected? {
      TakeIndexKeepsInFlight(s, step.producer);
    }
  }

  /** Taking an index starts the wait for its reward, rewarding ends it. */
  lemma AwaitingChange(s: State, step: Step, i: nat)
    requires InFlightSound(s)
    ensures var s' := Next(s, step);
            Awaiting(s', i) <==>
              || (step.TakeIndex? && s'.index != s.index && i == s'.index)
              || (Awaiting(s, i) && !(step.ApplyReward? && s' != s && i == s.producers[step.producer].index))
  {
    var s' := Next(s, step);
    if Awaiting(s, i) {
      var p :| p in s.producers && s.producers[p].Indexed? && s.producers[p].index == i;
      assert (p in s'.producers && s'.producers[p] == s.producers[p]) || (step.ApplyReward? && step.producer == p);
    }
    if step.TakeIndex? && s'.index != s.index {
      assert s'.producers[step.producer] == Indexed(s.producers[step.producer].address, s'.index);
    }
  }

  lemma StepRewardsOnce(s: State, step: Step)
    requires InFlightSound(s) && RewardedOnce(s)
    ensures RewardedOnce(Next(s, step))
  {
    var s' := Next(s, step);
    forall i: nat
      ensures RewardsFor(s'.history, i) == if 1 <= i <= s'.index && !Awaiting(s', i) then 1 else 0
    {
      if s'.history != s.history {
        RewardsGrow(s.history, s'.history[|s.history|], i);
      }
      AwaitingChange(s, step, i);
    }
  }

  lemma EventMatches(s: State, s': State, e: Event)
    requires RewardsMatchBlocks(s) && s'.history == s.history + [e]
    requires Blocks(s.history) <= Blocks(s'.history) && s.index <= |Blocks(s'.history)| == s'.index
    requires e.Reward? ==> 1 <= e.index <= s'.index && Blocks(s'.history)[e.index - 1].address == e.address
    ensures RewardsMatchBlocks(s')
  {
    forall k | 0 <= k < |s'.history| && s'.history[k].Reward?
      ensures 1 <= s'.history[k].index <= s'.index
      ensures Blocks(s'.history)[s'.history[k].index - 1].address == s'.history[k].address
    {
      assert k < |s.history| ==> s'.history[k] == s.history[k];
    }
  }

  lemma StepMatchesBlocks(s: State, step: Step)
    requires InFlightSound(s) && RewardsMatchBlocks(s)
    ensures RewardsMatchBlocks(Next(s, step))
  {
    var s' := Next(s, step);
    if s'.history != s.history {
      var e := s'.history[|s.history|];
      assert s'.history == s.history + [e];
      BlocksGrow(s.history, e);
      assert e.Reward? ==> s.producers[step.producer] == Indexed(e.address, e.index);
      EventMatches(s, s', e);
    }
  }

  /** A step's event, if it records one, carries what it does to the stake held at each address. */
  lemma StakeChange(s: State, step: Step, a: string)
    ensures var s' := Next(s, step);
            || (s'.history == s.history && Stake(s'.registry, a) == Stake(s.registry, a))
            || (|s'.history| == |s.history| + 1 && s'.history == s.history + [s'.history[|s.history|]]
                && Stake(s'.registry, a) - Stake(s.registry, a)
                   == if s'.history[|s.history|].address == a then EventValue(s'.history[|s.history|]) else 0.0)
  {}

  lemma StepConserves(s: State, step: Step, a: string)
    requires Conserved(s, a)
    ensures Conserved(Next(s, step), a)
  {
    var s' := Next(s, step);
    StakeChange(s, step, a);
    if s'.history != s.history {
      PaymentsGrow(s.history, s'.history[|s.history|], a);
    }
  }

  lemma StepConservesTotal(s: State, step: Step)
    ensures Sum(Next(s, step).registry, StakeOf) - NetPaidTotal(Next(s, step).history)
            == Sum(s.registry, StakeOf) - NetPaidTotal(s.history)
  {
    var s' := Next(s, step);
    if s'.history != s.history {
      var e := s'.history[|s.history|];
      PaymentsGrow(s.history, e, e.address);
      if step.Unstake? {
        SumSplit(s.registry, StakeOf, step.address);
      } else if e.address in s'.registry {
        SumUpdate(s.registry, StakeOf, e.address, s'.registry[e.address]);
        assert s'.registry == s.registry[e.address := s'.registry[e.address]];
      }
    }
  }

  // ---------- every run ----------

  lemma StepKeepsRegistry(s: State, step: Step)
    requires WellKept(s.registry)
    ensures WellKept(Next(s, step).registry)
  {}

  lemma StepKeepsInv(s: State, step: Step)
    requires Inv(s)
    ensures Inv(Next(s, step))
  {
    StepKeepsRegistry(s, step);
    StepOrdersIndices(s, step);
    StepKeepsInFlight(s, step);
    StepRewardsOnce(s, step);
    StepMatchesBlocks(s, step);
  }

  lemma {:induction false} RunKeepsInv(steps: seq<Step>)
    ensures Inv(Run(steps))
  {
    if steps != [] {
      RunKeepsInv(steps[..|steps| - 1]);
      StepKeepsInv(Run(steps[..|steps| - 1]), steps[|steps| - 1]);
    }
  }

  /** The indices handed out are 1, 2, ..., n: no gap and no repeat, whatever the interleaving. */
  lemma IndicesAreConsecutive(steps: seq<Step>)
    ensures var s := Run(steps);
            && |Blocks(s.history)| == s.index
            && forall i :: 0 <= i < s.index ==> Blocks(s.history)[i].Produced? && Blocks(s.history)[i].index == i + 1
  {
    RunKeepsInv(steps);
  }

  /**
   Every block gets exactly one reward step once its producer is done (none before),
   and every reward step is for a block already produced, by that block's validator.
   */
  lemma EachBlockRewardedOnce(steps: seq<Step>, i: nat)
    requires 1 <= i <= Run(steps).index
    ensures var s := Run(steps);
            && RewardsFor(s.history, i) == (if Awaiting(s, i) then 0 else 1)
            && |Blocks(s.history)| == s.index
            && forall k :: 0 <= k < |s.history| && s.history[k].Reward? && s.history[k].index == i
                           ==> s.history[k].address == Blocks(s.history)[i - 1].address
  {
    RunKeepsInv(steps);
  }

  /** What the history says of an address: registered iff it last joined. */
  predicate JoinedLast(history: seq<Event>, a: string) {
    if history == [] then false
    else
      var e := history[|history| - 1];
      if e.Joined? && e.address == a then true
      else if e.Returned? && e.address == a then false
      else JoinedLast(history[..|history| - 1], a)
  }

  ghost predicate RegistryFollowsHistory(s: State) { forall a :: JoinedLast(s.history, a) <==> a in s.registry }

  /** Every recorded credit flag is what the history before it says. */
  ghost predicate CreditsFollowHistory(history: seq<Event>) {
    forall k :: 0 <= k < |history| && history[k].Reward? ==>
                  (history[k].credited <==> JoinedLast(history[..k], history[k].address))
  }

  lemma JoinedLastGrows(history: seq<Event>, e: Event, a: string)
    ensures JoinedLast(history + [e], a)
            <==> (e.Joined? && e.address == a) || (!(e.Returned? && e.address == a) && JoinedLast(history, a))
  {
    assert (history + [e])[..|history|] == history;
  }

  /** A step's event, if it records one, says how it changes who is registered. */
  lemma MembershipChange(s: State, step: Step, a: string)
    ensures var s' := Next(s, step);
            || (s'.history == s.history && (a in s'.registry <==> a in s.registry))
            || (|s'.history| == |s.history| + 1 && s'.history == s.history + [s'.history[|s.history|]]
                && var e := s'.history[|s.history|];
                   a in s'.registry
                   <==> (e.Joined? && e.address == a) || (!(e.Returned? && e.address == a) && a in s.registry))
  {}

  lemma StepKeepsJoined(s: State, step: Step, a: string)
    requires JoinedLast(s.history, a) <==> a in s.registry
    ensures JoinedLast(Next(s, step).history, a) <==> a in Next(s, step).registry
  {
    var s' := Next(s, step);
    MembershipChange(s, step, a);
    if s'.history != s.history {
      JoinedLastGrows(s.history, s'.history[|s.history|], a);
    }
  }

  /** At every moment of every run, an address is registered iff its history last had it join. */
  lemma {:induction false} RegisteredIffJoinedLast(steps: seq<Step>, a: string)
    ensures JoinedLast(Run(steps).history, a) <==> a in Run(steps).registry
  {
    if steps != [] {
      RegisteredIffJoinedLast(steps[..|steps| - 1], a);
      StepKeepsJoined(Run(steps[..|steps| - 1]), steps[|steps| - 1], a);
    }
  }

  lemma StepCredits(s: State, step: Step)
    requires CreditsFollowHistory(s.history)
    requires RegistryFollowsHistory(s)
    ensures CreditsFollowHistory(Next(s, step).history)
  {
    var s' := Next(s, step);
    if s'.history != s.history {
      var e := s'.history[|s.history|];
      assert s'.history == s.history + [e];
      forall k | 0 <= k < |s'.history| && s'.history[k].Reward?
        ensures s'.history[k].credited <==> JoinedLast(s'.history[..k], s'.history[k].address)
      {
        if k < |s.history| {
          assert s'.history[k] == s.history[k] && s'.history[..k] == s.history[..k];
        } else {
          assert s'.history[..k] == s.history;
        }
      }
    }
  }

  lemma {:induction false} RunCredits(steps: seq<Step>)
    ensures CreditsFollowHistory(Run(steps).history)
  {
    if steps != [] {
      RunCredits(steps[..|steps| - 1]);
      var s := Run(steps[..|steps| - 1]);
      forall a ensures JoinedLast(s.history, a) <==> a in s.registry {
        RegisteredIffJoinedLast(steps[..|steps| - 1], a);
      }
      StepCredits(s, steps[|steps| - 1]);
    }
  }

  lemma {:induction false} RewardCounted(history: seq<Event>, k: nat)
    requires k < |history| && history[k].Reward?
    ensures RewardsFor(history, history[k].index) >= 1
  {
    if k < |history| - 1 {
      RewardCounted(history[..|history| - 1], k);
    }
  }

  /**
   In every run, a block whose producer is done has exactly one reward step, and wherever
   that step stands in the history, it credits the block's own validator iff the history
   up to there has that validator registered.
   */
  lemma FinishedBlockCreditedIff(steps: seq<Step>, i: nat, k: nat)
    requires 1 <= i <= Run(steps).index && k < |Run(steps).history|
    requires Run(steps).history[k].Reward? && Run(steps).history[k].index == i
    ensures var s := Run(steps);
            && RewardsFor(s.history, i) == 1 && !Awaiting(s, i)
            && |Blocks(s.history)| == s.index
            && s.history[k].address == Blocks(s.history)[i - 1].address
            && (s.history[k].credited <==> JoinedLast(s.history[..k], Blocks(s.history)[i - 1].address))
  {
    EachBlockRewardedOnce(steps, i);
    RunCredits(steps);
    RewardCounted(Run(steps).history, k);
  }

  /** At every address, stake held = stake registered - stake returned + credited rewards. */
  lemma {:induction false} StakeConserved(steps: seq<Step>, a: string)
    ensures Stake(Run(steps).registry, a) == NetPaid(Run(steps).history, a)
  {
    if steps != [] {
      StakeConserved(steps[..|steps| - 1], a);
      StepConserves(Run(steps[..|steps| - 1]), steps[|steps| - 1], a);
    }
  }

  /** And in total. */
  lemma {:induction false} TotalStakeConserved(steps: seq<Step>)
    ensures Sum(Run(steps).registry, StakeOf) == NetPaidTotal(Run(steps).history)
  {
    if steps != [] {
      TotalStakeConserved(steps[..|steps| - 1]);
      StepConservesTotal(Run(steps[..|steps| - 1]), steps[|steps| - 1]);
    }
  }

  lemma RunAppend(steps: seq<Step>, step: Step)
    ensures Run(steps + [step]) == Next(Run(steps), step)
  {
    assert (steps + [step])[..|steps|] == steps;
  }

  /** A registration is accepted iff it names an address that has not joined last and brings 1000 or more. */
  lemma RegistrationIff(steps: seq<Step>, a: string, amount: real)
    ensures var s, s' := Run(steps), Run(steps + [Register(a, amount)]);
            if a != "" && amount >= 1000.0 && !JoinedLast(s.history, a) then
              s' == s.(registry := s.registry[a := Entry(a, amount, true)], history := s.history + [Joined(a, amount)])
            else s' == s
  {
    RunAppend(steps, Register(a, amount));
    RegisteredIffJoinedLast(steps, a);
  }

  /** An unstaking is accepted iff the address joined last, and returns all it ever paid in and earned. */
  lemma UnstakingIff(steps: seq<Step>, a: string)
    ensures var s, s' := Run(steps), Run(steps + [Unstake(a)]);
            if JoinedLast(s.history, a) then
              s' == s.(registry := s.registry - {a}, history := s.history + [Returned(a, NetPaid(s.history, a))])
            else s' == s
  {
    RunAppend(steps, Unstake(a));
    RegisteredIffJoinedLast(steps, a);
    StakeConserved(steps, a);
  }

  /** Nothing in a run makes a validator inactive. */
  lemma {:induction false} AllActive(steps: seq<Step>)
    ensures forall a :: a in Run(steps).registry ==> Run(steps).registry[a].active
  {
    if steps != [] {
      AllActive(steps[..|steps| - 1]);
    }
  }

  /** A selection section starts a producer iff it is idle and the address it picks joined last. */
  lemma SelectionIff(steps: seq<Step>, p: nat, a: string)
    ensures var s, s' := Run(steps), Run(steps + [Select(p, a)]);
            if p !in s.producers && JoinedLast(s.history, a) then s' == s.(producers := s.producers[p := Selected(a)])
            else s' == s
  {
    RunAppend(steps, Select(p, a));
    RegisteredIffJoinedLast(steps, a);
    AllActive(steps);
  }

  lemma {:induction false} AlongAll(m: Registry, order: seq<string>)
    requires forall a :: a in order ==> a in m && m[a].active
    ensures |ActiveAlong(m, order)| == |order|
    ensures forall i :: 0 <= i < |order| ==> ActiveAlong(m, order)[i] == m[order[i]]
  {
    if order != [] {
      AlongAll(m, order[..|order| - 1]);
    }
  }

  lemma {:induction false} SumAgrees<K, V>(m: map<K, V>, f: V -> real, g: V -> real)
    requires forall k :: k in m ==> f(m[k]) == g(m[k])
    ensures Sum(m, f) == Sum(m, g)
    decreases |m|
  {
    if m != map[] {
      var k :| k in m && Sum(m, f) == f(m[k]) + Sum(m - {k}, f);
      SumAgrees(m - {k}, f, g);
      SumSplit(m, g, k);
    }
  }

  /**
   In every run, the weight with which the i-th address of the iteration can be selected is
   what it paid in less what it took out plus its rewards, and the weights add up to the same
   over all addresses: its share of the draws is its share of the net payments.
   */
  lemma WeightsAreNetPayments(steps: seq<Step>, order: seq<string>, i: nat)
    requires Enumerates(order, Run(steps).registry) && i < |order|
    ensures var s := Run(steps);
            var es := ActiveAlong(s.registry, order);
            && |es| == |order| && es[i].address == order[i]
            && es[i].stake == NetPaid(s.history, order[i])
            && Sum(s.registry, ActiveStake) == NetPaidTotal(s.history)
  {
    var m := Run(steps).registry;
    RunKeepsInv(steps);
    AllActive(steps);
    AlongAll(m, order);
    assert order[i] in order;
    StakeConserved(steps, order[i]);
    TotalStakeConserved(steps);
    SumAgrees(m, ActiveStake, StakeOf);
  }

  /**
   In every state of a run, whatever the iteration order and the draw, the validator that
   the selection section returns is one a Select step can pick.
   */
  lemma SelectionStepsCover(steps: seq<Step>, order: seq<string>, draw: real)
    requires var m := Run(steps).registry;
             Enumerates(order, m) && 0.0 <= draw < 1.0 && ActiveAlong(m, order) != []
    ensures var m := Run(steps).registry;
            Selectable(m, SelectedEntry(m, order, draw).address)
  {
    RunKeepsInv(steps);
    SelectionSound(Run(steps).registry, order, draw);
  }

  function RunFrom(s: State, steps: seq<Step>): State
    decreases |steps|
  {
    if steps == [] then s else RunFrom(Next(s, steps[0]), steps[1..])
  }

  lemma {:induction false} OthersKeepProducers(s: State, others: seq<Step>)
    requires forall o :: o in others ==> o.Register? || o.Unstake?
    ensures RunFrom(s, others).producers == s.producers && RunFrom(s, others).index == s.index
    decreases |others|
  {
    if others != [] {
      assert others[0] in others;
      OthersKeepProducers(Next(s, others[0]), others[1..]);
    }
  }

  /**
   Three sections of one producer with any registrations and unstakings of others in
   between: the next index, and a reward to the validator picked at the start, if it is
   registered at the end.
   */
  lemma ProducerCompletes(s: State, p: nat, a: string, others: seq<Step>)
    requires p !in s.producers && Selectable(s.registry, a)
    requires forall o :: o in others ==> o.Register? || o.Unstake?
    ensures var taken := Next(Next(s, Select(p, a)), TakeIndex(p));
            var later := RunFrom(taken, others);
            var s' := Next(later, ApplyReward(p));
            && taken.index == s.index + 1 && taken.history == s.history + [Produced(a, s.index + 1)]
            && s'.index == s.index + 1 && s'.producers == s.producers
            && s'.history == later.history + [Reward(a, s.index + 1, a in later.registry)]
            && s'.registry == if a in later.registry
                              then var e := later.registry[a]; later.registry[a := e.(stake := e.stake + 2.0)]
                              else later.registry
  {
    var taken := Next(Next(s, Select(p, a)), TakeIndex(p));
    OthersKeepProducers(taken, others);
    assert s.producers[p := Indexed(a, s.index + 1)] - {p} == s.producers;
  }
}
