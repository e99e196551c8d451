/**
 The Gold-Coin staking pool. Rewards accrue linearly in time on the current amount,
 so an increase re-rates the whole elapsed time; a claimed-so-far counter is taken off.
 Times are nanoseconds; the clock is a parameter of each operation.
 */
module StakingPool {
  import opened Outcomes
  import opened MapSums

  const MIN_STAKE: real := 100.0
  const ANNUAL_REWARD: real := 5.0
  const LOCK_PERIOD: int := 30 * 24 * 60 * 60
  const NANOS: int := 1000000000

  datatype Error = InvalidAddress | BelowMinimum | AlreadyExists | NotFound | Inactive | NothingToClaim | Locked
                 | InvalidAmount

  /** The value of a stake object. */
  datatype Position = Position(amount: real, startTime: int, unlockTime: int, claimed: real, active: bool)

  datatype Pool = Pool(stakes: map<string, Position>, totalStaked: real)

  datatype Op = Create(address: string, amount: real) | Increase(address: string, amount: real)
              | Claim(address: string) | Unstake(address: string)

  datatype Reply = Rejected(error: Error) | Done | Paid(reward: real) | Released(principal: real, reward: real)

  // ---------- accrual ----------

  function Years(elapsed: int): real {
    elapsed as real / 1000000000.0 / (365.25 * 24.0 * 60.0 * 60.0)
  }

  function Accrued(amount: real, elapsed: int): real {
    amount * (ANNUAL_REWARD / 100.0) * Years(elapsed)
  }

  /** Five percent a year of 365.25 days, in whole numbers: 31557600 seconds of 1000000000 nanoseconds. */
  lemma AccruedExact(amount: real, elapsed: int)
    ensures Accrued(amount, elapsed) * 100.0 * 31557600.0 * 1000000000.0 == 5.0 * amount * elapsed as real
  {
    assert Years(elapsed) * 31557600.0 * 1000000000.0 == elapsed as real;
    var x := amount * 0.05;
    assert Accrued(amount, elapsed) == x * Years(elapsed);
    assert x * Years(elapsed) * (31557600.0 * 1000000000.0) == x * (Years(elapsed) * 31557600.0 * 1000000000.0);
  }

  lemma YearsMonotone(a: int, b: int)
    requires 0 <= a <= b
    ensures 0.0 <= Years(a) <= Years(b)
  {}

  lemma ProductMonotone(x: real, y: real, p: real, q: real)
    requires 0.0 <= x <= y && 0.0 <= p <= q
    ensures 0.0 <= x * p <= y * q
  {
    assert x * p <= y * p;
    assert y * p <= y * q;
  }

  /** More stake or more time never accrues less. */
  lemma AccruedMonotone(amount: real, amount': real, elapsed: int, elapsed': int)
    requires 0.0 <= amount <= amount' && 0 <= elapsed <= elapsed'
    ensures 0.0 <= Accrued(amount, elapsed) <= Accrued(amount', elapsed')
  {
    YearsMonotone(elapsed, elapsed');
    ProductMonotone(amount * 0.05, amount' * 0.05, Years(elapsed), Years(elapsed'));
  }

  // ---------- one operation ----------

  function Find(p: Pool, address: string): Result<Position, Error> {
    if address !in p.stakes then Err(NotFound)
    else if !p.stakes[address].active then Err(Inactive)
    else Ok(p.stakes[address])
  }

  function CreateStep(p: Pool, address: string, amount: real, now: int): (Pool, Reply) {
    if address == "" then (p, Rejected(InvalidAddress))
    else if amount < MIN_STAKE then (p, Rejected(BelowMinimum))
    else if address in p.stakes then (p, Rejected(AlreadyExists))
    else
      var s := Position(amount, now, now + LOCK_PERIOD * NANOS, 0.0, true);
      (Pool(p.stakes[address := s], p.totalStaked + amount), Done)
  }

  function IncreaseStep(p: Pool, address: string, amount: real): (Pool, Reply) {
    if amount <= 0.0 then (p, Rejected(InvalidAmount))
    else match Find(p, address)
      case Err(e) => (p, Rejected(e))
      case Ok(s) => (Pool(p.stakes[address := s.(amount := s.amount + amount)], p.totalStaked + amount), Done)
  }

  function Claimable(s: Position, now: int): real { Accrued(s.amount, now - s.startTime) - s.claimed }

  function ClaimStep(p: Pool, address: string, now: int): (Pool, Reply) {
    match Find(p, address)
    case Err(e) => (p, Rejected(e))
    case Ok(s) =>
      if Claimable(s, now) <= 0.0 then (p, Rejected(NothingToClaim))
      else (p.(stakes := p.stakes[address := s.(claimed := s.claimed + Claimable(s, now))]), Paid(Claimable(s, now)))
  }

  function UnstakeStep(p: Pool, address: string, now: int): (Pool, Reply) {
    match Find(p, address)
    case Err(e) => (p, Rejected(e))
    case Ok(s) =>
      if now < s.unlockTime then (p, Rejected(Locked))
      else
        (Pool(p.stakes[address := s.(active := false)], p.totalStaked - s.amount),
         Released(s.amount, Claimable(s, now)))
  }

  function Apply(p: Pool, op: Op, now: int): (Pool, Reply) {
    match op
    case Create(a, amount) => CreateStep(p, a, amount, now)
    case Increase(a, amount) => IncreaseStep(p, a, amount)
    case Claim(a) => ClaimStep(p, a, now)
    case Unstake(a) => UnstakeStep(p, a, now)
  }

  // ---------- the pool object ----------

  class Stake {
    const address: string
    var amount: real
    const startTime: int
    const unlockTime: int
    var rewardsClaimed: real
    var isActive: bool

    constructor (address: string, amount: real, startTime: int, unlockTime: int)
      ensures this.address == address && Value() == Position(amount, startTime, unlockTime, 0.0, true)
    {
      this.address, this.amount, this.startTime, this.unlockTime := address, amount, startTime, unlockTime;
      rewardsClaimed, isActive := 0.0, true;
    }

    function Value(): Position
      reads this
    {
      Position(amount, startTime, unlockTime, rewardsClaimed, isActive)
    }
  }

  class GoldPool {
    var stakes: map<string, Stake>
    var totalStaked: real

    ghost function Objects(): set<object>
      reads this
    {
      set a | a in stakes :: stakes[a] as object
    }

    ghost function View(): Pool
      reads this, Objects()
    {
      Pool(map a | a in stakes :: stakes[a].Value(), totalStaked)
    }

    ghost predicate Valid()
      reads this, Objects()
    {
      forall a :: a in stakes ==> stakes[a].address == a
    }

    constructor ()
      ensures Valid() && View() == Pool(map[], 0.0)
    {
      stakes, totalStaked := map[], 0.0;
    }

    method CreateStake(address: string, amount: real, now: int) returns (r: Result<(), Error>)
      requires Valid()
      modifies this
      ensures Valid() && fresh(Objects() - old(Objects()))
      ensures r == if address == "" then Err(InvalidAddress) else if amount < 100.0 then Err(BelowMinimum)
                   else if address in old(View()).stakes then Err(AlreadyExists) else Ok(())
      ensures r.Ok? ==>
                var s := Position(amount, now, now + 2592000 * 1000000000, 0.0, true);
                View() == Pool(old(View()).stakes[address := s], old(View()).totalStaked + amount)
      ensures r.Err? ==> View() == old(View())
      ensures (View(), if r.Ok? then Done else Rejected(r.error))
              == Apply(old(View()), Op.Create(address, amount), now)
    {
      if address == "" {
        return Err(InvalidAddress);
      }
      if amount < MIN_STAKE {
        return Err(BelowMinimum);
      }
      if address in stakes {
        return Err(AlreadyExists);
      }
      var stake := new Stake(address, amount, now, now + LOCK_PERIOD * NANOS);
      stakes := stakes[address := stake];
      totalStaked := totalStaked + amount;
      assert View().stakes == old(View()).stakes[address := stake.Value()];
      return Ok(());
    }

    method CalculateRewards(address: string, now: int) returns (r: Result<real, Error>)
      requires Valid()
      ensures r.Ok? <==> address in View().stakes && View().stakes[address].active
      ensures r.Err? ==> r.error == if address in View().stakes then Inactive else NotFound
      ensures r.Ok? ==>
                var s := View().stakes[address];
                (r.value + s.claimed) * 100.0 * 31557600.0 * 1000000000.0
                == 5.0 * s.amount * (now - s.startTime) as real
    {
      if address !in stakes {
        return Err(NotFound);
      }
      var stake := stakes[address];
      if !stake.isActive {
        return Err(Inactive);
      }
      var rewards := Accrued(stake.amount, now - stake.startTime);
      AccruedExact(stake.amount, now - stake.startTime);
      return Ok(rewards - stake.rewardsClaimed);
    }

    method ClaimRewards(address: string, now: int) returns (r: Result<real, Error>)
      requires Valid()
      modifies Objects()
      ensures Valid()
      ensures r.Err? ==>
                && View() == old(View())
                && r.error == if address !in View().stakes then NotFound
                              else if !View().stakes[address].active then Inactive else NothingToClaim
      ensures r.Ok? <==> && address in old(View()).stakes && old(View()).stakes[address].active
                         && var s := old(View()).stakes[address];
                            s.claimed * 100.0 * 31557600.0 * 1000000000.0 < 5.0 * s.amount * (now - s.startTime) as real
      ensures r.Ok? ==>
                var s := old(View()).stakes[address];
                && (r.value + s.claimed) * 100.0 * 31557600.0 * 1000000000.0
                   == 5.0 * s.amount * (now - s.startTime) as real
                && View() == old(View()).(stakes := old(View()).stakes[address := s.(claimed := s.claimed + r.value)])
      ensures (View(), if r.Ok? then Paid(r.value) else Rejected(r.error))
              == Apply(old(View()), Op.Claim(address), now)
    {
      if address !in stakes {
        return Err(NotFound);
      }
      var stake := stakes[address];
      if !stake.isActive {
        return Err(Inactive);
      }
      var rewards := Accrued(stake.amount, now - stake.startTime);
      AccruedExact(stake.amount, now - stake.startTime);
      var claimableRewards := rewards - stake.rewardsClaimed;
      if claimableRewards <= 0.0 {
        return Err(NothingToClaim);
      }
      stake.rewardsClaimed := stake.rewardsClaimed + claimableRewards;
      assert View().stakes == old(View()).stakes[address := stake.Value()];
      return Ok(claimableRewards);
    }

    method Unstake(address: string, now: int) returns (r: Result<(real, real), Error>)
      requires Valid()
      modifies this`totalStaked, Objects()
      ensures Valid()
      ensures r.Err? ==>
                && View() == old(View())
                && r.error == if address !in View().stakes then NotFound
                              else if !View().stakes[address].active then Inactive else Locked
      ensures r.Ok? <==> && address in old(View()).stakes && old(View()).stakes[address].active
                         && old(View()).stakes[address].unlockTime <= now
      ensures r.Ok? ==>
                var s := old(View()).stakes[address];
                && r.value.0 == s.amount
                && (r.value.1 + s.claimed) * 100.0 * 31557600.0 * 1000000000.0
                   == 5.0 * s.amount * (now - s.startTime) as real
                && View() == Pool(old(View()).stakes[address := s.(active := false)],
                                  old(View()).totalStaked - s.amount)
      ensures (View(), if r.Ok? then Released(r.value.0, r.value.1) else Rejected(r.error))
              == Apply(old(View()), Op.Unstake(address), now)
    {
      if address !in stakes {
        return Err(NotFound);
      }
      var stake := stakes[address];
      if !stake.isActive {
        return Err(Inactive);
      }
      if now < stake.unlockTime {
        return Err(Locked);
      }
      var rewards := Accrued(stake.amount, now - stake.startTime);
      AccruedExact(stake.amount, now - stake.startTime);
      var unclaimedRewards := rewards - stake.rewardsClaimed;
      var stakedAmount := stake.amount;
      stake.isActive := false;
      totalStaked := totalStaked - stakedAmount;
      assert View().stakes == old(View()).stakes[address := stake.Value()];
      return Ok((stakedAmount, unclaimedRewards));
    }

    method IncreaseStake(address: string, amount: real) returns (r: Result<(), Error>)
      requires Valid()
      modifies this`totalStaked, Objects()
      ensures Valid()
      ensures r == if amount <= 0.0 then Err(InvalidAmount) else if address !in old(View()).stakes then Err(NotFound)
                   else if !old(View()).stakes[address].active then Err(Inactive) else Ok(())
      ensures r.Ok? ==>
                var s := old(View()).stakes[address];
                View() == Pool(old(View()).stakes[address := s.(amount := s.amount + amount)],
                               old(View()).totalStaked + amount)
      ensures r.Err? ==> View() == old(View())
      ensures forall now: int ::
                (View(), if r.Ok? then Done else Rejected(r.error))
                == Apply(old(View()), Op.Increase(address, amount), now)
    {
      if amount <= 0.0 {
        return Err(InvalidAmount);
      }
      if address !in stakes {
        return Err(NotFound);
      }
      var stake := stakes[address];
      if !stake.isActive {
        return Err(Inactive);
      }
      stake.amount := stake.amount + amount;
      totalStaked := totalStaked + amount;
      assert View().stakes == old(View()).stakes[address := stake.Value()];
      return Ok(());
    }
  }

  // ---------- whole histories ----------

  datatype Timed = Timed(op: Op, now: int)

  function Run(h: seq<Timed>): Pool {
    if h == [] then Pool(map[], 0.0) else Apply(Run(h[..|h| - 1]), h[|h| - 1].op, h[|h| - 1].now).0
  }

  /** The reply to the last operation of a nonempty history. */
  function LastReply(h: seq<Timed>): Reply
    requires h != []
  {
    Apply(Run(h[..|h| - 1]), h[|h| - 1].op, h[|h| - 1].now).1
  }

  /** The clock never goes back. */
  ghost predicate ClockForward(h: seq<Timed>) {
    forall i, j :: 0 <= i < j < |h| ==> h[i].now <= h[j].now
  }

  function RewardIn(r: Reply): real {
    match r case Paid(x) => x case Released(_, x) => x case _ => 0.0
  }

  /** All rewards paid to an address, by claims and by unstaking. */
  function RewardsPaid(h: seq<Timed>, a: string): real {
    if h == [] then 0.0
    else RewardsPaid(h[..|h| - 1], a) + if h[|h| - 1].op.address == a then RewardIn(LastReply(h)) else 0.0
  }

  function DepositIn(op: Op, r: Reply): real {
    if r.Done? && (op.Create? || op.Increase?) then op.amount else 0.0
  }

  function Deposited(h: seq<Timed>, a: string): real {
    if h == [] then 0.0
    else Deposited(h[..|h| - 1], a) + if h[|h| - 1].op.address == a then DepositIn(h[|h| - 1].op, LastReply(h)) else 0.0
  }

  function PrincipalReturned(h: seq<Timed>, a: string): real {
    if h == [] then 0.0
    else PrincipalReturned(h[..|h| - 1], a)
         + if h[|h| - 1].op.address == a && LastReply(h).Released? then LastReply(h).principal else 0.0
  }

  /** What a history up to time now leaves at one position. */
  ghost predicate Sound(s: Position, now: int) {
    && s.amount >= MIN_STAKE
    && s.startTime <= now
    && s.unlockTime == s.startTime + LOCK_PERIOD * NANOS
    && 0.0 <= s.claimed
    && (s.active ==> s.claimed <= Accrued(s.amount, now - s.startTime))
  }

  lemma SoundLater(s: Position, now: int, later: int)
    requires Sound(s, now) && now <= later
    ensures Sound(s, later)
  {
    AccruedMonotone(s.amount, s.amount, now - s.startTime, later - s.startTime);
  }

  /** One operation keeps every position sound and pays nothing negative. */
  lemma ApplySound(p: Pool, op: Op, now: int, a: string)
    requires a in p.stakes ==> Sound(p.stakes[a], now)
    ensures var (p', r) := Apply(p, op, now);
            && (a in p'.stakes ==> Sound(p'.stakes[a], now))
            && (op.address == a ==> RewardIn(r) >= 0.0)
  {
    if a == op.address && a in p.stakes && op.Increase? && op.amount > 0.0 {
      var s := p.stakes[a];
      AccruedMonotone(s.amount, s.amount + op.amount, now - s.startTime, now - s.startTime);
    }
  }

  lemma {:induction false} RunSound(h: seq<Timed>, a: string, now: int)
    requires ClockForward(h) && forall i :: 0 <= i < |h| ==> h[i].now <= now
    ensures a in Run(h).stakes ==> Sound(Run(h).stakes[a], now)
  {
    if h != [] {
      var last := h[|h| - 1];
      RunSound(h[..|h| - 1], a, last.now);
      ApplySound(Run(h[..|h| - 1]), last.op, last.now, a);
      if a in Run(h).stakes {
        SoundLater(Run(h).stakes[a], last.now, now);
      }
    }
  }

  /** No claim and no unstaking ever pays a negative reward. */
  lemma NoNegativePayout(h: seq<Timed>)
    requires h != [] && ClockForward(h)
    ensures RewardIn(LastReply(h)) >= 0.0
  {
    var last := h[|h| - 1];
    RunSound(h[..|h| - 1], last.op.address, last.now);
    ApplySound(Run(h[..|h| - 1]), last.op, last.now, last.op.address);
  }

  /** While a stake is active, what it has been paid is its claimed counter. */
  lemma {:induction false} PaidIsClaimed(h: seq<Timed>, a: string)
    ensures a !in Run(h).stakes ==> RewardsPaid(h, a) == 0.0
    ensures a in Run(h).stakes && Run(h).stakes[a].active ==> RewardsPaid(h, a) == Run(h).stakes[a].claimed
  {
    if h != [] {
      PaidIsClaimed(h[..|h| - 1], a);
    }
  }

  function Held(p: Pool, a: string): real { if a in p.stakes && p.stakes[a].active then p.stakes[a].amount else 0.0 }

  /** An address's deposits are its amount; they are returned in full on unstaking, and only then. */
  lemma {:induction false} PrincipalLaw(h: seq<Timed>, a: string)
    ensures a !in Run(h).stakes ==> Deposited(h, a) == PrincipalReturned(h, a) == 0.0
    ensures a in Run(h).stakes ==>
              && Deposited(h, a) == Run(h).stakes[a].amount
              && PrincipalReturned(h, a) == if Run(h).stakes[a].active then 0.0 else Run(h).stakes[a].amount
    ensures Deposited(h, a) == Held(Run(h), a) + PrincipalReturned(h, a)
  {
    if h != [] {
      PrincipalLaw(h[..|h| - 1], a);
    }
  }

  /** When an address's stake was created: the time of its one accepted creation. */
  function CreatedAt(h: seq<Timed>, a: string): int {
    if h == [] then 0
    else if h[|h| - 1].op.Create? && h[|h| - 1].op.address == a && LastReply(h).Done? then h[|h| - 1].now
    else CreatedAt(h[..|h| - 1], a)
  }

  lemma {:induction false} StartIsCreation(h: seq<Timed>, a: string)
    ensures a in Run(h).stakes ==> Run(h).stakes[a].startTime == CreatedAt(h, a)
  {
    if h != [] {
      StartIsCreation(h[..|h| - 1], a);
    }
  }

  /**
   At every moment of every run with a forward clock, what an active stake has been paid so
   far is not negative and not more than five percent a year on its deposits since its creation.
   */
  lemma PaidWithinAccrual(h: seq<Timed>, a: string, now: int)
    requires ClockForward(h) && forall i :: 0 <= i < |h| ==> h[i].now <= now
    requires a in Run(h).stakes && Run(h).stakes[a].active
    ensures 0.0 <= RewardsPaid(h, a) * 100.0 * 31557600.0 * 1000000000.0
                <= 5.0 * Deposited(h, a) * (now - CreatedAt(h, a)) as real
  {
    var s := Run(h).stakes[a];
    RunSound(h, a, now);
    PaidIsClaimed(h, a);
    PrincipalLaw(h, a);
    StartIsCreation(h, a);
    AccruedExact(s.amount, now - s.startTime);
  }

  /** What five percent a year of 365.25 days on an amount come to, over a time in nanoseconds. */
  predicate FivePercentAYear(paid: real, amount: real, elapsed: int) {
    paid * 100.0 * 31557600.0 * 1000000000.0 == 5.0 * amount * elapsed as real
  }

  lemma AccruedIsFivePercent(amount: real, elapsed: int)
    ensures FivePercentAYear(Accrued(amount, elapsed), amount, elapsed)
  {
    AccruedExact(amount, elapsed);
  }

  lemma TotalIsAccrued(h: seq<Timed>, a: string)
    requires h != [] && h[|h| - 1].op == Unstake(a) && LastReply(h).Released?
    ensures RewardsPaid(h, a) == Accrued(Deposited(h, a), h[|h| - 1].now - CreatedAt(h, a))
    ensures LastReply(h).principal == Deposited(h, a)
  {
    PaidIsClaimed(h[..|h| - 1], a);
    PrincipalLaw(h[..|h| - 1], a);
    StartIsCreation(h[..|h| - 1], a);
  }

  /**
   Telescoping: the rewards paid to an address from creation to unstaking are five percent a
   year of 365.25 days on all its deposits over the whole time (in nanoseconds here), however
   many claims and increases there were and whenever they happened.
   */
  lemma TotalRewardAtUnstake(h: seq<Timed>, a: string)
    requires h != [] && h[|h| - 1].op == Unstake(a) && LastReply(h).Released?
    ensures FivePercentAYear(RewardsPaid(h, a), Deposited(h, a), h[|h| - 1].now - CreatedAt(h, a))
    ensures LastReply(h).principal == Deposited(h, a)
  {
    TotalIsAccrued(h, a);
    AccruedIsFivePercent(Deposited(h, a), h[|h| - 1].now - CreatedAt(h, a));
  }

  /** So two histories with the same deposits and times pay the same in all, whenever they claimed and increased. */
  lemma ClaimsDoNotMatter(h: seq<Timed>, k: seq<Timed>, a: string)
    requires h != [] && h[|h| - 1].op == Unstake(a) && LastReply(h).Released?
    requires k != [] && k[|k| - 1].op == Unstake(a) && LastReply(k).Released?
    requires Deposited(h, a) == Deposited(k, a) && CreatedAt(h, a) == CreatedAt(k, a)
    requires h[|h| - 1].now == k[|k| - 1].now
    ensures RewardsPaid(h, a) == RewardsPaid(k, a)
  {
    TotalIsAccrued(h, a);
    TotalIsAccrued(k, a);
  }

  /** A year of 365.25 days. */
  const YEAR: int := 31557600 * 1000000000

  /** A stake of 1000 claimed once, and one of 400 increased to 1000 and claimed twice. */
  const ONE_CLAIM := [Timed(Create("a", 1000.0), 0), Timed(Claim("a"), YEAR / 2), Timed(Unstake("a"), YEAR)]
  const TWO_CLAIMS := [Timed(Create("a", 400.0), 0), Timed(Claim("a"), YEAR / 4), Timed(Increase("a", 600.0), YEAR / 2),
                       Timed(Claim("a"), YEAR / 2), Timed(Unstake("a"), YEAR)]

  lemma RunAppend(h: seq<Timed>, t: Timed)
    ensures Run(h + [t]) == Apply(Run(h), t.op, t.now).0
    ensures LastReply(h + [t]) == Apply(Run(h), t.op, t.now).1
    ensures CreatedAt(h + [t], "a") == if t.op.Create? && t.op.address == "a" && LastReply(h + [t]).Done? then t.now
                                       else CreatedAt(h, "a")
    ensures Deposited(h + [t], "a")
            == Deposited(h, "a") + if t.op.address == "a" then DepositIn(t.op, LastReply(h + [t])) else 0.0
  {
    assert (h + [t])[..|h|] == h;
  }

  /** Both are paid 50 in rewards over one year. */
  lemma FiftyInAYear()
    ensures RewardsPaid(ONE_CLAIM, "a") == 50.0 == RewardsPaid(TWO_CLAIMS, "a")
  {
    var h1 := [Timed(Create("a", 1000.0), 0)];
    RunAppend([], h1[0]);
    assert [] + [h1[0]] == h1;
    var h2 := h1 + [Timed(Claim("a"), YEAR / 2)];
    RunAppend(h1, Timed(Claim("a"), YEAR / 2));
    RunAppend(h2, Timed(Unstake("a"), YEAR));
    assert ONE_CLAIM == h2 + [Timed(Unstake("a"), YEAR)];
    TotalRewardAtUnstake(ONE_CLAIM, "a");
    var k1 := [Timed(Create("a", 400.0), 0)];
    RunAppend([], k1[0]);
    assert [] + [k1[0]] == k1;
    var k2 := k1 + [Timed(Claim("a"), YEAR / 4)];
    RunAppend(k1, Timed(Claim("a"), YEAR / 4));
    var k3 := k2 + [Timed(Increase("a", 600.0), YEAR / 2)];
    RunAppend(k2, Timed(Increase("a", 600.0), YEAR / 2));
    var k4 := k3 + [Timed(Claim("a"), YEAR / 2)];
    RunAppend(k3, Timed(Claim("a"), YEAR / 2));
    RunAppend(k4, Timed(Unstake("a"), YEAR));
    assert TWO_CLAIMS == k4 + [Timed(Unstake("a"), YEAR)];
    TotalRewardAtUnstake(TWO_CLAIMS, "a");
  }

  // ---------- principal and life cycle ----------

  function ActiveAmount(s: Position): real { if s.active then s.amount else 0.0 }

  lemma ApplyKeepsTotal(p: Pool, op: Op, now: int)
    requires p.totalStaked == Sum(p.stakes, ActiveAmount)
    ensures Apply(p, op, now).0.totalStaked == Sum(Apply(p, op, now).0.stakes, ActiveAmount)
  {
    var p' := Apply(p, op, now).0;
    if p'.stakes != p.stakes {
      SumUpdate(p.stakes, ActiveAmount, op.address, p'.stakes[op.address]);
      assert p'.stakes == p.stakes[op.address := p'.stakes[op.address]];
    } else {
      assert p' == p;
    }
  }

  /** TotalStaked is always the sum of the active amounts. */
  lemma {:induction false} TotalStakedIsSum(h: seq<Timed>)
    ensures Run(h).totalStaked == Sum(Run(h).stakes, ActiveAmount)
  {
    if h != [] {
      TotalStakedIsSum(h[..|h| - 1]);
      ApplyKeepsTotal(Run(h[..|h| - 1]), h[|h| - 1].op, h[|h| - 1].now);
    }
  }

  function DepositsOf(h: seq<Timed>): real {
    if h == [] then 0.0 else DepositsOf(h[..|h| - 1]) + DepositIn(h[|h| - 1].op, LastReply(h))
  }

  function ReturnsOf(h: seq<Timed>): real {
    if h == [] then 0.0
    else ReturnsOf(h[..|h| - 1]) + if LastReply(h).Released? then LastReply(h).principal else 0.0
  }

  /** All deposits are either still staked or have been returned. */
  lemma {:induction false} DepositsConserved(h: seq<Timed>)
    ensures DepositsOf(h) == Run(h).totalStaked + ReturnsOf(h)
  {
    if h != [] {
      DepositsConserved(h[..|h| - 1]);
    }
  }

  /** 0: no stake, 1: active, 2: unstaked. */
  function Stage(p: Pool, a: string): nat {
    if a !in p.stakes then 0 else if p.stakes[a].active then 1 else 2
  }

  /** A later history never takes an address back to an earlier stage, and never moves its unlock time. */
  lemma {:induction false} StagesOnlyAdvance(h: seq<Timed>, more: seq<Timed>, a: string)
    ensures Stage(Run(h), a) <= Stage(Run(h + more), a)
    ensures Stage(Run(h), a) > 0 ==> Run(h + more).stakes[a].startTime == Run(h).stakes[a].startTime
                                     && Run(h + more).stakes[a].unlockTime == Run(h).stakes[a].unlockTime
    ensures Stage(Run(h), a) == 2 ==> Run(h + more).stakes[a] == Run(h).stakes[a]
    decreases |more|
  {
    if more == [] {
      assert h + more == h;
    } else {
      StagesOnlyAdvance(h, more[..|more| - 1], a);
      assert (h + more)[..|h + more| - 1] == h + more[..|more| - 1];
    }
  }

  /** The unlock time is fixed at creation. */
  lemma {:induction false} LockFixed(h: seq<Timed>, a: string)
    ensures a in Run(h).stakes ==> Run(h).stakes[a].unlockTime == Run(h).stakes[a].startTime + LOCK_PERIOD * NANOS
  {
    if h != [] {
      LockFixed(h[..|h| - 1], a);
    }
  }

  /** Principal is returned at most once, and not before the lock period after creation has passed. */
  lemma ReleasedOnceAndUnlocked(h: seq<Timed>, more: seq<Timed>, a: string)
    requires h != [] && h[|h| - 1].op == Unstake(a) && LastReply(h).Released?
    ensures h[|h| - 1].now >= CreatedAt(h, a) + 30 * 24 * 60 * 60 * 1000000000
    ensures PrincipalReturned(h + more, a) == PrincipalReturned(h, a) == Deposited(h + more, a)
  {
    LockFixed(h[..|h| - 1], a);
    StartIsCreation(h[..|h| - 1], a);
    StagesOnlyAdvance(h, more, a);
    PrincipalLaw(h, a);
    PrincipalLaw(h + more, a);
  }
}
