/** Proof-of-stake: weighted validator selection and the validator registry. */
module ProofOfStake {
  import opened Outcomes
  import opened MapSums

  const MIN_STAKE: real := 1000.0
  const REWARD_PER_BLOCK: real := 2.0

  /** The value of a validator object. */
  datatype Entry = Entry(address: string, stake: real, active: bool)

  type Registry = map<string, Entry>

  datatype Error = InvalidAddress | InsufficientStake | AlreadyRegistered | NoValidators | NoActiveValidators
                 | NotFound | NilBlock | BadHash | NotActive

  // ---------- selection over values ----------

  /** A map iteration order: every key once. */
  ghost predicate Enumerates<V>(order: seq<string>, m: map<string, V>) {
    && (forall i, j :: 0 <= i < j < |order| ==> order[i] != order[j])
    && (forall a :: a in order <==> a in m)
  }

  /** The active entries met along a prefix of the iteration. */
  function ActiveAlong(m: Registry, order: seq<string>): seq<Entry>
    requires forall a :: a in order ==> a in m
  {
    if order == [] then []
    else
      var last := order[|order| - 1];
      ActiveAlong(m, order[..|order| - 1]) + if m[last].active then [m[last]] else []
  }

  /** Stake of the first n entries. */
  function Prefix(es: seq<Entry>, n: nat): real
    requires n <= |es|
  {
    if n == 0 then 0.0 else Prefix(es, n - 1) + es[n - 1].stake
  }

  function Total(es: seq<Entry>): real { Prefix(es, |es|) }

  /** The random value for a draw u in [0, 1). */
  function RandomValue(u: real, total: real): real { u * total }

  /** First index from i on whose cumulative stake reaches x; |es| when there is none. */
  function Reaching(es: seq<Entry>, x: real, i: nat): (r: nat)
    requires i <= |es|
    decreases |es| - i
    ensures i <= r <= |es|
    ensures r < |es| ==> Prefix(es, r + 1) >= x
    ensures forall k :: i < k <= r ==> Prefix(es, k) < x
  {
    if i == |es| then |es| else if Prefix(es, i + 1) >= x then i else Reaching(es, x, i + 1)
  }

  /** The selected index, with the fallback to the first active validator. */
  function Picked(es: seq<Entry>, x: real): nat
    requires es != []
  {
    var r := Reaching(es, x, 0);
    if r < |es| then r else 0
  }

  ghost predicate Staked(es: seq<Entry>) { forall i :: 0 <= i < |es| ==> es[i].stake > 0.0 }

  lemma {:induction false} PrefixMonotone(es: seq<Entry>, i: nat, j: nat)
    requires Staked(es) && i <= j <= |es|
    ensures Prefix(es, i) <= Prefix(es, j)
    ensures i < j ==> Prefix(es, i) < Prefix(es, j)
    decreases j - i
  {
    if i < j {
      PrefixMonotone(es, i, j - 1);
    }
  }

  lemma ScaledBelow(u: real, total: real, x: real)
    requires 0.0 <= u < 1.0 && total > 0.0 && x == u * total
    ensures x < total
  {}

  lemma ScaledSign(u: real, total: real, x: real)
    requires 0.0 <= u < 1.0 && total > 0.0 && x == u * total
    ensures 0.0 <= x && (x == 0.0 <==> u == 0.0)
  {}

  /** A draw scales into [0, total), and only zero scales to zero. */
  lemma ScaledRange(u: real, total: real)
    requires 0.0 <= u < 1.0 && total > 0.0
    ensures 0.0 <= RandomValue(u, total) < total
    ensures RandomValue(u, total) == 0.0 <==> u == 0.0
  {
    ScaledBelow(u, total, RandomValue(u, total));
    ScaledSign(u, total, RandomValue(u, total));
  }

  /** The loop always selects: the fallback is not reached for any draw in [0, total). */
  lemma NeverFallsBack(es: seq<Entry>, x: real)
    requires es != [] && Staked(es) && 0.0 <= x < Total(es)
    ensures Reaching(es, x, 0) < |es|
    ensures Picked(es, x) == Reaching(es, x, 0)
  {
    assert Total(es) == Prefix(es, |es|);
  }

  /** Entry i is chosen exactly on (prefix, prefix + stake], the first one also at zero. */
  lemma PickedExactly(es: seq<Entry>, x: real, i: nat)
    requires i < |es| && Staked(es) && 0.0 <= x < Total(es)
    ensures Picked(es, x) == i <==> (Prefix(es, i) < x || (i == 0 && x == 0.0)) && x <= Prefix(es, i) + es[i].stake
  {
    NeverFallsBack(es, x);
    var r := Reaching(es, x, 0);
    assert Prefix(es, i + 1) == Prefix(es, i) + es[i].stake;
    if r < i {
      PrefixMonotone(es, r + 1, i);
    } else if i < r {
      assert Prefix(es, i + 1) < x;
    } else if i > 0 {
      assert Prefix(es, i) < x;
    }
  }

  function ActiveStake(e: Entry): real { if e.active then e.stake else 0.0 }

  lemma PrefixOfAppend(es: seq<Entry>, e: Entry, n: nat)
    requires n <= |es|
    ensures Prefix(es + [e], n) == Prefix(es, n)
  {
    if n > 0 {
      PrefixOfAppend(es, e, n - 1);
    }
  }

  lemma TotalOfAppend(es: seq<Entry>, e: Entry)
    ensures Total(es + [e]) == Total(es) + e.stake
    ensures Total(es + []) == Total(es)
  {
    PrefixOfAppend(es, e, |es|);
    assert es + [] == es;
  }

  /** One more key of the iteration. */
  lemma AlongStep(m: Registry, order: seq<string>, i: nat)
    requires i < |order| && forall a :: a in order ==> a in m
    ensures order[i] in m
    ensures var es, es', e := ActiveAlong(m, order[..i]), ActiveAlong(m, order[..i + 1]), m[order[i]];
            if e.active then es' == es + [e] && Total(es') == Total(es) + e.stake else es' == es
  {
    assert order[i] in order && order[..i + 1][..i] == order[..i];
    TotalOfAppend(ActiveAlong(m, order[..i]), m[order[i]]);
  }

  lemma FrontEnumerates(m: Registry, order: seq<string>)
    requires Enumerates(order, m) && order != []
    ensures order[|order| - 1] in m
    ensures Enumerates(order[..|order| - 1], m - {order[|order| - 1]})
  {
    var last, front := order[|order| - 1], order[..|order| - 1];
    assert last in order;
    forall a ensures a in front <==> a in m - {last} {
      if a in front {
        var i :| 0 <= i < |front| && front[i] == a;
        assert order[i] == a && a in order;
      }
      if a in m - {last} {
        assert a in order;
      }
    }
  }

  lemma NothingEnumerated(m: Registry)
    requires Enumerates([], m)
    ensures m == map[]
  {
    forall a ensures a !in m {
      assert a !in [];
    }
  }

  lemma {:induction false} AlongSmaller(m: Registry, m': Registry, order: seq<string>)
    requires forall a :: a in order ==> a in m && a in m' && m[a] == m'[a]
    ensures ActiveAlong(m, order) == ActiveAlong(m', order)
  {
    if order != [] {
      AlongSmaller(m, m', order[..|order| - 1]);
    }
  }

  /** The total weight does not depend on the iteration order. */
  lemma {:induction false} TotalIsOrderFree(m: Registry, order: seq<string>)
    requires Enumerates(order, m)
    ensures Total(ActiveAlong(m, order)) == Sum(m, ActiveStake)
    decreases |order|
  {
    if order == [] {
      NothingEnumerated(m);
    } else {
      var last, front := order[|order| - 1], order[..|order| - 1];
      FrontEnumerates(m, order);
      TotalIsOrderFree(m - {last}, front);
      AlongSmaller(m, m - {last}, front);
      SumSplit(m, ActiveStake, last);
      TotalOfAppend(ActiveAlong(m, front), m[last]);
    }
  }

  /** Every entry met along the way is a registered, active one. */
  lemma {:induction false} AlongSound(m: Registry, order: seq<string>, i: nat)
    requires forall a :: a in order ==> a in m
    requires i < |ActiveAlong(m, order)|
    ensures ActiveAlong(m, order)[i].active
    ensures exists a :: a in order && m[a] == ActiveAlong(m, order)[i]
  {
    var last, front := order[|order| - 1], order[..|order| - 1];
    if i < |ActiveAlong(m, front)| {
      AlongSound(m, front, i);
      var a :| a in front && m[a] == ActiveAlong(m, front)[i];
      assert a in order;
    }
  }

  ghost predicate WellKept(m: Registry) {
    forall a :: a in m ==> m[a].address == a && m[a].stake >= MIN_STAKE
  }

  /** The entry selected for a draw u, along an iteration order. */
  function SelectedEntry(m: Registry, order: seq<string>, u: real): Entry
    requires forall a :: a in order ==> a in m
    requires ActiveAlong(m, order) != []
  {
    var es := ActiveAlong(m, order);
    es[Picked(es, RandomValue(u, Total(es)))]
  }

  lemma AlongRegistered(m: Registry, order: seq<string>, i: nat)
    requires WellKept(m) && Enumerates(order, m)
    requires i < |ActiveAlong(m, order)|
    ensures var e := ActiveAlong(m, order)[i];
            e.active && e.stake >= MIN_STAKE && e.address in m && m[e.address] == e
  {
    AlongSound(m, order, i);
    var a :| a in order && m[a] == ActiveAlong(m, order)[i];
  }

  lemma AlongStaked(m: Registry, order: seq<string>)
    requires WellKept(m) && Enumerates(order, m)
    ensures Staked(ActiveAlong(m, order))
  {
    var es := ActiveAlong(m, order);
    forall i | 0 <= i < |es| ensures es[i].stake > 0.0 {
      AlongRegistered(m, order, i);
    }
  }

  lemma DrawReaches(es: seq<Entry>, u: real)
    requires es != [] && Staked(es) && 0.0 <= u < 1.0
    ensures Total(es) > 0.0 && 0.0 <= RandomValue(u, Total(es)) < Total(es)
    ensures RandomValue(u, Total(es)) == 0.0 <==> u == 0.0
    ensures Reaching(es, RandomValue(u, Total(es)), 0) < |es|
  {
    PrefixMonotone(es, 0, |es|);
    ScaledRange(u, Total(es));
    NeverFallsBack(es, RandomValue(u, Total(es)));
  }

  /** Different positions along the way hold different validators. */
  lemma {:induction false} AlongDistinct(m: Registry, order: seq<string>, i: nat, j: nat)
    requires WellKept(m) && Enumerates(order, m) && i < j < |ActiveAlong(m, order)|
    ensures ActiveAlong(m, order)[i].address != ActiveAlong(m, order)[j].address
    decreases |order|
  {
    var last, front := order[|order| - 1], order[..|order| - 1];
    FrontEnumerates(m, order);
    AlongSmaller(m, m - {last}, front);
    if j < |ActiveAlong(m, front)| {
      AlongDistinct(m - {last}, front, i, j);
    } else {
      AlongRegistered(m - {last}, front, i);
    }
  }

  /** For every iteration order and draw, the selected validator is registered under its address and active. */
  lemma SelectionSound(m: Registry, order: seq<string>, u: real)
    requires WellKept(m) && Enumerates(order, m) && 0.0 <= u < 1.0 && ActiveAlong(m, order) != []
    ensures var e := SelectedEntry(m, order, u);
            e.address in m && m[e.address] == e && e.active
  {
    var es := ActiveAlong(m, order);
    AlongStaked(m, order);
    DrawReaches(es, u);
    AlongRegistered(m, order, Picked(es, RandomValue(u, Total(es))));
  }

  /** The selected validator is the i-th exactly when the loop picks position i. */
  lemma SelectedIsPicked(m: Registry, order: seq<string>, i: nat, u: real)
    requires WellKept(m) && Enumerates(order, m) && 0.0 <= u < 1.0
    requires i < |ActiveAlong(m, order)|
    ensures var es := ActiveAlong(m, order);
            SelectedEntry(m, order, u).address == es[i].address <==> Picked(es, RandomValue(u, Total(es))) == i
  {
    var k := Picked(ActiveAlong(m, order), RandomValue(u, Total(ActiveAlong(m, order))));
    if k < i {
      AlongDistinct(m, order, k, i);
    } else if i < k {
      AlongDistinct(m, order, i, k);
    }
  }

  lemma SelectedInterval(m: Registry, order: seq<string>, i: nat, u: real, x: real)
    requires WellKept(m) && Enumerates(order, m) && 0.0 <= u < 1.0
    requires i < |ActiveAlong(m, order)| && x == RandomValue(u, Sum(m, ActiveStake))
    ensures var es := ActiveAlong(m, order);
            && Sum(m, ActiveStake) > 0.0
            && (SelectedEntry(m, order, u).address == es[i].address <==>
                (Prefix(es, i) < x || (i == 0 && u == 0.0)) && x <= Prefix(es, i) + es[i].stake)
  {
    var es := ActiveAlong(m, order);
    AlongStaked(m, order);
    TotalIsOrderFree(m, order);
    DrawReaches(es, u);
    SelectedIsPicked(m, order, i, u);
    PickedExactly(es, x, i);
  }

  /**
   Proportionality: whatever the iteration order, the draws u in [0, 1) that select the i-th
   active validator are those for which x, u times the sum of all active stakes, lies above the
   stakes before it and at most its own stake higher; zero goes to the first. So the draws are
   shared out in intervals whose lengths are the stakes divided by that sum.
   */
  lemma SelectionProportional(m: Registry, order: seq<string>, i: nat, u: real, x: real)
    requires WellKept(m) && Enumerates(order, m) && 0.0 <= u < 1.0
    requires i < |ActiveAlong(m, order)| && x == u * Sum(m, ActiveStake)
    ensures var es := ActiveAlong(m, order);
            && Sum(m, ActiveStake) > 0.0
            && (SelectedEntry(m, order, u).address == es[i].address <==>
                (Prefix(es, i) < x || (i == 0 && u == 0.0)) && x <= Prefix(es, i) + es[i].stake)
  {
    var S := Sum(m, ActiveStake);
    assert x == RandomValue(u, S);
    SelectedInterval(m, order, i, u, x);
  }

  /** x lies in the share of the i-th entry: above the stakes before it, and at most its own stake higher. */
  predicate InShare(es: seq<Entry>, i: nat, x: real)
    requires i < |es|
  {
    (Prefix(es, i) < x || (i == 0 && x == 0.0)) && x <= Prefix(es, i) + es[i].stake
  }

  /** a is the address of the one active validator in whose share x lies. */
  ghost predicate NamesShare(m: Registry, order: seq<string>, x: real, a: string)
    requires forall k :: k in order ==> k in m
  {
    var es := ActiveAlong(m, order);
    && (exists i :: 0 <= i < |es| && es[i].address == a)
    && forall i :: 0 <= i < |es| ==> (es[i].address == a <==> InShare(es, i, x))
  }

  lemma SelectedAddress(m: Registry, order: seq<string>, u: real, x: real)
    requires WellKept(m) && Enumerates(order, m) && 0.0 <= u < 1.0 && ActiveAlong(m, order) != []
    requires x == RandomValue(u, Sum(m, ActiveStake))
    ensures NamesShare(m, order, x, SelectedEntry(m, order, u).address)
  {
    var es, a := ActiveAlong(m, order), SelectedEntry(m, order, u).address;
    AlongStaked(m, order);
    TotalIsOrderFree(m, order);
    DrawReaches(es, u);
    assert es[Picked(es, x)].address == a;
    forall i | 0 <= i < |es| ensures es[i].address == a <==> InShare(es, i, x) {
      SelectedInterval(m, order, i, u, x);
    }
  }

  // ---------- registry changes over values ----------

  function Registered(m: Registry, address: string, stake: real): Result<Registry, Error> {
    if address == "" then Err(InvalidAddress)
    else if stake < MIN_STAKE then Err(InsufficientStake)
    else if address in m then Err(AlreadyRegistered)
    else Ok(m[address := Entry(address, stake, true)])
  }

  function Rewarded(m: Registry, address: string): Registry {
    if address in m then m[address := m[address].(stake := m[address].stake + REWARD_PER_BLOCK)] else m
  }

  // ---------- the consensus object ----------

  class Validator {
    const address: string
    var stakedAmount: real
    var isActive: bool
    const joinedAt: int

    constructor (address: string, stakedAmount: real, joinedAt: int)
      ensures this.address == address && this.stakedAmount == stakedAmount && isActive
    {
      this.address, this.stakedAmount, this.isActive, this.joinedAt := address, stakedAmount, true, joinedAt;
    }

    function Value(): Entry
      reads this
    {
      Entry(address, stakedAmount, isActive)
    }
  }

  datatype Block = Block(index: int, timestamp: int, transactions: seq<string>, prevHash: string,
                         hash: string, validator: string, nonce: int)

  /** SHA-256 over the printed fields, not modelled further. */
  type Hash = (int, int, seq<string>, string, string, int) -> string

  function HashOf(hash: Hash, b: Block): string {
    hash(b.index, b.timestamp, b.transactions, b.prevHash, b.validator, b.nonce)
  }

  class Consensus {
    var validators: map<string, Validator>
    var currentBlockIndex: int

    ghost function Objects(): set<object>
      reads this
    {
      set a | a in validators :: validators[a] as object
    }

    ghost function View(): Registry
      reads this, Objects()
    {
      map a | a in validators :: validators[a].Value()
    }

    ghost predicate Valid()
      reads this, Objects()
    {
      && WellKept(View())
      && forall a :: a in validators ==> validators[a].address == a
    }

    constructor ()
      ensures Valid() && View() == map[] && currentBlockIndex == 0
    {
      validators, currentBlockIndex := map[], 0;
    }

    method RegisterValidator(address: string, stakedAmount: real, now: int) returns (r: Result<(), Error>)
      requires Valid()
      modifies this
      ensures Valid() && currentBlockIndex == old(currentBlockIndex)
      ensures r.Ok? <==> address != "" && stakedAmount >= 1000.0 && address !in old(View())
      ensures r.Ok? ==> View() == old(View())[address := Entry(address, stakedAmount, true)]
                        && fresh(Objects() - old(Objects()))
      ensures r.Err? ==>
                && View() == old(View())
                && r.error == if address == "" then InvalidAddress
                              else if stakedAmount < 1000.0 then InsufficientStake else AlreadyRegistered
      ensures Registered(old(View()), address, stakedAmount) == if r.Ok? then Ok(View()) else Err(r.error)
    {
      if address == "" {
        return Err(InvalidAddress);
      }
      if stakedAmount < MIN_STAKE {
        return Err(InsufficientStake);
      }
      if address in validators {
        return Err(AlreadyRegistered);
      }
      var validator := new Validator(address, stakedAmount, now);
      validators := validators[address := validator];
      assert View() == old(View())[address := validator.Value()];
      return Ok(());
    }

    /** The collected objects are registered and have the collected values. */
    ghost predicate Matches(active: seq<Validator>, es: seq<Entry>)
      reads this, Objects()
    {
      && |active| == |es|
      && forall i :: 0 <= i < |active| ==>
           && active[i].address in validators && validators[active[i].address] == active[i]
           && active[i].Value() == es[i]
    }

    /** First loop: collect the active validators and their total stake. order is the map iteration order. */
    method CollectActive(order: seq<string>) returns (active: seq<Validator>, totalStake: real)
      requires Valid() && Enumerates(order, validators)
      ensures Matches(active, ActiveAlong(old(View()), order))
      ensures totalStake == Total(ActiveAlong(old(View()), order))
    {
      ghost var m := View();
      active, totalStake := [], 0.0;
      for i := 0 to |order|
        invariant View() == m && Matches(active, ActiveAlong(m, order[..i]))
        invariant totalStake == Total(ActiveAlong(m, order[..i]))
      {
        AlongStep(m, order, i);
        var v := validators[order[i]];
        assert v.Value() == m[order[i]];
        if v.isActive {
          totalStake := totalStake + v.stakedAmount;
          active := active + [v];
        }
      }
      assert order[..|order|] == order;
    }

    /** Second loop: accumulate stakes until the random value is reached. */
    method PickActive(active: seq<Validator>, randomValue: real, ghost es: seq<Entry>) returns (v: Validator)
      requires active != [] && Matches(active, es)
      ensures v == active[Picked(es, randomValue)]
    {
      var cumulative := 0.0;
      for i := 0 to |active|
        invariant cumulative == Prefix(es, i)
        invariant Reaching(es, randomValue, 0) == Reaching(es, randomValue, i)
      {
        cumulative := cumulative + active[i].stakedAmount;
        assert active[i].Value() == es[i];
        if cumulative >= randomValue {
          return active[i];
        }
      }
      return active[0];
    }

    /** u is the random draw from [0, 1). */
    method SelectValidator(order: seq<string>, u: real) returns (r: Result<Validator, Error>)
      requires Valid() && Enumerates(order, validators) && 0.0 <= u < 1.0
      ensures old(View()) == map[] ==> r == Err(NoValidators)
      ensures old(View()) != map[] && ActiveAlong(old(View()), order) == [] ==> r == Err(NoActiveValidators)
      ensures ActiveAlong(old(View()), order) != [] ==>
                && r.Ok? && r.value.Value() == SelectedEntry(old(View()), order, u)
                && r.value.address in validators && validators[r.value.address] == r.value && r.value.isActive
      ensures ActiveAlong(old(View()), order) != [] ==>
                NamesShare(old(View()), order, u * Sum(old(View()), ActiveStake), r.value.address)
    {
      if |validators| == 0 {
        assert View() == map[];
        return Err(NoValidators);
      }
      ghost var m := View();
      var active, totalStake := CollectActive(order);
      if |active| == 0 {
        return Err(NoActiveValidators);
      }
      ghost var es := ActiveAlong(m, order);
      var randomValue := u * totalStake;
      assert randomValue == RandomValue(u, totalStake);
      var v := PickActive(active, randomValue, es);
      assert v.Value() == es[Picked(es, randomValue)];
      SelectedAddress(m, order, u, RandomValue(u, Sum(m, ActiveStake)));
      SelectionSound(m, order, u);
      return Ok(v);
    }

    method TakeIndex() returns (index: int)
      requires Valid()
      modifies this`currentBlockIndex
      ensures index == currentBlockIndex == old(currentBlockIndex) + 1
      ensures Valid() && View() == old(View())
    {
      currentBlockIndex := currentBlockIndex + 1;
      index := currentBlockIndex;
    }

    method RewardValidator(address: string)
      requires Valid()
      modifies Objects()
      ensures Valid() && View() == Rewarded(old(View()), address)
      ensures View() == if address in old(View())
                        then var e := old(View())[address]; old(View())[address := e.(stake := e.stake + 2.0)]
                        else old(View())
    {
      if address in validators {
        var validator := validators[address];
        validator.stakedAmount := validator.stakedAmount + REWARD_PER_BLOCK;
        assert forall a :: a in validators && a != address ==> validators[a] != validator;
      }
    }

    method UnstakeValidator(address: string) returns (r: Result<real, Error>)
      requires Valid()
      modifies this
      ensures Valid() && currentBlockIndex == old(currentBlockIndex)
      ensures address in old(View()) ==> r == Ok(old(View())[address].stake) && View() == old(View()) - {address}
      ensures address !in old(View()) ==> r == Err(NotFound) && View() == old(View())
    {
      if address !in validators {
        return Err(NotFound);
      }
      var stakedAmount := validators[address].stakedAmount;
      validators := validators - {address};
      assert View() == old(View()) - {address};
      return Ok(stakedAmount);
    }

    /** The three lock sections with nobody in between; other interleavings are in BlockProduction. */
    method CreateBlock(order: seq<string>, u: real, transactions: seq<string>, prevHash: string, now: int, hash: Hash)
      returns (r: Result<Block, Error>)
      requires Valid() && Enumerates(order, validators) && 0.0 <= u < 1.0
      modifies this`currentBlockIndex, Objects()
      ensures Valid()
      ensures if ActiveAlong(old(View()), order) == [] then
                r.Err? && View() == old(View()) && currentBlockIndex == old(currentBlockIndex)
              else
                && r.Ok? && r.value.validator == SelectedEntry(old(View()), order, u).address
                && NamesShare(old(View()), order, u * Sum(old(View()), ActiveStake), r.value.validator)
                && r.value.index == currentBlockIndex == old(currentBlockIndex) + 1
                && r.value.hash == hash(r.value.index, now, transactions, prevHash, r.value.validator, 0)
                && r.value.prevHash == prevHash && r.value.transactions == transactions
                && r.value.timestamp == now && r.value.nonce == 0
                && View() == Rewarded(old(View()), r.value.validator)
    {
      ghost var m := View();
      var validator := SelectValidator(order, u);
      assert View() == m && Objects() == old(Objects());
      if validator.Err? {
        return Err(validator.error);
      }
      var address := validator.value.address;
      assert ActiveAlong(m, order) != [];
      assert address == SelectedEntry(m, order, u).address;
      var blockIndex := TakeIndex();
      var block := Block(blockIndex, now, transactions, prevHash, "", address, 0);
      block := block.(hash := HashOf(hash, block));
      RewardValidator(address);
      return Ok(block);
    }

    method ValidateBlock(block: Option<Block>, hash: Hash) returns (r: Result<(), Error>)
      requires Valid()
      ensures r == if block.None? then Err(NilBlock)
                   else
                     var b := block.value;
                     if b.hash != hash(b.index, b.timestamp, b.transactions, b.prevHash, b.validator, b.nonce) then
                       Err(BadHash)
                     else if b.validator !in View() then Err(NotFound)
                     else if !View()[b.validator].active then Err(NotActive)
                     else Ok(())
    {
      if block.None? {
        return Err(NilBlock);
      }
      var expectedHash := HashOf(hash, block.value);
      if block.value.hash != expectedHash {
        return Err(BadHash);
      }
      if block.value.validator !in validators {
        return Err(NotFound);
      }
      if !validators[block.value.validator].isActive {
        return Err(NotActive);
      }
      return Ok(());
    }
  }
}
