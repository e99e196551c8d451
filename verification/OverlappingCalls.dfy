/**
 When the two ledgers of a dual write agree although calls overlap inside the service, and
 inputs with which they part.
 */
module OverlappingCalls {
  import opened DeliveryOrders
  import opened DualWrite
  import opened Outcomes
  import opened WalletContract

  // ---------- any number of requests in flight ----------

  function Melts(rs: seq<Request>): real {
    if rs == [] then 0.0
    else Melts(rs[..|rs| - 1]) + if rs[|rs| - 1].kind.MeltKind? then rs[|rs| - 1].amount else 0.0
  }

  function Net(rs: seq<Request>): real {
    if rs == [] then 0.0 else Net(rs[..|rs| - 1]) + Signed(rs[|rs| - 1].kind, rs[|rs| - 1].amount)
  }

  ghost predicate AllPositive(rs: seq<Request>) { forall r :: r in rs ==> r.amount > 0.0 }

  /** A balance that covers all the melts refuses none of them. */
  lemma {:induction false} CoveredSettles(b: real, rs: seq<Request>)
    requires AllPositive(rs) && b >= Melts(rs)
    ensures Settle(b, rs) == b + Net(rs) >= b - Melts(rs)
  {
    if rs != [] {
      var front, last := rs[..|rs| - 1], rs[|rs| - 1];
      assert last in rs && forall r :: r in front ==> r in rs;
      CoveredSettles(b, front);
    }
  }

  lemma NetAppend(rs: seq<Request>, r: Request)
    ensures Net(rs + [r]) == Net(rs) + Signed(r.kind, r.amount)
    ensures Melts(rs + [r]) == Melts(rs) + if r.kind.MeltKind? then r.amount else 0.0
  {
    assert (rs + [r])[..|rs|] == rs;
  }

  lemma {:induction false} NetRemove(rs: seq<Request>, k: nat)
    requires k < |rs|
    ensures Net(rs) == Net(rs[..k] + rs[k + 1..]) + Signed(rs[k].kind, rs[k].amount)
    ensures Melts(rs) == Melts(rs[..k] + rs[k + 1..]) + if rs[k].kind.MeltKind? then rs[k].amount else 0.0
    decreases |rs|
  {
    var front := rs[..|rs| - 1];
    if k == |rs| - 1 {
      assert rs[..k] + rs[k + 1..] == front;
    } else {
      NetRemove(front, k);
      assert rs[..k] + rs[k + 1..] == front[..k] + front[k + 1..] + [rs[|rs| - 1]];
      NetAppend(front[..k] + front[k + 1..], rs[|rs| - 1]);
    }
  }

  lemma RemoveAt<T>(s: seq<T>, k: nat)
    requires k < |s|
    ensures multiset(s[..k] + s[k + 1..]) == multiset(s) - multiset{s[k]}
  {
    assert s == s[..k] + [s[k]] + s[k + 1..];
  }

  /** The last element of one sequence, taken out of a permutation of it. */
  lemma DropFromPermutation<T>(rs: seq<T>, ss: seq<T>) returns (k: nat)
    requires rs != [] && multiset(rs) == multiset(ss)
    ensures k < |ss| && ss[k] == rs[|rs| - 1]
    ensures multiset(rs[..|rs| - 1]) == multiset(ss[..k] + ss[k + 1..])
  {
    assert rs[|rs| - 1] in multiset(rs);
    k :| 0 <= k < |ss| && ss[k] == rs[|rs| - 1];
    RemoveAt(rs, |rs| - 1);
    RemoveAt(ss, k);
    assert rs[..|rs| - 1] + rs[|rs| - 1 + 1..] == rs[..|rs| - 1];
  }

  /** Sums over requests do not depend on their order. */
  lemma {:induction false} NetOfPermutation(rs: seq<Request>, ss: seq<Request>)
    requires multiset(rs) == multiset(ss)
    ensures Net(rs) == Net(ss) && Melts(rs) == Melts(ss)
    decreases |rs|
  {
    if rs == [] {
      assert |multiset(ss)| == 0;
    } else {
      var k := DropFromPermutation(rs, ss);
      NetRemove(ss, k);
      NetOfPermutation(rs[..|rs| - 1], ss[..k] + ss[k + 1..]);
    }
  }

  lemma {:induction false} SettleConcat(b: real, ps: seq<Request>, rs: seq<Request>)
    ensures Settle(b, ps + rs) == Settle(Settle(b, ps), rs)
    decreases |rs|
  {
    if rs == [] {
      assert ps + rs == ps;
    } else {
      var front := rs[..|rs| - 1];
      assert (ps + rs)[..|ps + rs| - 1] == ps + front;
      SettleConcat(b, ps, front);
    }
  }

  lemma {:induction false} NetBound(rs: seq<Request>)
    requires AllPositive(rs)
    ensures -Melts(rs) <= Net(rs)
  {
    if rs != [] {
      assert rs[|rs| - 1] in rs && forall r :: r in rs[..|rs| - 1] ==> r in rs;
      NetBound(rs[..|rs| - 1]);
    }
  }

  /** Nothing is seen that was not acceptable. */
  lemma {:induction false} ForWalletSubset(rs: seq<Request>, u: string)
    ensures forall r :: r in ForWallet(rs, u) ==> r in rs
  {
    if rs != [] {
      ForWalletSubset(rs[..|rs| - 1], u);
    }
  }

  lemma SeenArePositive(steps: seq<Step>, u: string)
    ensures AllPositive(ForWallet(Run(steps).fabricSeen, u)) && AllPositive(ForWallet(Run(steps).serviceSeen, u))
  {
    RunSound(steps);
    ForWalletSubset(Run(steps).fabricSeen, u);
    ForWalletSubset(Run(steps).serviceSeen, u);
  }

  // ---------- bursts of overlapping calls ----------

  predicate RefusedAt(w: World, step: Step, u: string) {
    && step.ToService? && ServiceWaits(w, step.id)
    && var r := w.entries[step.id].request;
       r.wallet == u && ServiceRefusal(r.kind, w.service, u, r.amount).Some?
  }

  /** The call on the wallet that a step ends at the service, if any. */
  function EndedAt(w: World, step: Step, u: string): seq<Request> {
    if WritesTo(w, step, u) || RefusedAt(w, step, u) then [w.entries[step.id].request] else []
  }

  lemma SeenChange(w: World, step: Step, u: string)
    ensures ForWallet(Next(w, step).serviceSeen, u) == ForWallet(w.serviceSeen, u) + EndedAt(w, step, u)
  {
    if step.ToService? && ServiceWaits(w, step.id) {
      ForWalletAppend(w.serviceSeen, w.entries[step.id].request, u);
    } else if step.WriteBack? && ServiceHasRead(w, step.id) {
      ForWalletAppend(w.serviceSeen, w.entries[step.id].request, u);
    }
  }

  /** From the n-th write on, every write to the wallet was on a current read. */
  ghost predicate CurrentSince(ws: seq<Write>, n: nat, u: string) {
    forall i :: n <= i < |ws| && ws[i].request.wallet == u ==> ws[i].readCurrent
  }

  lemma CurrentChange(w: World, step: Step, n: nat, u: string)
    requires n <= |w.writes|
    ensures n <= |Next(w, step).writes|
    ensures CurrentSince(Next(w, step).writes, n, u)
            <==> CurrentSince(w.writes, n, u)
                 && (WritesTo(w, step, u) ==> w.entries[step.id].onService.readAt == Version(w, u))
  {
    if step.WriteBack? && ServiceHasRead(w, step.id) {
      var ws := Next(w, step).writes;
      WriteEffects(w, step.id, u);
      assert forall i :: 0 <= i < |w.writes| ==> ws[i] == w.writes[i];
      assert CurrentSince(ws, n, u) ==> CurrentSince(w.writes, n, u) by {
        if CurrentSince(ws, n, u) {
          forall i | n <= i < |w.writes| && w.writes[i].request.wallet == u ensures w.writes[i].readCurrent {
            assert ws[i].readCurrent;
          }
        }
      }
    }
  }

  lemma NetEnded(s: seq<Request>, w: World, step: Step, u: string)
    ensures Net(s + EndedAt(w, step, u)) == Net(s) + if EndedAt(w, step, u) == [] then 0.0
            else Signed(w.entries[step.id].request.kind, w.entries[step.id].request.amount)
    ensures Melts(s + EndedAt(w, step, u)) == Melts(s) + if EndedAt(w, step, u) == [] then 0.0
            else if w.entries[step.id].request.kind.MeltKind? then w.entries[step.id].request.amount else 0.0
  {
    if EndedAt(w, step, u) != [] {
      NetAppend(s, w.entries[step.id].request);
    } else {
      assert s + EndedAt(w, step, u) == s;
    }
  }

  /** A burst of calls since a balance of b: s are those that have ended, and the balance has kept them all. */
  ghost predicate KeptAll(w: World, u: string, b: real, s: seq<Request>) {
    Held(w.service, u) == b + Net(s)
  }

  /** A balance that covers all the melts of a burst refuses none of them. */
  lemma CoveredNotRefused(w: World, step: Step, u: string, b: real, s: seq<Request>)
    requires Sound(w) && !IsBlank(u) && AllPositive(s) && b >= Melts(s + EndedAt(w, step, u))
    requires Held(w.service, u) >= b + Net(s)
    ensures !RefusedAt(w, step, u)
  {
    NetBound(s);
    NetEnded(s, w, step, u);
  }

  lemma CoveredStep(w: World, step: Step, u: string, b: real, s: seq<Request>)
    requires Sound(w) && !IsBlank(u) && AllPositive(s) && b >= Melts(s + EndedAt(w, step, u))
    requires KeptAll(w, u, b, s)
    requires WritesTo(w, step, u) ==> w.entries[step.id].onService.readAt == Version(w, u)
    ensures KeptAll(Next(w, step), u, b, s + EndedAt(w, step, u))
  {
    CoveredNotRefused(w, step, u, b, s);
    NetEnded(s, w, step, u);
    if step.WriteBack? && ServiceHasRead(w, step.id) {
      assert CallSound(w, w.entries[step.id].request, w.entries[step.id].onService);
      WriteEffects(w, step.id, u);
    }
  }

  /** On the same side of y as requests of this kind move a balance away from: mints up, melts down. */
  predicate Behind(kind: Kind, x: real, y: real) { if kind.MintKind? then x <= y else x >= y }

  /** What a call knows in a burst of one kind: a read overtaken by a write misses something for good. */
  predicate ReadBehind(w: World, id: nat, u: string, kind: Kind, all: real) {
    ServiceHasRead(w, id) && w.entries[id].request.wallet == u ==>
      var c := w.entries[id].onService;
      Behind(kind, c.balance, all) && (c.readAt != Version(w, u) ==> c.balance != all)
  }

  /** In a burst of one kind nothing cancels: the balance has kept all of it iff every read was current. */
  ghost predicate OneKindBurst(w: World, n: nat, u: string, kind: Kind, b: real, s: seq<Request>) {
    && n <= |w.writes|
    && Behind(kind, Held(w.service, u), b + Net(s))
    && (KeptAll(w, u, b, s) <==> CurrentSince(w.writes, n, u))
    && (forall id :: id in w.entries ==> ReadBehind(w, id, u, kind, b + Net(s)))
  }

  predicate OneKind(rs: seq<Request>, kind: Kind) { forall r :: r in rs ==> r.kind == kind }

  lemma WriteInBurst(w: World, id: nat, n: nat, u: string, kind: Kind, b: real, s: seq<Request>)
    requires Sound(w) && OneKindBurst(w, n, u, kind, b, s) && ServiceHasRead(w, id)
    requires w.entries[id].request.wallet == u && w.entries[id].request.kind == kind
    ensures var w', s' := WriteStep(w, id), s + [w.entries[id].request];
            && Behind(kind, Held(w'.service, u), b + Net(s'))
            && (KeptAll(w', u, b, s') <==> CurrentSince(w'.writes, n, u))
  {
    var r, c := w.entries[id].request, w.entries[id].onService;
    assert CallSound(w, r, c) && ReadBehind(w, id, u, kind, b + Net(s));
    NetAppend(s, r);
    WriteEffects(w, id, u);
    CurrentChange(w, WriteBack(id), n, u);
  }

  lemma WriteKeepsBehind(w: World, id: nat, k: nat, u: string, kind: Kind, b: real, s: seq<Request>)
    requires Sound(w) && ServiceHasRead(w, id) && k in w.entries
    requires ReadBehind(w, k, u, kind, b + Net(s))
    requires w.entries[id].request.wallet == u && w.entries[id].request.kind == kind
    ensures ReadBehind(WriteStep(w, id), k, u, kind, b + Net(s + [w.entries[id].request]))
  {
    NetAppend(s, w.entries[id].request);
    WriteEffects(w, id, u);
    assert CallSound(w, w.entries[k].request, w.entries[k].onService);
  }

  lemma OtherStepKeepsRead(w: World, step: Step, id: nat)
    requires ServiceHasRead(Next(w, step), id)
    ensures id in w.entries && Next(w, step).entries[id].request == w.entries[id].request
    ensures var u, c := w.entries[id].request.wallet, Next(w, step).entries[id].onService;
            c == w.entries[id].onService || (c.balance == Held(w.service, u) && c.readAt == Version(w, u))
  {}

  lemma ReadInBurst(w: World, step: Step, k: nat, n: nat, u: string, kind: Kind, b: real, s: seq<Request>)
    requires OneKindBurst(w, n, u, kind, b, s) && !WritesTo(w, step, u)
    ensures ReadBehind(Next(w, step), k, u, kind, b + Net(s))
  {
    VersionChange(w, step, u);
    if ServiceHasRead(Next(w, step), k) {
      OtherStepKeepsRead(w, step, k);
      assert ReadBehind(w, k, u, kind, b + Net(s));
    }
  }

  lemma QuietInBurst(w: World, step: Step, u: string)
    requires !WritesTo(w, step, u)
    ensures Held(Next(w, step).service, u) == Held(w.service, u)
  {}

  lemma OneKindEnded(s: seq<Request>, w: World, step: Step, u: string, kind: Kind)
    requires OneKind(s + EndedAt(w, step, u), kind)
    ensures OneKind(s, kind) && (EndedAt(w, step, u) != [] ==> w.entries[step.id].request.kind == kind)
  {
    var all := s + EndedAt(w, step, u);
    assert forall r :: r in s ==> r in all;
    if EndedAt(w, step, u) != [] {
      assert all[|s|] == w.entries[step.id].request;
    }
  }

  /** A burst of mints has no melt to refuse, and a covered burst of melts refuses none. */
  lemma BurstNotRefused(w: World, step: Step, n: nat, u: string, kind: Kind, b: real, s: seq<Request>)
    requires Sound(w) && !IsBlank(u) && AllPositive(s) && OneKindBurst(w, n, u, kind, b, s)
    requires var s' := s + EndedAt(w, step, u); OneKind(s', kind) && b >= Melts(s')
    ensures !RefusedAt(w, step, u)
  {
    OneKindEnded(s, w, step, u, kind);
    if kind.MeltKind? {
      CoveredNotRefused(w, step, u, b, s);
    }
  }

  lemma WriteStepInBurst(w: World, step: Step, n: nat, u: string, kind: Kind, b: real, s: seq<Request>)
    requires Sound(w) && OneKindBurst(w, n, u, kind, b, s) && WritesTo(w, step, u)
    requires w.entries[step.id].request.kind == kind
    ensures OneKindBurst(Next(w, step), n, u, kind, b, s + [w.entries[step.id].request])
  {
    WriteInBurst(w, step.id, n, u, kind, b, s);
    forall k | k in w.entries
      ensures ReadBehind(WriteStep(w, step.id), k, u, kind, b + Net(s + [w.entries[step.id].request]))
    {
      WriteKeepsBehind(w, step.id, k, u, kind, b, s);
    }
    WriteEffects(w, step.id, u);
  }

  lemma OtherStepInBurst(w: World, step: Step, n: nat, u: string, kind: Kind, b: real, s: seq<Request>)
    requires OneKindBurst(w, n, u, kind, b, s) && !WritesTo(w, step, u)
    ensures OneKindBurst(Next(w, step), n, u, kind, b, s)
  {
    CurrentChange(w, step, n, u);
    QuietInBurst(w, step, u);
    forall k | k in Next(w, step).entries ensures ReadBehind(Next(w, step), k, u, kind, b + Net(s)) {
      ReadInBurst(w, step, k, n, u, kind, b, s);
    }
  }

  lemma BurstStep(w: World, step: Step, n: nat, u: string, kind: Kind, b: real, s: seq<Request>)
    requires Sound(w) && !IsBlank(u) && AllPositive(s) && OneKindBurst(w, n, u, kind, b, s)
    requires var s' := s + EndedAt(w, step, u); OneKind(s', kind) && b >= Melts(s')
    ensures OneKindBurst(Next(w, step), n, u, kind, b, s + EndedAt(w, step, u))
  {
    if WritesTo(w, step, u) {
      OneKindEnded(s, w, step, u, kind);
      WriteStepInBurst(w, step, n, u, kind, b, s);
    } else {
      BurstNotRefused(w, step, n, u, kind, b, s);
      assert s + EndedAt(w, step, u) == s;
      OtherStepInBurst(w, step, n, u, kind, b, s);
    }
  }

  // ---------- bursts over whole runs ----------

  /** What a continuation adds, front to back. */
  lemma {:induction false} RunGrows(before: seq<Step>, steps: seq<Step>, u: string)
    ensures ForWallet(Run(before).serviceSeen, u) <= ForWallet(Run(before + steps).serviceSeen, u)
    ensures |Run(before).writes| <= |Run(before + steps).writes|
    decreases |steps|
  {
    if steps == [] {
      assert before + steps == before;
    } else {
      var front := steps[..|steps| - 1];
      assert before + steps == before + front + [steps[|steps| - 1]];
      RunGrows(before, front, u);
      RunAppend(before + front, steps[|steps| - 1]);
      SeenChange(Run(before + front), steps[|steps| - 1], u);
      CurrentChange(Run(before + front), steps[|steps| - 1], |Run(before).writes|, u);
    }
  }

  /** The calls on the wallet that a continuation ends at the service, in that order. */
  ghost function EndedSince(before: seq<Step>, steps: seq<Step>, u: string): (s: seq<Request>)
    ensures ForWallet(Run(before + steps).serviceSeen, u) == ForWallet(Run(before).serviceSeen, u) + s
  {
    RunGrows(before, steps, u);
    ForWallet(Run(before + steps).serviceSeen, u)[|ForWallet(Run(before).serviceSeen, u)|..]
  }

  lemma NothingEnded(before: seq<Step>, u: string)
    ensures before + [] == before && EndedSince(before, [], u) == []
  {
    assert before + [] == before;
  }

  /** The last step of a continuation, and what it adds to the calls that have ended. */
  lemma LastStep(before: seq<Step>, steps: seq<Step>, u: string)
    requires steps != []
    ensures var front, step := steps[..|steps| - 1], steps[|steps| - 1];
            && Run(before + steps) == Next(Run(before + front), step)
            && EndedSince(before, steps, u) == EndedSince(before, front, u) + EndedAt(Run(before + front), step, u)
  {
    var front, step := steps[..|steps| - 1], steps[|steps| - 1];
    assert before + steps == before + front + [step];
    RunAppend(before + front, step);
    SeenChange(Run(before + front), step, u);
  }

  lemma EndedArePositive(before: seq<Step>, steps: seq<Step>, u: string)
    ensures AllPositive(EndedSince(before, steps, u))
  {
    SeenArePositive(before + steps, u);
    var all, s := ForWallet(Run(before + steps).serviceSeen, u), EndedSince(before, steps, u);
    assert forall r :: r in s ==> r in all;
  }

  lemma EarlierWasCovered(s: seq<Request>, e: seq<Request>)
    requires |e| <= 1 && AllPositive(s + e)
    ensures Melts(s) <= Melts(s + e)
  {
    if e != [] {
      NetAppend(s, e[0]);
      assert (s + e)[|s|] == e[0] && s + e == s + [e[0]];
    } else {
      assert s + e == s;
    }
  }

  /** With current reads, a covered burst of any mix is kept whole, however its calls overlap. */
  lemma {:induction false} CurrentReadsKeepAll(before: seq<Step>, steps: seq<Step>, u: string)
    requires !IsBlank(u) && Held(Run(before).service, u) >= Melts(EndedSince(before, steps, u))
    requires CurrentSince(Run(before + steps).writes, |Run(before).writes|, u)
    ensures KeptAll(Run(before + steps), u, Held(Run(before).service, u), EndedSince(before, steps, u))
    decreases |steps|
  {
    NothingEnded(before, u);
    if steps == [] {
      assert before + steps == before;
    } else {
      var front, step := steps[..|steps| - 1], steps[|steps| - 1];
      var w := Run(before + front);
      LastStep(before, steps, u);
      RunGrows(before, front, u);
      EndedArePositive(before, steps, u);
      EndedArePositive(before, front, u);
      EarlierWasCovered(EndedSince(before, front, u), EndedAt(w, step, u));
      CurrentChange(w, step, |Run(before).writes|, u);
      CurrentReadsKeepAll(before, front, u);
      RunSound(before + front);
      CoveredStep(w, step, u, Held(Run(before).service, u), EndedSince(before, front, u));
    }
  }

  lemma IdleStartsBurst(w: World, u: string, kind: Kind)
    requires Idle(w, u)
    ensures OneKindBurst(w, |w.writes|, u, kind, Held(w.service, u), [])
  {
    forall id | id in w.entries ensures ReadBehind(w, id, u, kind, Held(w.service, u) + Net([])) {
      assert !Busy(w, id, u);
    }
  }

  lemma {:induction false} RunOneKindBurst(before: seq<Step>, steps: seq<Step>, u: string, kind: Kind)
    requires !IsBlank(u) && Idle(Run(before), u) && OneKind(EndedSince(before, steps, u), kind)
    requires Held(Run(before).service, u) >= Melts(EndedSince(before, steps, u))
    ensures OneKindBurst(Run(before + steps), |Run(before).writes|, u, kind, Held(Run(before).service, u),
                         EndedSince(before, steps, u))
    decreases |steps|
  {
    NothingEnded(before, u);
    if steps == [] {
      assert before + steps == before;
      IdleStartsBurst(Run(before), u, kind);
    } else {
      var front, step := steps[..|steps| - 1], steps[|steps| - 1];
      var w := Run(before + front);
      LastStep(before, steps, u);
      EndedArePositive(before, steps, u);
      EndedArePositive(before, front, u);
      EarlierWasCovered(EndedSince(before, front, u), EndedAt(w, step, u));
      OneKindEnded(EndedSince(before, front, u), w, step, u, kind);
      RunOneKindBurst(before, front, u, kind);
      RunSound(before + front);
      BurstStep(w, step, |Run(before).writes|, u, kind, Held(Run(before).service, u), EndedSince(before, front, u));
    }
  }

  /**
   A burst on one wallet: from agreement, with no call in progress, a continuation in which
   both sides process the same requests, f in the contract's order, the balance before it
   covering all melts among them.
   */
  ghost predicate CoveredBurst(before: seq<Step>, steps: seq<Step>, u: string, f: seq<Request>) {
    && !IsBlank(u) && Idle(Run(before), u) && Gap(Run(before), u) == 0.0
    && ForWallet(Run(before + steps).fabricSeen, u) == ForWallet(Run(before).fabricSeen, u) + f
    && multiset(f) == multiset(EndedSince(before, steps, u))
    && Balance(Run(before).fabric, u) >= Melts(f)
  }

  lemma FabricKeepsBurst(before: seq<Step>, steps: seq<Step>, u: string, f: seq<Request>)
    requires CoveredBurst(before, steps, u, f)
    ensures Balance(Run(before + steps).fabric, u)
            == Held(Run(before).service, u) + Net(EndedSince(before, steps, u))
    ensures Held(Run(before).service, u) >= Melts(EndedSince(before, steps, u))
  {
    RunFabricSettles(before, u);
    RunFabricSettles(before + steps, u);
    SeenArePositive(before + steps, u);
    assert forall r :: r in f ==> r in ForWallet(Run(before + steps).fabricSeen, u);
    SettleConcat(0.0, ForWallet(Run(before).fabricSeen, u), f);
    CoveredSettles(Balance(Run(before).fabric, u), f);
    NetOfPermutation(f, EndedSince(before, steps, u));
  }

  /** Any number of covered requests may overtake each other and overlap, as long as no read is overtaken by a write. */
  lemma CoveredBurstAgrees(before: seq<Step>, steps: seq<Step>, u: string, f: seq<Request>)
    requires CoveredBurst(before, steps, u, f)
    requires CurrentSince(Run(before + steps).writes, |Run(before).writes|, u)
    ensures Gap(Run(before + steps), u) == 0.0
  {
    FabricKeepsBurst(before, steps, u, f);
    CurrentReadsKeepAll(before, steps, u);
  }

  /** Among mints alone, or melts alone, that is exact: one overtaken read and the ledgers part. */
  lemma OneKindBurstAgreesIff(before: seq<Step>, steps: seq<Step>, u: string, f: seq<Request>, kind: Kind)
    requires CoveredBurst(before, steps, u, f) && OneKind(f, kind)
    ensures Gap(Run(before + steps), u) == 0.0
            <==> CurrentSince(Run(before + steps).writes, |Run(before).writes|, u)
  {
    FabricKeepsBurst(before, steps, u, f);
    var s := EndedSince(before, steps, u);
    forall r | r in s ensures r.kind == kind {
      assert r in multiset(s) && r in multiset(f);
    }
    RunOneKindBurst(before, steps, u, kind);
  }

  lemma {:induction false} MintsMeltNothing(rs: seq<Request>)
    requires OneKind(rs, MintKind)
    ensures Melts(rs) == 0.0
  {
    if rs != [] {
      assert rs[|rs| - 1] in rs && forall r :: r in rs[..|rs| - 1] ==> r in rs;
      MintsMeltNothing(rs[..|rs| - 1]);
    }
  }

  /** Every balance of the contract covers a burst of mints. */
  lemma MintsAreCovered(steps: seq<Step>, u: string, f: seq<Request>)
    requires OneKind(f, MintKind)
    ensures Balance(Run(steps).fabric, u) >= Melts(f)
  {
    RunSound(steps);
    LoadSound(Run(steps).fabric, u);
    MintsMeltNothing(f);
  }

  // ---------- two overlapping calls ----------

  /** Both calls make their first access before either goes on; then k finishes before l. */
  function Overlapped(w: World, k: nat, l: nat): World {
    var y := Next(Next(w, ToService(k)), ToService(l));
    Next(Next(Next(Next(y, Fetch(k)), WriteBack(k)), Fetch(l)), WriteBack(l))
  }

  lemma OverlappedMintsAtService(w: World, k: nat, l: nat, u: string)
    requires Sound(w) && k != l && ServiceWaits(w, k) && ServiceWaits(w, l) && !IsBlank(u)
    requires w.entries[k].request.wallet == u == w.entries[l].request.wallet
    requires w.entries[k].request.kind.MintKind? && w.entries[l].request.kind.MintKind?
    ensures Held(Overlapped(w, k, l).service, u) == Held(w.service, u) + w.entries[l].request.amount
    ensures Overlapped(w, k, l).fabric == w.fabric
  {
    var y := Next(Next(w, ToService(k)), ToService(l));
    assert y.entries[k].onService.HasRead? && y.entries[l].onService.HasRead?;
    var z := Next(Next(y, Fetch(k)), WriteBack(k));
    assert z == WriteStep(y, k) && z.entries[l] == y.entries[l];
    assert Next(z, Fetch(l)) == z;
  }

  predicate AppliedAtFabric(w: World, id: nat) { id in w.entries && w.entries[id].onFabric.Applied? }

  /** Both sides have applied the request. */
  predicate AppliedTwice(w: World, id: nat) { AppliedAtFabric(w, id) && w.entries[id].onService.Applied? }

  /** The contract's verdict on a request is final. */
  lemma FabricVerdictStays(w: World, step: Step, id: nat)
    requires AppliedAtFabric(w, id)
    ensures AppliedAtFabric(Next(w, step), id)
  {}

  lemma MintsAppliedAtFabric(w: World, i: nat, j: nat, u: string)
    requires Sound(w) && i != j && FabricWaits(w, i) && FabricWaits(w, j)
    requires w.entries[i].request.wallet == u == w.entries[j].request.wallet
    requires w.entries[i].request.kind.MintKind? && w.entries[j].request.kind.MintKind?
    ensures AppliedAtFabric(AtFabric(w, i, j), i) && AppliedAtFabric(AtFabric(w, i, j), j)
  {
    FabricSettles1(w, i, u);
    FabricSettles1(Next(w, ToFabric(i)), j, u);
  }

  lemma OverlappedKeepsVerdict(w: World, k: nat, l: nat, id: nat)
    requires AppliedAtFabric(w, id)
    ensures AppliedAtFabric(Overlapped(w, k, l), id)
  {
    var y := Next(Next(w, ToService(k)), ToService(l));
    FabricVerdictStays(w, ToService(k), id);
    FabricVerdictStays(Next(w, ToService(k)), ToService(l), id);
    FabricVerdictStays(y, Fetch(k), id);
    FabricVerdictStays(Next(y, Fetch(k)), WriteBack(k), id);
    var z := Next(Next(y, Fetch(k)), WriteBack(k));
    FabricVerdictStays(z, Fetch(l), id);
    FabricVerdictStays(Next(z, Fetch(l)), WriteBack(l), id);
  }

  lemma OverlappedMintsApplied(w: World, k: nat, l: nat, u: string)
    requires Sound(w) && k != l && ServiceWaits(w, k) && ServiceWaits(w, l) && !IsBlank(u)
    requires w.entries[k].request.wallet == u == w.entries[l].request.wallet
    requires w.entries[k].request.kind.MintKind? && w.entries[l].request.kind.MintKind?
    ensures k in Overlapped(w, k, l).entries && Overlapped(w, k, l).entries[k].onService.Applied?
    ensures l in Overlapped(w, k, l).entries && Overlapped(w, k, l).entries[l].onService.Applied?
  {
    var y := Next(Next(w, ToService(k)), ToService(l));
    assert y.entries[k].onService.HasRead? && y.entries[l].onService.HasRead?;
    var z := Next(Next(y, Fetch(k)), WriteBack(k));
    assert z == WriteStep(y, k) && z.entries[l] == y.entries[l];
    assert Next(z, Fetch(l)) == z;
  }

  /** Two mints in flight that each read before the other writes: the earlier write is lost. */
  lemma OverlappingMintsPart(w: World, i: nat, j: nat)
    requires Sound(w) && TwoInFlight(w, i, j)
    requires w.entries[i].request.kind.MintKind? && w.entries[j].request.kind.MintKind?
    ensures Gap(Overlapped(AtFabric(w, i, j), i, j), w.entries[i].request.wallet) == w.entries[i].request.amount
  {
    var u := w.entries[i].request.wallet;
    TwoToFabric(w, i, j, u);
    OverlappedMintsAtService(AtFabric(w, i, j), i, j, u);
  }

  lemma BothPassGuards(w: World, k: nat, l: nat, u: string)
    requires Sound(w) && k != l && ServiceWaits(w, k) && ServiceWaits(w, l) && !IsBlank(u)
    requires w.entries[k].request.wallet == u == w.entries[l].request.wallet
    requires w.entries[k].request.kind.MeltKind? && w.entries[l].request.kind.MeltKind?
    ensures var y := Next(Next(w, ToService(k)), ToService(l));
            && y.service == w.service && y.fabric == w.fabric && k in y.entries && l in y.entries
            && y.entries[k].request == w.entries[k].request && y.entries[l].request == w.entries[l].request
            && y.entries[k].onService
               == (if Held(w.service, u) < w.entries[k].request.amount then Refused else Guarded(Version(w, u)))
            && y.entries[l].onService
               == (if Held(w.service, u) < w.entries[l].request.amount then Refused else Guarded(Version(w, u)))
  {}

  lemma FinishMelt(w: World, k: nat, l: nat, u: string)
    requires k in w.entries && (w.entries[k].onService.Guarded? || w.entries[k].onService.Refused?)
    requires w.entries[k].request.wallet == u && w.entries[k].request.kind.MeltKind?
    ensures var z := Next(Next(w, Fetch(k)), WriteBack(k));
            && Held(z.service, u)
               == Held(w.service, u) - (if w.entries[k].onService.Guarded? then w.entries[k].request.amount else 0.0)
            && z.fabric == w.fabric
            && (l in w.entries && l != k ==> l in z.entries && z.entries[l] == w.entries[l])
  {}

  lemma OverlappedMeltsAtService(w: World, k: nat, l: nat, u: string)
    requires Sound(w) && k != l && ServiceWaits(w, k) && ServiceWaits(w, l) && !IsBlank(u)
    requires w.entries[k].request.wallet == u == w.entries[l].request.wallet
    requires w.entries[k].request.kind.MeltKind? && w.entries[l].request.kind.MeltKind?
    ensures var b, x, y := Held(w.service, u), w.entries[k].request.amount, w.entries[l].request.amount;
            Held(Overlapped(w, k, l).service, u) == b - (if x <= b then x else 0.0) - (if y <= b then y else 0.0)
    ensures Overlapped(w, k, l).fabric == w.fabric
  {
    var y := Next(Next(w, ToService(k)), ToService(l));
    BothPassGuards(w, k, l, u);
    FinishMelt(y, k, l, u);
    FinishMelt(Next(Next(y, Fetch(k)), WriteBack(k)), l, k, u);
  }

  /**
   Two melts in flight that both look at the balance before either takes from it: the sides
   part iff each is covered but not both, and then the service's balance goes below zero.
   */
  lemma OverlappingMeltsPartIff(w: World, i: nat, j: nat)
    requires Sound(w) && TwoInFlight(w, i, j)
    requires w.entries[i].request.kind.MeltKind? && w.entries[j].request.kind.MeltKind?
    ensures var u := w.entries[i].request.wallet;
            var b, x, y := Balance(w.fabric, u), w.entries[i].request.amount, w.entries[j].request.amount;
            var w' := Overlapped(AtFabric(w, i, j), i, j);
            && (Gap(w', u) != 0.0 <==> x <= b && y <= b && b < x + y)
            && (Gap(w', u) != 0.0 ==> Held(w'.service, u) == b - x - y < 0.0)
  {
    var u := w.entries[i].request.wallet;
    TwoToFabric(w, i, j, u);
    OverlappedMeltsAtService(AtFabric(w, i, j), i, j, u);
  }

  // ---------- inputs that part the ledgers ----------

  const MINT_5 := Request(MintKind, "w", 5.0, 0.0, "t5", "now")
  const MINT_7 := Request(MintKind, "w", 7.0, 0.0, "t7", "now")
  const MINT_10 := Request(MintKind, "w", 10.0, 0.0, "t10", "now")
  const MELT_8 := Request(MeltKind, "w", 8.0, 0.0, "t8", "now")
  const MELT_5 := Request(MeltKind, "w", 5.0, 0.0, "t5", "now")
  const BLANK_MINT := Request(MintKind, " ", 1.0, 0.0, "t1", "now")

  lemma RunOne(step: Step)
    ensures Run([step]) == Next(START, step)
  {
    RunAppend([], step);
    assert [] + [step] == [step];
  }

  lemma NotBlank()
    ensures !IsBlank("w")
  {
    assert "w"[0] in "w" && !IsWhiteSpace("w"[0]);
  }

  /** Two mints submitted on a new wallet. */
  const MINTS_START := [Submit(0, MINT_5), Submit(1, MINT_7)]

  lemma MintsStart()
    ensures var w := Run(MINTS_START);
            && Sound(w) && TwoInFlight(w, 0, 1) && Balance(w.fabric, "w") == 0.0
            && w.entries == map[0 := Entry(MINT_5, Waiting, Waiting), 1 := Entry(MINT_7, Waiting, Waiting)]
  {
    RunOne(Submit(0, MINT_5));
    RunAppend([Submit(0, MINT_5)], Submit(1, MINT_7));
    assert [Submit(0, MINT_5)] + [Submit(1, MINT_7)] == MINTS_START;
    RunSound(MINTS_START);
    NotBlank();
  }

  /** Mints of 5 and 7 to a new wallet, nothing lost, both applied on both sides: 12 and 7. */
  lemma TwoMintsRace()
    ensures var w := Run(MINTS_START);
            var w' := Overlapped(AtFabric(w, 0, 1), 0, 1);
            && Balance(w'.fabric, "w") == 12.0 && Held(w'.service, "w") == 7.0
            && AppliedTwice(w', 0) && AppliedTwice(w', 1)
  {
    var w := Run(MINTS_START);
    MintsStart();
    TwoToFabric(w, 0, 1, "w");
    MintsAppliedAtFabric(w, 0, 1, "w");
    OverlappedKeepsVerdict(AtFabric(w, 0, 1), 0, 1, 0);
    OverlappedKeepsVerdict(AtFabric(w, 0, 1), 0, 1, 1);
    OverlappedMintsApplied(AtFabric(w, 0, 1), 0, 1, "w");
    OverlappedMintsAtService(AtFabric(w, 0, 1), 0, 1, "w");
  }

  /** Ten minted on both sides, then two melts submitted. */
  const RACE_START := [Submit(0, MINT_10), ToFabric(0), ToService(0), WriteBack(0)] + [Submit(1, MELT_8)]
                      + [Submit(2, MELT_5)]

  /** A first mint, delivered to both sides of empty ledgers. */
  lemma FirstMint(r: Request)
    requires Acceptable(r) && r.kind.MintKind? && !IsBlank(r.wallet)
    ensures var w := Next(Next(Next(Next(START, Submit(0, r)), ToFabric(0)), ToService(0)), WriteBack(0));
            w.entries.Keys == {0} && Balance(w.fabric, r.wallet) == r.amount == Held(w.service, r.wallet)
  {
    var w1 := Next(START, Submit(0, r));
    StepSound(START, Submit(0, r));
    FabricSettles1(w1, 0, r.wallet);
    var w2 := Next(w1, ToFabric(0));
    ServedMint(w2, 0);
    ServedIsCall(w2, 0, r.wallet);
    assert Next(Next(w2, ToService(0)), Fetch(0)) == Next(w2, ToService(0));
  }

  lemma TenOnBothSides()
    ensures var w := Run([Submit(0, MINT_10), ToFabric(0), ToService(0), WriteBack(0)]);
            w.entries.Keys == {0} && Balance(w.fabric, "w") == 10.0 == Held(w.service, "w")
  {
    NotBlank();
    FirstMint(MINT_10);
    RunOne(Submit(0, MINT_10));
    RunAppend([Submit(0, MINT_10)], ToFabric(0));
    RunAppend([Submit(0, MINT_10), ToFabric(0)], ToService(0));
    RunAppend([Submit(0, MINT_10), ToFabric(0), ToService(0)], WriteBack(0));
    assert [Submit(0, MINT_10)] + [ToFabric(0)] == [Submit(0, MINT_10), ToFabric(0)];
    assert [Submit(0, MINT_10), ToFabric(0)] + [ToService(0)] == [Submit(0, MINT_10), ToFabric(0), ToService(0)];
    assert [Submit(0, MINT_10), ToFabric(0), ToService(0)] + [WriteBack(0)]
           == [Submit(0, MINT_10), ToFabric(0), ToService(0), WriteBack(0)];
  }

  lemma RaceStart()
    ensures var w := Run(RACE_START);
            && TwoInFlight(w, 1, 2) && Sound(w) && Balance(w.fabric, "w") == 10.0
            && w.entries[1].request == MELT_8 && w.entries[2].request == MELT_5
  {
    var ten := [Submit(0, MINT_10), ToFabric(0), ToService(0), WriteBack(0)];
    TenOnBothSides();
    RunAppend(ten, Submit(1, MELT_8));
    RunAppend(ten + [Submit(1, MELT_8)], Submit(2, MELT_5));
    NotBlank();
    RunSound(RACE_START);
  }

  /** Melts of 8 and 5 against a balance of 10, in opposite orders: the sides end at 2 and at 5. */
  lemma TwoMeltsRace()
    ensures var w' := Served(Served(AtFabric(Run(RACE_START), 1, 2), 2), 1);
            Balance(w'.fabric, "w") == 2.0 && Held(w'.service, "w") == 5.0
  {
    RaceStart();
    DeliverTwo(Run(RACE_START), 1, 2, 2, 1);
  }

  /** The same two, both past the service's guard before either takes: 2 and -3. */
  lemma TwoMeltsOverdraw()
    ensures var w' := Overlapped(AtFabric(Run(RACE_START), 1, 2), 1, 2);
            Balance(w'.fabric, "w") == 2.0 && Held(w'.service, "w") == -3.0
  {
    RaceStart();
    TwoToFabric(Run(RACE_START), 1, 2, "w");
    OverlappedMeltsAtService(AtFabric(Run(RACE_START), 1, 2), 1, 2, "w");
  }

  /** A mint to a name of one space, delivered to both sides of empty ledgers, reaches one. */
  lemma BlankMintParts()
    ensures var w := Next(Run([Submit(0, BLANK_MINT)]), ToFabric(0));
            Gap(Served(w, 0), " ") == 1.0
  {
    var w := Run([Submit(0, BLANK_MINT)]);
    RunOne(Submit(0, BLANK_MINT));
    RunSound([Submit(0, BLANK_MINT)]);
    assert IsBlank(" ");
    DeliveredGap(w, 0, " ");
  }
}
