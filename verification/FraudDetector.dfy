/**
 The fraud detector: large transactions are logged against the sender, three logged
 activities block it, and any address can be blocked or unblocked by hand.
 */
module FraudDetector {
  const ALERT_THRESHOLD: nat := 3
  const LARGE_AMOUNT: real := 10000.0
  const FREQUENT: nat := 5

  datatype Verdict = Clear | Blocked | Large | HighFrequency

  datatype Op = Check(from: string, to: string, amount: real) | Block(address: string) | Unblock(address: string)

  /** Number of logged activities per address, and the blocked addresses. */
  datatype State = State(counts: map<string, nat>, blocked: set<string>)

  function Count(s: State, a: string): nat { if a in s.counts then s.counts[a] else 0 }

  function Judge(s: State, from: string, to: string, amount: real): Verdict {
    if from in s.blocked || to in s.blocked then Blocked
    else if amount > LARGE_AMOUNT then Large
    else if Count(s, from) > FREQUENT then HighFrequency
    else Clear
  }

  function Log(s: State, a: string): State {
    var n := Count(s, a) + 1;
    State(s.counts[a := n], if n >= ALERT_THRESHOLD then s.blocked + {a} else s.blocked)
  }

  function Next(s: State, op: Op): State {
    match op
    case Check(from, to, amount) => if Judge(s, from, to, amount).Large? then Log(s, from) else s
    case Block(a) => s.(blocked := s.blocked + {a})
    case Unblock(a) => s.(blocked := s.blocked - {a})
  }

  class Detector {
    var suspiciousActivities: map<string, seq<string>>
    var blockedAddresses: set<string>

    ghost function View(): State
      reads this
    {
      State(map a | a in suspiciousActivities :: |suspiciousActivities[a]|, blockedAddresses)
    }

    constructor ()
      ensures View() == State(map[], {})
    {
      suspiciousActivities, blockedAddresses := map[], {};
    }

    method CheckTransaction(from: string, to: string, amount: real, now: string)
      returns (suspicious: bool, verdict: Verdict)
      modifies this
      ensures verdict == Judge(old(View()), from, to, amount) && suspicious == !verdict.Clear?
      ensures View() == Next(old(View()), Check(from, to, amount))
      ensures verdict == if from in old(blockedAddresses) || to in old(blockedAddresses) then Blocked
                         else if amount > 10000.0 then Large
                         else if from in old(suspiciousActivities) && |old(suspiciousActivities)[from]| > 5
                         then HighFrequency else Clear
      ensures !verdict.Large? ==>
                suspiciousActivities == old(suspiciousActivities) && blockedAddresses == old(blockedAddresses)
      ensures verdict.Large? ==>
                && from in suspiciousActivities
                && suspiciousActivities == old(suspiciousActivities)[from := suspiciousActivities[from]]
                && suspiciousActivities[from]
                   == (if from in old(suspiciousActivities) then old(suspiciousActivities)[from] else [])
                      + [now + " - " + "Large transaction amount"]
                && blockedAddresses
                   == old(blockedAddresses) + if |suspiciousActivities[from]| >= 3 then {from} else {}
    {
      if from in blockedAddresses || to in blockedAddresses {
        return true, Blocked;
      }
      if amount > LARGE_AMOUNT {
        LogSuspiciousActivity(from, "Large transaction amount", now);
        return true, Large;
      }
      var activities := if from in suspiciousActivities then suspiciousActivities[from] else [];
      if |activities| > FREQUENT {
        return true, HighFrequency;
      }
      return false, Clear;
    }

    method LogSuspiciousActivity(address: string, activity: string, now: string)
      modifies this
      ensures View() == Log(old(View()), address)
      ensures address in suspiciousActivities
      ensures suspiciousActivities == old(suspiciousActivities)[address := suspiciousActivities[address]]
      ensures suspiciousActivities[address]
              == (if address in old(suspiciousActivities) then old(suspiciousActivities)[address] else [])
                 + [now + " - " + activity]
      ensures blockedAddresses
              == old(blockedAddresses) + if |suspiciousActivities[address]| >= 3 then {address} else {}
    {
      var entry := now + " - " + activity;
      var entries := (if address in suspiciousActivities then suspiciousActivities[address] else []) + [entry];
      suspiciousActivities := suspiciousActivities[address := entries];
      if |suspiciousActivities[address]| >= ALERT_THRESHOLD {
        blockedAddresses := blockedAddresses + {address};
      }
      assert View().counts == Log(old(View()), address).counts;
    }

    method BlockAddress(address: string)
      modifies this
      ensures View() == Next(old(View()), Block(address)) && blockedAddresses == old(blockedAddresses) + {address}
    {
      blockedAddresses := blockedAddresses + {address};
    }

    method UnblockAddress(address: string)
      modifies this
      ensures View() == Next(old(View()), Unblock(address)) && blockedAddresses == old(blockedAddresses) - {address}
    {
      blockedAddresses := blockedAddresses - {address};
    }
  }

  // ---------- whole runs ----------

  function Run(ops: seq<Op>): State {
    if ops == [] then State(map[], {}) else Next(Run(ops[..|ops| - 1]), ops[|ops| - 1])
  }

  /** The large transactions a history let an address send: more than 10000, neither party blocked at the time. */
  function LargeSent(ops: seq<Op>, a: string): nat
    decreases |ops|, 0
  {
    if ops == [] then 0
    else
      var before, op := ops[..|ops| - 1], ops[|ops| - 1];
      LargeSent(before, a) +
      if op.Check? && op.from == a && op.amount > 10000.0 && !Barred(before, a) && !Barred(before, op.to) then 1 else 0
  }

  /** Blocked since it was unblocked last: by hand, or by its third or a later large transaction. */
  predicate Barred(ops: seq<Op>, a: string)
    decreases |ops|, 1
  {
    if ops == [] then false
    else
      var before, op := ops[..|ops| - 1], ops[|ops| - 1];
      match op
      case Block(b) => b == a || Barred(before, a)
      case Unblock(b) => b != a && Barred(before, a)
      case Check(_, _, _) => Barred(before, a) || (LargeSent(ops, a) > LargeSent(before, a) && LargeSent(ops, a) >= 3)
  }

  lemma {:induction false} StateIsHistory(ops: seq<Op>, a: string)
    ensures Count(Run(ops), a) == LargeSent(ops, a)
    ensures a in Run(ops).blocked <==> Barred(ops, a)
  {
    if ops != [] {
      var before, op := ops[..|ops| - 1], ops[|ops| - 1];
      StateIsHistory(before, a);
      if op.Check? {
        StateIsHistory(before, op.from);
        StateIsHistory(before, op.to);
      }
    }
  }

  /** Every verdict, read off the history of checks, blockings and unblockings before it. */
  lemma VerdictIsHistory(ops: seq<Op>, from: string, to: string, amount: real)
    ensures Judge(Run(ops), from, to, amount)
            == if Barred(ops, from) || Barred(ops, to) then Blocked
               else if amount > 10000.0 then Large
               else if LargeSent(ops, from) > 5 then HighFrequency else Clear
  {
    StateIsHistory(ops, from);
    StateIsHistory(ops, to);
  }

  /** Times an address was unblocked while blocked. */
  function Unblocks(ops: seq<Op>, a: string): nat {
    if ops == [] then 0
    else
      var before := ops[..|ops| - 1];
      Unblocks(before, a) + if ops[|ops| - 1] == Unblock(a) && Barred(before, a) then 1 else 0
  }

  /** Every large transaction beyond the threshold was let in by an unblocking. */
  lemma {:induction false} CountBound(ops: seq<Op>, a: string)
    ensures LargeSent(ops, a) <= Unblocks(ops, a) + if Barred(ops, a) then 3 else 2
  {
    if ops != [] {
      CountBound(ops[..|ops| - 1], a);
    }
  }

  /** "High frequency" is reachable only after at least four unblockings of the sender. */
  lemma HighFrequencyNeedsUnblocks(ops: seq<Op>, from: string, to: string, amount: real)
    requires Judge(Run(ops), from, to, amount) == HighFrequency
    ensures Unblocks(ops, from) >= 4
  {
    VerdictIsHistory(ops, from, to, amount);
    CountBound(ops, from);
  }

  /** k large transactions, each followed by an unblocking. */
  function Hammer(k: nat): seq<Op> {
    if k == 0 then [] else Hammer(k - 1) + [Check("a", "b", 20000.0), Unblock("a")]
  }

  /** The bounds are attained: n large transactions need only n - 2 unblockings. */
  lemma {:induction false} HammerCounts(k: nat)
    ensures !Barred(Hammer(k), "a") && !Barred(Hammer(k), "b")
    ensures LargeSent(Hammer(k), "a") == k && LargeSent(Hammer(k), "b") == 0
    ensures Unblocks(Hammer(k), "a") == if k < 3 then 0 else k - 2
  {
    if k > 0 {
      HammerCounts(k - 1);
      var ops, large := Hammer(k), Hammer(k - 1) + [Check("a", "b", 20000.0)];
      assert ops == large + [Unblock("a")];
      assert "a"[0] != "b"[0];
      assert LargeSent(large, "b") == 0 && !Barred(large, "b");
      assert ops[..|ops| - 1] == large && large[..|large| - 1] == Hammer(k - 1);
      assert large[|large| - 1] == Check("a", "b", 20000.0) && ops[|ops| - 1] == Unblock("a");
    }
  }

  /** Four unblockings do suffice. */
  lemma FourUnblocksSuffice()
    ensures Judge(Run(Hammer(6)), "a", "b", 1.0) == HighFrequency && Unblocks(Hammer(6), "a") == 4
  {
    HammerCounts(6);
    VerdictIsHistory(Hammer(6), "a", "b", 1.0);
  }
}
