/**
 When a contract call in flight is accepted: exactly when no call committed since one of its
 reads has written the key read. Keys and their versions are those of Serializability.
 */
module CommitRule {
  import opened Outcomes
  import opened WalletContract
  import opened Serializability
  import SupplyDrift

  // ---------- what each call reads and writes ----------

  /** The keys a call writes if it commits. */
  function WriteKeys(c: Call): set<string> {
    if c.Transfer? then {"WALLET_" + c.from, "WALLET_" + c.to, "TX_" + c.txID}
    else {"WALLET_" + c.walletID, "TX_" + c.txID, "BTNG_TOTAL_SUPPLY"}
  }

  /** The keys a call reads, in order. */
  function ReadKeys(c: Call): seq<string> {
    if c.Transfer? then ["WALLET_" + c.from, "WALLET_" + c.to] else ["WALLET_" + c.walletID, "BTNG_TOTAL_SUPPLY"]
  }

  function ReadsBy(c: Call, pc: nat): nat {
    if pc == 0 then 0 else if pc == 1 || (!c.Transfer? && pc <= 3) then 1 else 2
  }

  function WrittenBy(c: Call, pc: nat): set<string> {
    if c.Transfer? then
      (if pc >= 3 then {WalletKey(c.from)} else {}) + (if pc >= 4 then {WalletKey(c.to)} else {})
      + (if pc >= 5 then {TxKey(c.txID)} else {})
    else
      (if pc >= 2 then {WalletKey(c.walletID)} else {}) + (if pc >= 3 then {TxKey(c.txID)} else {})
      + (if pc >= 5 then {SUPPLY_KEY} else {})
  }

  /** A wallet read names the key it was read under. */
  predicate Named(v: Option<Value>, key: string) {
    v.Some? && v.value.WalletBytes? ==> key == WalletKey(v.value.wallet.walletID)
  }

  /** A call in flight has read and buffered what its program says up to its counter. */
  ghost predicate Programmed(f: InFlight) {
    && f.pc <= 5 && f.writes.Keys == WrittenBy(f.call, f.pc)
    && |f.seen| == |f.obs| == ReadsBy(f.call, f.pc)
    && forall i :: 0 <= i < |f.seen| ==> f.seen[i].key == ReadKeys(f.call)[i] && Named(f.obs[i], f.seen[i].key)
  }

  lemma AdvanceSupply(y: System, f: InFlight)
    requires WellTyped(y.state) && Programmed(f) && !f.call.Transfer?
    ensures Programmed(AdvanceCall(y, f))
  {
    if f.pc == 1 {
      assert Named(f.obs[0], WalletKey(f.call.walletID));
    }
  }

  lemma AdvanceTransfer(y: System, f: InFlight)
    requires WellTyped(y.state) && Programmed(f) && f.call.Transfer?
    ensures Programmed(AdvanceCall(y, f))
  {
    if f.pc == 2 {
      assert Named(f.obs[0], WalletKey(f.call.from));
    } else if f.pc == 3 {
      assert Named(f.obs[1], WalletKey(f.call.to));
    }
  }

  // ---------- versions count commits ----------

  /** How many of the committed calls there were when the last one wrote the key. */
  function LastWriter(log: seq<Committed>, key: string): (n: nat)
    ensures n <= |log|
    ensures n > 0 ==> key in WriteKeys(log[n - 1].call)
    ensures forall j :: n <= j < |log| ==> key !in WriteKeys(log[j].call)
  {
    if log == [] then 0
    else if key in WriteKeys(log[|log| - 1].call) then |log|
    else LastWriter(log[..|log| - 1], key)
  }

  /** The version seen is that of a commit that wrote the key, or of none. */
  predicate Witnessed(log: seq<Committed>, r: Read) {
    r.version <= |log| && (r.version > 0 ==> r.key in WriteKeys(log[r.version - 1].call))
  }

  ghost predicate CallTracked(y: System, f: InFlight) {
    Programmed(f) && forall i :: 0 <= i < |f.seen| ==> Witnessed(y.log, f.seen[i])
  }

  ghost predicate Tracked(y: System) {
    && y.height == |y.log|
    && (forall key :: Version(y, key) == LastWriter(y.log, key))
    && forall t :: t in y.calls ==> CallTracked(y, y.calls[t])
  }

  lemma ReturnWrites(f: InFlight)
    requires Programmed(f) && Act(f.call, f.pc, f.obs).Return? && Act(f.call, f.pc, f.obs).result.Ok?
    ensures f.writes.Keys == WriteKeys(f.call)
    ensures |f.seen| == 2
  {}

  /** A longer log witnesses what a shorter one did. */
  lemma StaysTracked(y: System, y': System, f: InFlight)
    requires CallTracked(y, f) && y.log <= y'.log
    ensures CallTracked(y', f)
  {}

  lemma CommitVersions(y: System, t: nat, key: string)
    requires Tracked(y) && t in y.calls
    ensures Version(CommitCall(y, t), key) == LastWriter(CommitCall(y, t).log, key)
  {
    var y', f := CommitCall(y, t), y.calls[t];
    if y'.log != y.log {
      assert Programmed(f);
      ReturnWrites(f);
      assert y'.log[..|y.log|] == y.log;
    }
  }

  lemma CommitTracked(y: System, t: nat)
    requires Tracked(y) && t in y.calls
    ensures Tracked(CommitCall(y, t))
  {
    var y' := CommitCall(y, t);
    forall key ensures Version(y', key) == LastWriter(y'.log, key) {
      CommitVersions(y, t, key);
    }
    forall u | u in y'.calls ensures CallTracked(y', y'.calls[u]) {
      StaysTracked(y, y', y.calls[u]);
    }
  }

  lemma AdvanceTracked(y: System, f: InFlight)
    requires Tracked(y) && WellTyped(y.state) && CallTracked(y, f)
    ensures CallTracked(y, AdvanceCall(y, f))
  {
    if f.call.Transfer? { AdvanceTransfer(y, f); } else { AdvanceSupply(y, f); }
  }

  lemma NextTracked(y: System, e: Event)
    requires Tracked(y) && WellTyped(y.state)
    ensures Tracked(Next(y, e))
  {
    if e.Commit? {
      if e.t in y.calls { CommitTracked(y, e.t); }
    } else {
      var y' := Next(y, e);
      assert forall key :: Version(y', key) == Version(y, key);
      forall u | u in y'.calls ensures CallTracked(y', y'.calls[u]) {
        if u in y.calls && y'.calls[u] == y.calls[u] {
          StaysTracked(y, y', y.calls[u]);
        } else if e.Advance? {
          AdvanceTracked(y, y.calls[u]);
          StaysTracked(y, y', y'.calls[u]);
        }
      }
    }
  }

  lemma {:induction false} RunTracked(events: seq<Event>)
    ensures Tracked(Interleave(events)) && WellTyped(Interleave(events).state)
  {
    Serializable(events);
    SupplyDrift.RunKeepsWellTyped(CallsOf(Interleave(events).log), "");
    if events != [] {
      RunTracked(events[..|events| - 1]);
      NextTracked(Interleave(events[..|events| - 1]), events[|events| - 1]);
    }
  }

  // ---------- the rule ----------

  /** No call committed from the n-th on has written the key. */
  ghost predicate UnwrittenSince(log: seq<Committed>, n: nat, key: string) {
    forall j :: n <= j < |log| ==> key !in WriteKeys(log[j].call)
  }

  lemma CurrentIff(y: System, r: Read)
    requires Tracked(y) && Witnessed(y.log, r)
    ensures Version(y, r.key) == r.version <==> UnwrittenSince(y.log, r.version, r.key)
  {
    var n := LastWriter(y.log, r.key);
    if n > r.version {
      assert r.key in WriteKeys(y.log[n - 1].call);
    }
  }

  /** The call has run its program and would return this record. */
  predicate Finished(y: System, t: nat, tx: Transaction) {
    t in y.calls && Act(y.calls[t].call, y.calls[t].pc, y.calls[t].obs) == Return(Ok(tx))
  }

  lemma CommitEffect(y: System, t: nat, tx: Transaction)
    requires Tracked(y) && Finished(y, t, tx)
    ensures var f, y' := y.calls[t], CommitCall(y, t);
            && |f.seen| == 2 && f.seen[0].key == ReadKeys(f.call)[0] && f.seen[1].key == ReadKeys(f.call)[1]
            && y'.calls == y.calls - {t}
            && if Version(y, f.seen[0].key) == f.seen[0].version && Version(y, f.seen[1].key) == f.seen[1].version
               then y'.log == y.log + [Committed(f.call, tx)]
               else y'.log == y.log && y'.state == y.state
  {
    var f := y.calls[t];
    assert CallTracked(y, f);
    ReturnWrites(f);
    assert UpToDate(y, f) <==>
           Version(y, f.seen[0].key) == f.seen[0].version && Version(y, f.seen[1].key) == f.seen[1].version;
  }

  /**
   A call that has run its program and succeeded is accepted, in any interleaving, iff no call
   committed since the versions it saw has written either of the two keys it read; otherwise
   nothing changes but that it is gone.
   */
  lemma AcceptedIff(events: seq<Event>, t: nat, tx: Transaction)
    requires Finished(Interleave(events), t, tx)
    ensures var y, y' := Interleave(events), Interleave(events + [Commit(t)]);
            var f := y.calls[t];
            && |f.seen| == 2 && f.seen[0].key == ReadKeys(f.call)[0] && f.seen[1].key == ReadKeys(f.call)[1]
            && y'.calls == y.calls - {t}
            && if UnwrittenSince(y.log, f.seen[0].version, f.seen[0].key)
                  && UnwrittenSince(y.log, f.seen[1].version, f.seen[1].key)
               then y'.log == y.log + [Committed(f.call, tx)]
               else y'.log == y.log && y'.state == y.state
  {
    var y := Interleave(events);
    RunTracked(events);
    CommitEffect(y, t, tx);
    assert CallTracked(y, y.calls[t]);
    CurrentIff(y, y.calls[t].seen[0]);
    CurrentIff(y, y.calls[t].seen[1]);
    assert (events + [Commit(t)])[..|events|] == events;
  }

  // ---------- which versions a call sees ----------

  /** The events of others, and a call's own steps, that leave what it has read alone. */
  predicate Spares(e: Event, t: nat) { e.t != t || e.Advance? || e.Begin? }

  lemma NextKeepsReads(y: System, e: Event, t: nat)
    requires t in y.calls && Spares(e, t)
    ensures t in Next(y, e).calls && y.calls[t].seen <= Next(y, e).calls[t].seen && y.log <= Next(y, e).log
  {}

  lemma {:induction false} ReadsStay(events: seq<Event>, more: seq<Event>, t: nat)
    requires t in Interleave(events).calls && forall e :: e in more ==> Spares(e, t)
    ensures t in Interleave(events + more).calls
    ensures Interleave(events).calls[t].seen <= Interleave(events + more).calls[t].seen
    ensures Interleave(events).log <= Interleave(events + more).log
    decreases |more|
  {
    if more == [] {
      assert events + more == events;
    } else {
      var front, e := more[..|more| - 1], more[|more| - 1];
      assert e in more && forall x :: x in front ==> x in more;
      ReadsStay(events, front, t);
      assert (events + more)[..|events + more| - 1] == events + front;
      NextKeepsReads(Interleave(events + front), e, t);
    }
  }

  /**
   The version in the condition is that of the moment of the read: whatever happens until the
   commit, the key counts as unwritten since that version iff no call that committed after the
   read itself has written it.
   */
  lemma SeenWhenRead(events: seq<Event>, more: seq<Event>, t: nat)
    requires t in Interleave(events).calls && (forall e :: e in more ==> Spares(e, t))
    requires var f := Interleave(events).calls[t]; Act(f.call, f.pc, f.obs).Get?
    ensures var y, z := Interleave(events), Interleave(events + [Advance(t)] + more);
            var i := |y.calls[t].seen|;
            && t in z.calls && i < |z.calls[t].seen|
            && z.calls[t].seen[i].key == Act(y.calls[t].call, y.calls[t].pc, y.calls[t].obs).key
            && (UnwrittenSince(z.log, z.calls[t].seen[i].version, z.calls[t].seen[i].key)
                <==> UnwrittenSince(z.log, |y.log|, z.calls[t].seen[i].key))
  {
    var y, y1 := Interleave(events), Interleave(events + [Advance(t)]);
    RunTracked(events);
    assert (events + [Advance(t)])[..|events|] == events;
    ReadsStay(events + [Advance(t)], more, t);
    var z := Interleave(events + [Advance(t)] + more);
    var r := y1.calls[t].seen[|y.calls[t].seen|];
    assert r == z.calls[t].seen[|y.calls[t].seen|];
    assert r.version == LastWriter(y.log, r.key) <= |y.log|;
    forall j | r.version <= j < |y.log| ensures r.key !in WriteKeys(z.log[j].call) {
      assert z.log[j] == y.log[j];
    }
  }
}
