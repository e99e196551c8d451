/**
 Wallet transaction history: a per-user index of IDs that must agree with a plain scan
 of everything added, and an in-place exchange sort cut to the most recent entries.
 Adding under an ID already used replaces the transaction that the ID stands for.
 */
module TransactionHistory {
  import opened Outcomes

  datatype Status = Pending | Confirmed | Completed | Failed

  datatype Error = TransactionNotFound | InvalidTransaction

  class Transaction {
    const id: string
    const kind: string
    const from: string
    const to: string
    const asset: string
    const amount: real
    const timestamp: int
    var status: Status
    var confirmations: int

    constructor (id: string, kind: string, from: string, to: string, asset: string, amount: real, timestamp: int)
      ensures this.id == id && this.kind == kind && this.from == from && this.to == to
      ensures this.asset == asset && this.amount == amount && this.timestamp == timestamp
      ensures status == Pending && confirmations == 0
    {
      this.id, this.kind, this.from, this.to := id, kind, from, to;
      this.asset, this.amount, this.timestamp := asset, amount, timestamp;
      status, confirmations := Pending, 0;
    }
  }

  // ---------- the log of additions ----------

  predicate Involves(t: Transaction, a: string) { t.from == a || t.to == a }

  predicate Wanted(t: Transaction, kind: string, asset: string) {
    (kind == "" || t.kind == kind) && (asset == "" || t.asset == asset)
  }

  /** The entries of a log that involve an address, in order of addition, each once. */
  function Scan(log: seq<Transaction>, a: string): seq<Transaction> {
    if log == [] then []
    else Scan(log[..|log| - 1], a) + if Involves(log[|log| - 1], a) then [log[|log| - 1]] else []
  }

  function Select(ts: seq<Transaction>, kind: string, asset: string): seq<Transaction> {
    if ts == [] then []
    else Select(ts[..|ts| - 1], kind, asset) + if Wanted(ts[|ts| - 1], kind, asset) then [ts[|ts| - 1]] else []
  }

  function IDs(ts: seq<Transaction>): (r: seq<string>)
    ensures |r| == |ts|
  {
    seq(|ts|, i requires 0 <= i < |ts| => ts[i].id)
  }

  function Listed(index: map<string, seq<string>>, a: string): seq<string> {
    if a in index then index[a] else []
  }

  /** What an ID stands for: the last transaction added under it. */
  function Latest(log: seq<Transaction>, id: string): Option<Transaction> {
    if log == [] then None
    else if log[|log| - 1].id == id then Some(log[|log| - 1])
    else Latest(log[..|log| - 1], id)
  }

  /** The transactions a list of IDs stands for, in list order. */
  function Resolve(log: seq<Transaction>, ids: seq<string>): seq<Transaction> {
    if ids == [] then []
    else
      var rest := Resolve(log, ids[..|ids| - 1]);
      match Latest(log, ids[|ids| - 1]) case Some(t) => rest + [t] case None => rest
  }

  /** A look-up by address; nothing is indexed under the empty address. */
  function UserTransactions(log: seq<Transaction>, a: string): seq<Transaction> {
    if a == "" then [] else Resolve(log, IDs(Scan(log, a)))
  }

  /** The index and the store of a log. */
  ghost predicate Indexes(log: seq<Transaction>, index: map<string, seq<string>>) {
    "" !in index && forall a :: a != "" ==> IDs(Scan(log, a)) == Listed(index, a)
  }

  ghost predicate Stores(log: seq<Transaction>, transactions: map<string, Transaction>) {
    forall id :: Latest(log, id) == if id in transactions then Some(transactions[id]) else None
  }

  function Enlist(index: map<string, seq<string>>, a: string, id: string): map<string, seq<string>> {
    index[a := Listed(index, a) + [id]]
  }

  /** The index after an addition: once under the sender, once under a different receiver. */
  function Reindexed(index: map<string, seq<string>>, tx: Transaction): map<string, seq<string>> {
    var index' := if tx.from != "" then Enlist(index, tx.from, tx.id) else index;
    if tx.to != "" && tx.to != tx.from then Enlist(index', tx.to, tx.id) else index'
  }

  lemma ReindexedLists(index: map<string, seq<string>>, tx: Transaction)
    ensures forall a :: a != "" ==>
              Listed(Reindexed(index, tx), a)
              == if Involves(tx, a) then Listed(index, a) + [tx.id] else Listed(index, a)
    ensures "" !in index ==> "" !in Reindexed(index, tx)
  {}

  lemma LogGrows(log: seq<Transaction>, tx: Transaction, a: string)
    ensures IDs(Scan(log + [tx], a)) == if Involves(tx, a) then IDs(Scan(log, a)) + [tx.id] else IDs(Scan(log, a))
    ensures forall id :: Latest(log + [tx], id) == if id == tx.id then Some(tx) else Latest(log, id)
  {
    assert (log + [tx])[..|log|] == log;
  }

  lemma ReindexedIndexes(log: seq<Transaction>, index: map<string, seq<string>>, tx: Transaction)
    requires Indexes(log, index)
    ensures Indexes(log + [tx], Reindexed(index, tx))
  {
    ReindexedLists(index, tx);
    forall a | a != "" ensures IDs(Scan(log + [tx], a)) == Listed(Reindexed(index, tx), a) {
      LogGrows(log, tx, a);
    }
  }

  lemma AdditionStores(log: seq<Transaction>, transactions: map<string, Transaction>, tx: Transaction)
    requires Stores(log, transactions)
    ensures Stores(log + [tx], transactions[tx.id := tx])
  {
    LogGrows(log, tx, "");
  }

  ghost predicate DistinctIDs(log: seq<Transaction>) {
    forall i, j :: 0 <= i < j < |log| ==> log[i].id != log[j].id
  }

  lemma {:induction false} LatestIsEntry(log: seq<Transaction>, i: nat)
    requires DistinctIDs(log) && i < |log|
    ensures Latest(log, log[i].id) == Some(log[i])
  {
    if i < |log| - 1 {
      LatestIsEntry(log[..|log| - 1], i);
    }
  }

  lemma {:induction false} ScanSubset(log: seq<Transaction>, a: string, t: Transaction)
    ensures t in Scan(log, a) <==> t in log && (t.from == a || t.to == a)
  {
    if log != [] {
      ScanSubset(log[..|log| - 1], a, t);
      assert log == log[..|log| - 1] + [log[|log| - 1]];
    }
  }

  lemma ScanAppend(log: seq<Transaction>, t: Transaction, a: string)
    ensures Scan(log + [t], a) == Scan(log, a) + if t.from == a || t.to == a then [t] else []
  {
    assert (log + [t])[..|log|] == log;
  }

  /** A scan goes along the log: what it finds in two parts is in that order, and in one entry that entry or nothing. */
  lemma {:induction false} ScanLaws(log: seq<Transaction>, more: seq<Transaction>, t: Transaction, a: string)
    ensures Scan(log + more, a) == Scan(log, a) + Scan(more, a)
    ensures Scan([t], a) == if t.from == a || t.to == a then [t] else []
    decreases |more|
  {
    ScanAppend([], t, a);
    if more == [] {
      assert log + more == log;
    } else {
      var front, last := more[..|more| - 1], more[|more| - 1];
      ScanLaws(log, front, t, a);
      assert log + more == log + front + [last] && more == front + [last];
      ScanAppend(log + front, last, a);
      ScanAppend(front, last, a);
    }
  }

  lemma SelectAppend(ts: seq<Transaction>, t: Transaction, kind: string, asset: string)
    ensures Select(ts + [t], kind, asset)
            == Select(ts, kind, asset)
               + if (kind == "" || t.kind == kind) && (asset == "" || t.asset == asset) then [t] else []
  {
    assert (ts + [t])[..|ts|] == ts;
  }

  /** So does a selection, by kind and by asset, where an empty one stands for all. */
  lemma {:induction false} SelectLaws(ts: seq<Transaction>, more: seq<Transaction>, t: Transaction, kind: string,
                                      asset: string)
    ensures Select(ts + more, kind, asset) == Select(ts, kind, asset) + Select(more, kind, asset)
    ensures Select([t], kind, asset)
            == if (kind == "" || t.kind == kind) && (asset == "" || t.asset == asset) then [t] else []
    decreases |more|
  {
    SelectAppend([], t, kind, asset);
    if more == [] {
      assert ts + more == ts;
    } else {
      var front, last := more[..|more| - 1], more[|more| - 1];
      SelectLaws(ts, front, t, kind, asset);
      assert ts + more == ts + front + [last] && more == front + [last];
      SelectAppend(ts + front, last, kind, asset);
      SelectAppend(front, last, kind, asset);
    }
  }

  lemma {:induction false} SelectSubset(ts: seq<Transaction>, kind: string, asset: string, t: Transaction)
    ensures t in Select(ts, kind, asset)
            <==> t in ts && (kind == "" || t.kind == kind) && (asset == "" || t.asset == asset)
  {
    if ts != [] {
      SelectSubset(ts[..|ts| - 1], kind, asset, t);
      assert ts == ts[..|ts| - 1] + [ts[|ts| - 1]];
    }
  }

  /** The i-th entry of a log is the last one added under its ID. */
  ghost predicate LastUnder(log: seq<Transaction>, id: string, i: nat) {
    i < |log| && log[i].id == id && forall j :: i < j < |log| ==> log[j].id != id
  }

  lemma {:induction false} LatestIs(log: seq<Transaction>, id: string)
    ensures Latest(log, id).None? <==> forall j :: 0 <= j < |log| ==> log[j].id != id
    ensures Latest(log, id).Some? ==> exists i: nat :: LastUnder(log, id, i) && log[i] == Latest(log, id).value
  {
    if log != [] {
      var front := log[..|log| - 1];
      if log[|log| - 1].id == id {
        assert LastUnder(log, id, |log| - 1);
      } else {
        LatestIs(front, id);
        if Latest(front, id).Some? {
          var i: nat :| LastUnder(front, id, i) && front[i] == Latest(front, id).value;
          assert LastUnder(log, id, i) && log[i] == front[i];
        }
      }
    }
  }

  lemma {:induction false} ResolveAt(log: seq<Transaction>, ids: seq<string>)
    requires forall id :: id in ids ==> Latest(log, id).Some?
    ensures |Resolve(log, ids)| == |ids|
    ensures forall i :: 0 <= i < |ids| ==> ids[i] in ids && Resolve(log, ids)[i] == Latest(log, ids[i]).value
  {
    if ids != [] {
      ResolveAt(log, ids[..|ids| - 1]);
      assert ids[|ids| - 1] in ids;
    }
  }

  /**
   With any IDs: a look-up has one entry for each transaction of the log with that sender or
   receiver, in order of addition, and that entry is the transaction last added under its ID.
   */
  lemma LookUpIsLatest(log: seq<Transaction>, a: string, i: nat)
    requires a != "" && i < |Scan(log, a)|
    ensures |UserTransactions(log, a)| == |Scan(log, a)|
    ensures exists k: nat :: LastUnder(log, Scan(log, a)[i].id, k) && log[k] == UserTransactions(log, a)[i]
  {
    var ids := IDs(Scan(log, a));
    forall id | id in ids ensures Latest(log, id).Some? {
      var j :| 0 <= j < |ids| && ids[j] == id;
      ScanSubset(log, a, Scan(log, a)[j]);
      LatestIs(log, id);
    }
    ResolveAt(log, ids);
    assert ids[i] == Scan(log, a)[i].id;
    LatestIs(log, ids[i]);
  }

  lemma {:induction false} ResolveEntries(log: seq<Transaction>, ts: seq<Transaction>)
    requires forall t :: t in ts ==> Latest(log, t.id) == Some(t)
    ensures Resolve(log, IDs(ts)) == ts
  {
    if ts != [] {
      var front := ts[..|ts| - 1];
      ResolveEntries(log, front);
      assert IDs(ts)[..|ts| - 1] == IDs(front);
      assert ts[|ts| - 1] in ts;
    }
  }

  /** With distinct IDs the indexed look-up is the plain scan of the log. */
  lemma IndexIsScan(log: seq<Transaction>, a: string)
    requires DistinctIDs(log) && a != ""
    ensures UserTransactions(log, a) == Scan(log, a)
  {
    forall t | t in Scan(log, a) ensures Latest(log, t.id) == Some(t) {
      ScanSubset(log, a, t);
      var i :| 0 <= i < |log| && log[i] == t;
      LatestIsEntry(log, i);
    }
    ResolveEntries(log, Scan(log, a));
  }

  // ---------- newest first ----------

  ghost predicate NewestFirst(ts: seq<Transaction>) {
    forall i, j :: 0 <= i < j < |ts| ==> ts[i].timestamp >= ts[j].timestamp
  }

  function Cut(ts: seq<Transaction>, limit: int): seq<Transaction> {
    if 0 < limit < |ts| then ts[..limit] else ts
  }

  /** r is a newest-first selection from all, of the size asked for, leaving out nothing newer. */
  ghost predicate MostRecent(r: seq<Transaction>, all: seq<Transaction>, limit: int) {
    && NewestFirst(r)
    && multiset(r) <= multiset(all)
    && |r| == (if 0 < limit < |all| then limit else |all|)
    && forall t: Transaction :: t in multiset(all) - multiset(r) ==>
                                  forall i :: 0 <= i < |r| ==> r[i].timestamp >= t.timestamp
  }

  /** Nothing after the cut is newer than what is before it. */
  lemma SplitSorted(sorted: seq<Transaction>, n: nat)
    requires NewestFirst(sorted) && n <= |sorted|
    ensures multiset(sorted) == multiset(sorted[..n]) + multiset(sorted[n..])
    ensures forall t: Transaction :: t in multiset(sorted) - multiset(sorted[..n]) ==>
                                       forall i :: 0 <= i < n ==> sorted[i].timestamp >= t.timestamp
  {
    assert sorted == sorted[..n] + sorted[n..];
    forall t: Transaction | t in multiset(sorted[n..])
      ensures forall i :: 0 <= i < n ==> sorted[i].timestamp >= t.timestamp
    {
      var k :| 0 <= k < |sorted[n..]| && sorted[n..][k] == t;
      assert sorted[n + k] == t;
    }
  }

  lemma CutIsMostRecent(sorted: seq<Transaction>, all: seq<Transaction>, limit: int)
    requires NewestFirst(sorted) && multiset(sorted) == multiset(all)
    ensures MostRecent(Cut(sorted, limit), all, limit)
  {
    var r := Cut(sorted, limit);
    assert |sorted| == |all| by {
      assert |multiset(sorted)| == |multiset(all)|;
    }
    SplitSorted(sorted, |r|);
  }

  method SortNewestFirst(a: array<Transaction>)
    modifies a
    ensures NewestFirst(a[..]) && multiset(a[..]) == multiset(old(a[..]))
  {
    var i := 0;
    while i < a.Length - 1
      invariant 0 <= i <= a.Length
      invariant forall p, q :: 0 <= p < q < a.Length && p < i ==> a[p].timestamp >= a[q].timestamp
      invariant multiset(a[..]) == multiset(old(a[..]))
    {
      var j := i + 1;
      while j < a.Length
        invariant i < j <= a.Length
        invariant forall p, q :: 0 <= p < q < a.Length && p < i ==> a[p].timestamp >= a[q].timestamp
        invariant forall q :: i < q < j ==> a[i].timestamp >= a[q].timestamp
        invariant multiset(a[..]) == multiset(old(a[..]))
      {
        if a[i].timestamp < a[j].timestamp {
          a[i], a[j] := a[j], a[i];
        }
        j := j + 1;
      }
      i := i + 1;
    }
  }

  // ---------- the history object ----------

  class History {
    var transactions: map<string, Transaction>
    var userTxs: map<string, seq<string>>
    ghost var log: seq<Transaction>

    ghost predicate Valid()
      reads this
    {
      Stores(log, transactions) && Indexes(log, userTxs)
    }

    constructor ()
      ensures Valid() && log == []
    {
      transactions, userTxs, log := map[], map[], [];
    }

    method AddTransaction(tx: Transaction?) returns (r: Result<(), Error>)
      requires Valid()
      modifies this
      ensures Valid()
      ensures r == if tx == null || tx.id == "" then Err(InvalidTransaction) else Ok(())
      ensures log == old(log) + if r.Ok? then [tx] else []
    {
      if tx == null || tx.id == "" {
        return Err(InvalidTransaction);
      }
      transactions := transactions[tx.id := tx];
      if tx.from != "" {
        userTxs := Enlist(userTxs, tx.from, tx.id);
      }
      if tx.to != "" && tx.to != tx.from {
        userTxs := Enlist(userTxs, tx.to, tx.id);
      }
      log := log + [tx];
      AdditionStores(old(log), old(transactions), tx);
      ReindexedIndexes(old(log), old(userTxs), tx);
      return Ok(());
    }

    method GetTransaction(txID: string) returns (r: Result<Transaction, Error>)
      requires Valid()
      ensures r == match Latest(log, txID) case Some(t) => Ok(t) case None => Err(TransactionNotFound)
      ensures r.Ok? ==> exists i: nat :: LastUnder(log, txID, i) && log[i] == r.value
      ensures r.Err? <==> forall i :: 0 <= i < |log| ==> log[i].id != txID
    {
      LatestIs(log, txID);
      if txID !in transactions {
        return Err(TransactionNotFound);
      }
      return Ok(transactions[txID]);
    }

    method GetUserTransactions(address: string) returns (ts: seq<Transaction>)
      requires Valid()
      ensures ts == UserTransactions(log, address)
      ensures address != "" && DistinctIDs(log) ==> ts == Scan(log, address)
      ensures address != "" && DistinctIDs(log) ==>
                forall t :: t in ts <==> t in log && (t.from == address || t.to == address)
    {
      forall t | t in log || t in Scan(log, address)
        ensures t in Scan(log, address) <==> t in log && (t.from == address || t.to == address)
      {
        ScanSubset(log, address, t);
      }
      if address != "" && DistinctIDs(log) {
        IndexIsScan(log, address);
      }
      if address !in userTxs {
        return [];
      }
      var txIDs := userTxs[address];
      ts := [];
      for i := 0 to |txIDs|
        invariant ts == Resolve(log, txIDs[..i])
      {
        assert txIDs[..i + 1][..i] == txIDs[..i];
        if txIDs[i] in transactions {
          ts := ts + [transactions[txIDs[i]]];
        }
      }
      assert txIDs[..|txIDs|] == txIDs;
    }

    /** Changes the two mutable fields of the transaction the ID stands for, and nothing else. */
    method UpdateTransactionStatus(txID: string, status: Status, confirmations: int) returns (r: Result<(), Error>)
      requires Valid()
      modifies set t | t in log
      ensures Valid() && log == old(log)
      ensures match Latest(log, txID)
              case None => r == Err(TransactionNotFound) && forall t :: t in log ==> unchanged(t)
              case Some(u) => r == Ok(()) && u.status == status && u.confirmations == confirmations
                              && forall t :: t in log && t != u ==> unchanged(t)
    {
      if txID !in transactions {
        return Err(TransactionNotFound);
      }
      var tx := transactions[txID];
      LatestInLog(log, txID);
      tx.status := status;
      tx.confirmations := confirmations;
      return Ok(());
    }

    method FilterTransactions(address: string, kind: string, asset: string) returns (filtered: seq<Transaction>)
      requires Valid()
      ensures filtered == Select(UserTransactions(log, address), kind, asset)
      ensures address != "" && DistinctIDs(log) ==> filtered == Select(Scan(log, address), kind, asset)
      ensures address != "" && DistinctIDs(log) ==>
                forall t :: t in filtered <==> && t in log && (t.from == address || t.to == address)
                                               && (kind == "" || t.kind == kind) && (asset == "" || t.asset == asset)
    {
      var allTxs := GetUserTransactions(address);
      filtered := [];
      for i := 0 to |allTxs|
        invariant filtered == Select(allTxs[..i], kind, asset)
      {
        assert allTxs[..i + 1][..i] == allTxs[..i];
        var tx := allTxs[i];
        if (kind == "" || tx.kind == kind) && (asset == "" || tx.asset == asset) {
          filtered := filtered + [tx];
        }
      }
      assert allTxs[..|allTxs|] == allTxs;
      forall t | t in filtered || t in allTxs
        ensures t in filtered <==> && t in allTxs
                                   && (kind == "" || t.kind == kind) && (asset == "" || t.asset == asset)
      {
        SelectSubset(allTxs, kind, asset, t);
      }
    }

    method GetRecentTransactions(address: string, limit: int) returns (recent: seq<Transaction>)
      requires Valid()
      ensures MostRecent(recent, UserTransactions(log, address), limit)
    {
      var all := GetUserTransactions(address);
      var allTxs := new Transaction[|all|](i requires 0 <= i < |all| => all[i]);
      assert allTxs[..] == all;
      SortNewestFirst(allTxs);
      ghost var sorted := allTxs[..];
      CutIsMostRecent(sorted, all, limit);
      recent := if limit > 0 && allTxs.Length > limit then allTxs[..limit] else allTxs[..];
      assert recent == Cut(sorted, limit);
    }
  }

  lemma {:induction false} LatestInLog(log: seq<Transaction>, id: string)
    ensures Latest(log, id).Some? ==> Latest(log, id).value in log && Latest(log, id).value.id == id
  {
    if log != [] {
      LatestInLog(log[..|log| - 1], id);
    }
  }
}
