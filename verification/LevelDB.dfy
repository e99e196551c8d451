/**
 The key-value store: a write-through cache over one file per key. Every disk
 operation may fail, and a failed write may leave anything, or nothing, in its file.
 Keys contain no path separator, and the directory is used by this store alone.
 */
module LevelDB {
  import opened ByteStrings
  import opened Outcomes

  /** A name with no separator: a key, or the name of a file in the data directory. */
  type Name = s: string | '/' !in s witness ""

  datatype Error = EmptyKey | KeyNotFound | DiskError

  // ---------- file names ----------

  const DAT := ".dat"

  function FileName(key: Name): Name { key + DAT }

  /** filepath.Ext: the suffix from the last dot. */
  function ExtUpTo(name: Name, n: nat): string
    requires n <= |name|
  {
    if n == 0 then "" else if name[n - 1] == '.' then name[n - 1..] else ExtUpTo(name, n - 1)
  }

  function Ext(name: Name): string { ExtUpTo(name, |name|) }

  function KeyOf(name: Name): Name
    requires |name| >= 4
  {
    name[..|name| - 4]
  }

  lemma {:induction false} ExtIsSuffix(name: Name, n: nat)
    requires n <= |name|
    ensures ExtUpTo(name, n) == "" || exists i :: 0 <= i < n && name[i] == '.' && ExtUpTo(name, n) == name[i..]
  {
    if n > 0 && name[n - 1] != '.' {
      ExtIsSuffix(name, n - 1);
    }
  }

  /** Keys and the names of data files correspond one to one. */
  lemma FileNamesAreKeys(key: Name, name: Name)
    ensures Ext(FileName(key)) == DAT && KeyOf(FileName(key)) == key
    ensures Ext(name) == DAT ==> |name| >= 4 && FileName(KeyOf(name)) == name
  {
    var f := FileName(key);
    assert f[|key|..] == DAT;
    assert f[|key|] == '.' && f[|key| + 1] == 'd' && f[|key| + 2] == 'a' && f[|key| + 3] == 't';
    assert ExtUpTo(f, |key| + 1) == ExtUpTo(f, |key| + 2) == ExtUpTo(f, |key| + 3) == ExtUpTo(f, |key| + 4);
    if Ext(name) == DAT {
      ExtIsSuffix(name, |name|);
      var i :| 0 <= i < |name| && name[i..] == DAT;
      assert i == |name| - 4;
      assert name == name[..i] + name[i..];
    }
  }

  /** A key's file is named by the key and ".dat", which is then its extension. */
  lemma FileNameText(key: Name)
    ensures FileName(key) == key + ".dat" && Ext(key + ".dat") == ".dat"
  {
    FileNamesAreKeys(key, key);
  }

  // ---------- the store over values ----------

  type Files = map<Name, Bytes>

  /** How one write goes: done, or failed leaving the given contents (or no file). */
  datatype WriteFault = NoFault | Fault(left: Option<Bytes>)

  /**
   cache and files; the keys whose latest disk operation failed; and the keys that a
   Close dropped from the cache while their files stay.
   */
  datatype Store = Store(cache: map<Name, Bytes>, files: Files, failed: set<Name>, closed: set<Name>)

  datatype Op =
    | Put(key: Name, value: Bytes, fault: WriteFault)
    | Delete(key: Name, removeFails: bool)
    | Close(order: seq<Name>, faults: map<Name, Option<Bytes>>)
    | Open(unreadable: set<Name>)

  /** The same contents, or no file, under a name. */
  predicate SameFile(files: Files, files': Files, name: Name) {
    (name in files' <==> name in files) && (name in files ==> files'[name] == files[name])
  }

  function Written(files: Files, name: Name, value: Bytes, fault: WriteFault): Files {
    match fault
    case NoFault => files[name := value]
    case Fault(Some(left)) => files[name := left]
    case Fault(None) => files - {name}
  }

  /** Record the outcome of a disk operation on a key. */
  function Noted(failed: set<Name>, key: Name, ok: bool): set<Name> {
    if ok then failed - {key} else failed + {key}
  }

  function Save(s: Store, key: Name, value: Bytes, fault: WriteFault): Store {
    s.(files := Written(s.files, FileName(key), value, fault), failed := Noted(s.failed, key, fault.NoFault?))
  }

  function PutStep(s: Store, key: Name, value: Bytes, fault: WriteFault): Store {
    if key == "" then s else Save(s.(cache := s.cache[key := value], closed := s.closed - {key}), key, value, fault)
  }

  /** Removal also fails when there is no file. */
  function Removes(s: Store, key: Name, removeFails: bool): bool { !removeFails && FileName(key) in s.files }

  function DeleteStep(s: Store, key: Name, removeFails: bool): Store {
    if key !in s.cache then s
    else
      var ok := Removes(s, key, removeFails);
      Store(s.cache - {key}, if ok then s.files - {FileName(key)} else s.files,
            Noted(s.failed, key, ok), s.closed - {key})
  }

  function FaultFor(faults: map<Name, Option<Bytes>>, key: Name): WriteFault {
    if key in faults then Fault(faults[key]) else NoFault
  }

  /** Flush the cache in iteration order, up to the first failure. */
  function Flush(s: Store, order: seq<Name>, faults: map<Name, Option<Bytes>>): (Store, bool)
    requires forall k :: k in order ==> k in s.cache
    decreases |order|
  {
    if order == [] then (s, true)
    else
      var s' := Save(s, order[0], s.cache[order[0]], FaultFor(faults, order[0]));
      if order[0] in faults then (s', false) else Flush(s', order[1..], faults)
  }

  ghost predicate Covers(order: seq<Name>, cache: map<Name, Bytes>) { forall k :: k in order <==> k in cache }

  function CloseStep(s: Store, order: seq<Name>, faults: map<Name, Option<Bytes>>): Store
    requires forall k :: k in order ==> k in s.cache
  {
    var (s', ok) := Flush(s, order, faults);
    if ok then s'.(cache := map[], closed := s.closed + s.cache.Keys) else s'
  }

  /** The keys that have a data file. */
  function KeysOnDisk(files: Files): set<Name> {
    set n | n in files && |n| >= 4 && Ext(n) == DAT :: KeyOf(n)
  }

  lemma OnDiskIff(files: Files, key: Name)
    ensures key in KeysOnDisk(files) <==> FileName(key) in files
  {
    FileNamesAreKeys(key, FileName(key));
    if key in KeysOnDisk(files) {
      var n :| n in files && |n| >= 4 && Ext(n) == DAT && KeyOf(n) == key;
      FileNamesAreKeys(key, n);
    }
  }

  lemma OnDiskAll(files: Files)
    ensures forall key :: key in KeysOnDisk(files) <==> FileName(key) in files
  {
    forall key ensures key in KeysOnDisk(files) <==> FileName(key) in files {
      OnDiskIff(files, key);
    }
  }

  /** A new store over the files, whose loading skips what cannot be read. */
  function Opened(files: Files, unreadable: set<Name>): Store {
    OnDiskAll(files);
    Store(map k | k in KeysOnDisk(files) && k !in unreadable :: files[FileName(k)], files,
          KeysOnDisk(files) * unreadable, {})
  }

  ghost predicate Enabled(s: Store, op: Op) { op.Close? ==> Covers(op.order, s.cache) }

  function Next(s: Store, op: Op): Store
    requires op.Close? ==> forall k :: k in op.order ==> k in s.cache
  {
    match op
    case Put(key, value, fault) => PutStep(s, key, value, fault)
    case Delete(key, removeFails) => DeleteStep(s, key, removeFails)
    case Close(order, faults) => CloseStep(s, order, faults)
    case Open(unreadable) => Opened(s.files, unreadable)
  }

  /** Cache and disk say the same about a key. */
  ghost predicate Mirrored(s: Store, key: Name) {
    && (key in s.cache <==> FileName(key) in s.files)
    && (key in s.cache ==> s.cache[key] == s.files[FileName(key)])
  }

  /** They may differ only where the latest disk operation failed, or where a Close dropped the cache. */
  ghost predicate Faithful(s: Store) {
    forall key :: key !in s.failed && key !in s.closed ==> Mirrored(s, key)
  }

  lemma FileNameInjective(k1: Name, k2: Name)
    ensures FileName(k1) == FileName(k2) ==> k1 == k2
  {
    FileNamesAreKeys(k1, "");
    FileNamesAreKeys(k2, "");
  }

  lemma SaveFaithful(s: Store, key: Name, value: Bytes, fault: WriteFault)
    requires forall k :: k != key && k !in s.failed && k !in s.closed ==> Mirrored(s, k)
    requires key in s.cache && s.cache[key] == value
    ensures Faithful(Save(s, key, value, fault))
  {
    forall k | k !in Save(s, key, value, fault).failed && k !in s.closed
      ensures Mirrored(Save(s, key, value, fault), k)
    {
      FileNameInjective(key, k);
    }
  }

  lemma DeleteFaithful(s: Store, key: Name, removeFails: bool)
    requires Faithful(s)
    ensures Faithful(DeleteStep(s, key, removeFails))
  {
    var s' := DeleteStep(s, key, removeFails);
    forall k | k !in s'.failed && k !in s'.closed ensures Mirrored(s', k) {
      FileNameInjective(key, k);
    }
  }

  /** A flush leaves the cache alone; a complete one mirrors every flushed key. */
  lemma {:induction false} FlushFaithful(s: Store, order: seq<Name>, faults: map<Name, Option<Bytes>>)
    requires Faithful(s) && forall k :: k in order ==> k in s.cache
    ensures var (s', ok) := Flush(s, order, faults);
            && Faithful(s') && s'.cache == s.cache && s'.closed == s.closed
            && (forall k :: k !in order ==>
                  && (k in s'.failed <==> k in s.failed)
                  && (FileName(k) in s'.files <==> FileName(k) in s.files)
                  && (FileName(k) in s.files ==> s'.files[FileName(k)] == s.files[FileName(k)]))
            && (ok ==> forall k :: k in order ==> k !in s'.failed && Mirrored(s', k))
    decreases |order|
  {
    if order != [] {
      var key := order[0];
      var s1 := Save(s, key, s.cache[key], FaultFor(faults, key));
      SaveFaithful(s, key, s.cache[key], FaultFor(faults, key));
      forall k | k != key
        ensures FileName(k) in s1.files <==> FileName(k) in s.files
        ensures FileName(k) in s.files ==> s1.files[FileName(k)] == s.files[FileName(k)]
      {
        FileNameInjective(key, k);
      }
      if key !in faults {
        FlushFaithful(s1, order[1..], faults);
      }
    }
  }

  lemma OpenFaithful(files: Files, unreadable: set<Name>)
    ensures Faithful(Opened(files, unreadable))
    ensures forall k :: k in Opened(files, unreadable).cache <==> FileName(k) in files && k !in unreadable
  {
    OnDiskAll(files);
  }

  lemma NextFaithful(s: Store, op: Op)
    requires Faithful(s) && Enabled(s, op)
    ensures Faithful(Next(s, op))
  {
    match op
    case Put(key, value, fault) =>
      if key != "" {
        SaveFaithful(s.(cache := s.cache[key := value], closed := s.closed - {key}), key, value, fault);
      }
    case Delete(key, removeFails) => DeleteFaithful(s, key, removeFails);
    case Close(order, faults) => FlushFaithful(s, order, faults);
    case Open(unreadable) => OpenFaithful(s.files, unreadable);
  }

  /** A run of operations, each Close in some iteration order of the cache it finds. */
  ghost predicate Runs(s: Store, ops: seq<Op>, s': Store)
    decreases |ops|
  {
    if ops == [] then s' == s else Enabled(s, ops[0]) && Runs(Next(s, ops[0]), ops[1..], s')
  }

  /** Whatever fails, over every run from opening a directory. */
  lemma {:induction false} RunFaithful(s: Store, ops: seq<Op>, s': Store)
    requires Faithful(s) && Runs(s, ops, s')
    ensures Faithful(s')
    decreases |ops|
  {
    if ops != [] {
      NextFaithful(s, ops[0]);
      RunFaithful(Next(s, ops[0]), ops[1..], s');
    }
  }

  /** What a complete flush leaves on disk, key by key. */
  lemma FlushedFiles(s: Store, order: seq<Name>, faults: map<Name, Option<Bytes>>, key: Name)
    requires Faithful(s) && Covers(order, s.cache) && Flush(s, order, faults).1
    ensures var files := Flush(s, order, faults).0.files;
            && (key in s.cache ==> FileName(key) in files && files[FileName(key)] == s.cache[key])
            && (key !in s.cache && FileName(key) in files ==> key in s.failed || key in s.closed)
  {
    FlushFaithful(s, order, faults);
    if key in s.cache {
      assert Mirrored(Flush(s, order, faults).0, key);
    } else if key !in s.failed && key !in s.closed {
      assert Mirrored(s, key);
    }
  }

  /** A Close, then a new store on the directory that cannot read the files of some keys. */
  ghost function CloseAndReopen(s: Store, order: seq<Name>, faults: map<Name, Option<Bytes>>,
                                unreadable: set<Name>): Store
    requires Covers(order, s.cache)
  {
    Next(Next(s, Close(order, faults)), Open(unreadable))
  }

  lemma ReopenedCache(s: Store, order: seq<Name>, faults: map<Name, Option<Bytes>>, unreadable: set<Name>, key: Name)
    requires Faithful(s) && Covers(order, s.cache) && Flush(s, order, faults).1
    ensures var cache := CloseAndReopen(s, order, faults, unreadable).cache;
            && (key in s.cache && key !in unreadable ==> key in cache && cache[key] == s.cache[key])
            && (key in cache ==> key !in unreadable)
            && (key in cache && key !in s.cache ==> key in s.failed || key in s.closed)
  {
    FlushedFiles(s, order, faults, key);
    OpenFaithful(Flush(s, order, faults).0.files, unreadable);
  }

  /** cache holds the readable part of s's cache and, beyond it, only leftovers. */
  ghost predicate Restores(cache: map<Name, Bytes>, s: Store, unreadable: set<Name>) {
    && s.cache.Keys - unreadable <= cache.Keys <= (s.cache.Keys + s.failed + s.closed) - unreadable
    && (forall key :: key in s.cache && key in cache ==> cache[key] == s.cache[key])
    && (s.failed == {} && s.closed == {} ==> cache == s.cache - unreadable)
  }

  lemma ReopenedRestores(s: Store, order: seq<Name>, faults: map<Name, Option<Bytes>>, unreadable: set<Name>)
    requires Faithful(s) && Covers(order, s.cache) && Flush(s, order, faults).1
    ensures Restores(CloseAndReopen(s, order, faults, unreadable).cache, s, unreadable)
  {
    var cache := CloseAndReopen(s, order, faults, unreadable).cache;
    forall key
      ensures key in s.cache && key !in unreadable ==> key in cache && cache[key] == s.cache[key]
      ensures key in cache ==> key !in unreadable
      ensures key in cache && key !in s.cache ==> key in s.failed || key in s.closed
    {
      ReopenedCache(s, order, faults, unreadable, key);
    }
  }

  /** A Close succeeds iff no cached key's write fails. */
  lemma {:induction false} CloseSucceedsIff(s: Store, order: seq<Name>, faults: map<Name, Option<Bytes>>)
    requires forall k :: k in order ==> k in s.cache
    ensures Flush(s, order, faults).1 <==> forall k :: k in order ==> k !in faults
    decreases |order|
  {
    if order != [] {
      CloseSucceedsIff(Save(s, order[0], s.cache[order[0]], FaultFor(faults, order[0])), order[1..], faults);
      assert forall k :: k in order <==> k == order[0] || k in order[1..];
    }
  }

  /** A complete flush leaves every flushed pair in its file; no flush touches any other file. */
  lemma {:induction false} FlushWrites(s: Store, order: seq<Name>, faults: map<Name, Option<Bytes>>)
    requires forall k :: k in order ==> k in s.cache
    ensures var (s', ok) := Flush(s, order, faults);
            && s'.cache == s.cache
            && (ok ==> forall k :: k in order ==> FileName(k) in s'.files && s'.files[FileName(k)] == s.cache[k])
            && (forall n :: (forall k :: k in order ==> n != FileName(k)) ==> SameFile(s.files, s'.files, n))
    decreases |order|
  {
    if order != [] {
      var key := order[0];
      var s1 := Save(s, key, s.cache[key], FaultFor(faults, key));
      assert forall n :: n != FileName(key) ==> SameFile(s.files, s1.files, n);
      if key !in faults {
        FlushWrites(s1, order[1..], faults);
        if key !in order[1..] {
          forall k | k in order[1..] ensures FileName(k) != FileName(key) {
            FileNameInjective(k, key);
          }
          assert SameFile(s1.files, Flush(s1, order[1..], faults).0.files, FileName(key));
        }
      }
      assert forall k :: k in order <==> k == key || k in order[1..];
      forall n | forall k :: k in order ==> n != FileName(k)
        ensures SameFile(s.files, Flush(s, order, faults).0.files, n)
      {
        assert n != FileName(key) && SameFile(s.files, s1.files, n);
        assert key !in faults ==> SameFile(s1.files, Flush(s1, order[1..], faults).0.files, n);
      }
    }
  }

  /**
   After any run, any Close without a failing write and any reopening: every cached pair whose
   file can be read is back, and anything more is a key that was not cached and whose latest
   disk operation failed (a removal, or the initial load), or that an earlier Close had dropped.
   Without such keys the reopened cache is the old one less the unreadable keys.
   */
  lemma CloseThenReopen(files: Files, unread: set<Name>, ops: seq<Op>, s: Store, order: seq<Name>,
                        faults: map<Name, Option<Bytes>>, unreadable: set<Name>)
    requires Runs(Opened(files, unread), ops, s) && Covers(order, s.cache)
    requires forall k :: k in s.cache ==> k !in faults
    ensures Restores(CloseAndReopen(s, order, faults, unreadable).cache, s, unreadable)
  {
    OpenFaithful(files, unread);
    RunFaithful(Opened(files, unread), ops, s);
    CloseSucceedsIff(s, order, faults);
    ReopenedRestores(s, order, faults, unreadable);
  }

  // ---------- what was put ----------

  /** An operation that lets the cached value of a key stand: a Close does so only if it fails. */
  ghost predicate Leaves(op: Op, key: Name) {
    match op
    case Put(k, _, _) => k != key || k == ""
    case Delete(k, _) => k != key
    case Close(order, faults) => exists k :: k in order && k in faults
    case Open(_) => false
  }

  /** The i-th operation is the last to have put the key, with this value, and all later ones let it stand. */
  ghost predicate LastPut(ops: seq<Op>, i: nat, key: Name, value: Bytes) {
    && i < |ops| && key != "" && ops[i].Put? && ops[i].key == key && ops[i].value == value
    && forall j :: i < j < |ops| ==> Leaves(ops[j], key)
  }

  predicate SameEntry(s: Store, s': Store, key: Name) {
    (key in s'.cache <==> key in s.cache) && (key in s.cache ==> s'.cache[key] == s.cache[key])
  }

  lemma {:induction false} FlushKeepsCache(s: Store, order: seq<Name>, faults: map<Name, Option<Bytes>>)
    requires forall k :: k in order ==> k in s.cache
    ensures Flush(s, order, faults).0.cache == s.cache && Flush(s, order, faults).0.closed == s.closed
    ensures forall k :: k in Flush(s, order, faults).0.failed ==> k in s.failed || k in faults
    decreases |order|
  {
    if order != [] && order[0] !in faults {
      FlushKeepsCache(Save(s, order[0], s.cache[order[0]], NoFault), order[1..], faults);
    }
  }

  lemma LeftAlone(s: Store, op: Op, key: Name)
    requires Enabled(s, op) && Leaves(op, key)
    ensures SameEntry(s, Next(s, op), key)
    ensures key !in s.closed ==> key !in Next(s, op).closed
    ensures key !in s.failed && (op.Close? ==> key !in op.faults) ==> key !in Next(s, op).failed
  {
    if op.Close? {
      FlushKeepsCache(s, op.order, op.faults);
      CloseSucceedsIff(s, op.order, op.faults);
    }
  }

  /** Left alone by a whole run, a key keeps its entry, and on disk too if no Close fails on it. */
  lemma {:induction false} LeftAloneThrough(s: Store, ops: seq<Op>, s': Store, key: Name)
    requires Runs(s, ops, s') && forall j :: 0 <= j < |ops| ==> Leaves(ops[j], key)
    ensures SameEntry(s, s', key)
    ensures && key !in s.closed && key !in s.failed
            && (forall j :: 0 <= j < |ops| && ops[j].Close? ==> key !in ops[j].faults)
            ==> key !in s'.closed && key !in s'.failed
    decreases |ops|
  {
    if ops != [] {
      LeftAlone(s, ops[0], key);
      assert forall j :: 0 <= j < |ops| - 1 ==> ops[1..][j] == ops[j + 1];
      LeftAloneThrough(Next(s, ops[0]), ops[1..], s', key);
    }
  }

  lemma LastPutLater(ops: seq<Op>, i: nat, key: Name, value: Bytes)
    requires ops != []
    ensures LastPut(ops[1..], i, key, value) <==> LastPut(ops, i + 1, key, value)
  {
    assert forall j :: 0 <= j < |ops| - 1 ==> ops[1..][j] == ops[j + 1];
    if LastPut(ops[1..], i, key, value) {
      forall j | i + 1 < j < |ops| ensures Leaves(ops[j], key) {
        assert ops[1..][j - 1] == ops[j];
      }
    }
  }

  /** The value last put under a key is the cached one, in every run and whatever failed. */
  lemma {:induction false} LastPutIsCached(s: Store, ops: seq<Op>, s': Store, i: nat, key: Name, value: Bytes)
    requires Runs(s, ops, s') && LastPut(ops, i, key, value)
    ensures key in s'.cache && s'.cache[key] == value
    decreases |ops|
  {
    if i == 0 {
      assert forall j :: 0 <= j < |ops| - 1 ==> ops[1..][j] == ops[j + 1];
      LeftAloneThrough(Next(s, ops[0]), ops[1..], s', key);
    } else {
      LastPutLater(ops, i - 1, key, value);
      LastPutIsCached(Next(s, ops[0]), ops[1..], s', i - 1, key, value);
    }
  }

  /** Only a Put enters a key, or enters it anew when its entry does not stand. */
  lemma EntryWasPut(s: Store, op: Op, key: Name)
    requires Enabled(s, op) && key in Next(s, op).cache && !op.Open?
    requires key !in s.cache || !Leaves(op, key)
    ensures op.Put? && op.key == key && key != "" && Next(s, op).cache[key] == op.value
  {
    if op.Close? {
      FlushKeepsCache(s, op.order, op.faults);
      CloseSucceedsIff(s, op.order, op.faults);
    }
  }

  lemma {:induction false} CachedWasPut(s: Store, ops: seq<Op>, s': Store, key: Name) returns (i: nat)
    requires Runs(s, ops, s') && key in s'.cache
    requires forall j :: 0 <= j < |ops| ==> !ops[j].Open?
    requires key in s.cache ==> exists j :: 0 <= j < |ops| && !Leaves(ops[j], key)
    ensures LastPut(ops, i, key, s'.cache[key])
    decreases |ops|
  {
    var s1 := Next(s, ops[0]);
    assert forall j :: 0 <= j < |ops| - 1 ==> ops[1..][j] == ops[j + 1];
    if key in s1.cache && forall j :: 0 <= j < |ops[1..]| ==> Leaves(ops[1..][j], key) {
      forall j | 0 < j < |ops| ensures Leaves(ops[j], key) {
        assert ops[1..][j - 1] == ops[j];
      }
      LeftAloneThrough(s1, ops[1..], s', key);
      EntryWasPut(s, ops[0], key);
      i := 0;
    } else {
      i := CachedWasPut(s1, ops[1..], s', key);
      LastPutLater(ops, i, key, s'.cache[key]);
      i := i + 1;
    }
  }

  /**
   The cache, read off the history: from a store without the key, and with no reopening, the
   key is cached at the end iff some Put of it was followed only by operations that let it
   stand, and its value is the one that was put. So after any Delete or successful Close it is
   gone until it is put again, and no failing disk operation loses it.
   */
  lemma CachedIffPut(s: Store, ops: seq<Op>, s': Store, key: Name)
    requires Runs(s, ops, s') && key !in s.cache && forall j :: 0 <= j < |ops| ==> !ops[j].Open?
    ensures key in s'.cache <==> exists i, value :: LastPut(ops, i, key, value)
    ensures forall i, value :: LastPut(ops, i, key, value) ==> key in s'.cache && s'.cache[key] == value
  {
    if key in s'.cache {
      var i := CachedWasPut(s, ops, s', key);
    }
    forall i, value | LastPut(ops, i, key, value) ensures key in s'.cache && s'.cache[key] == value {
      LastPutIsCached(s, ops, s', i, key, value);
    }
  }

  /** What was last put under a key comes back from a Close without a failing write and a reopening that reads it. */
  lemma PutComesBack(files: Files, unread: set<Name>, ops: seq<Op>, s: Store, i: nat, key: Name, value: Bytes,
                     order: seq<Name>, faults: map<Name, Option<Bytes>>, unreadable: set<Name>)
    requires Runs(Opened(files, unread), ops, s) && LastPut(ops, i, key, value) && Covers(order, s.cache)
    requires (forall k :: k in s.cache ==> k !in faults) && key !in unreadable
    ensures var cache := CloseAndReopen(s, order, faults, unreadable).cache;
            key in cache && cache[key] == value
  {
    LastPutIsCached(Opened(files, unread), ops, s, i, key, value);
    CloseThenReopen(files, unread, ops, s, order, faults, unreadable);
  }

  lemma {:induction false} LastPutOnDisk(s: Store, ops: seq<Op>, s': Store, i: nat, key: Name, value: Bytes)
    requires Runs(s, ops, s') && LastPut(ops, i, key, value) && ops[i].fault.NoFault?
    requires forall j :: i < j < |ops| && ops[j].Close? ==> key !in ops[j].faults
    ensures key !in s'.closed && key !in s'.failed
    decreases |ops|
  {
    assert forall j :: 0 <= j < |ops| - 1 ==> ops[1..][j] == ops[j + 1];
    if i == 0 {
      LeftAloneThrough(Next(s, ops[0]), ops[1..], s', key);
    } else {
      LastPutLater(ops, i - 1, key, value);
      LastPutOnDisk(Next(s, ops[0]), ops[1..], s', i - 1, key, value);
    }
  }

  /**
   Write-through: without any Close, what a Put wrote without a fault is there for a new store
   on the directory, if nothing touched the key since and no Close has failed on its file.
   */
  lemma PutIsDurable(files: Files, unread: set<Name>, ops: seq<Op>, s: Store, i: nat, key: Name, value: Bytes,
                     unreadable: set<Name>)
    requires Runs(Opened(files, unread), ops, s) && LastPut(ops, i, key, value) && ops[i].fault.NoFault?
    requires (forall j :: i < j < |ops| && ops[j].Close? ==> key !in ops[j].faults) && key !in unreadable
    ensures var cache := Next(s, Open(unreadable)).cache;
            key in cache && cache[key] == value
  {
    OpenFaithful(files, unread);
    RunFaithful(Opened(files, unread), ops, s);
    LastPutIsCached(Opened(files, unread), ops, s, i, key, value);
    LastPutOnDisk(Opened(files, unread), ops, s, i, key, value);
    assert Mirrored(s, key);
    OpenFaithful(s.files, unreadable);
  }

  // ---------- without failures ----------

  predicate Faultless(op: Op) {
    match op
    case Put(_, _, fault) => fault.NoFault?
    case Delete(_, removeFails) => !removeFails
    case Close(_, faults) => faults == map[]
    case Open(unreadable) => unreadable == {}
  }

  /** Every Close is followed by an Open some time later. */
  ghost predicate Reopened(ops: seq<Op>) {
    forall j :: 0 <= j < |ops| && ops[j].Close? ==> exists k :: j < k < |ops| && ops[k].Open?
  }

  lemma ReopenedLater(ops: seq<Op>)
    requires ops != [] && Reopened(ops)
    ensures Reopened(ops[1..])
    ensures ops[0].Close? ==> exists k :: 0 <= k < |ops[1..]| && ops[1..][k].Open?
  {
    forall j | 0 <= j < |ops[1..]| && ops[1..][j].Close? ensures exists k :: j < k < |ops[1..]| && ops[1..][k].Open? {
      assert ops[j + 1].Close?;
      var k :| j + 1 < k < |ops| && ops[k].Open?;
      assert ops[1..][k - 1].Open?;
    }
    if ops[0].Close? {
      var k :| 0 < k < |ops| && ops[k].Open?;
      assert ops[1..][k - 1].Open?;
    }
  }

  /** No disk operation has failed, and no dropped key is cached. */
  ghost predicate Clean(s: Store) { Faithful(s) && s.failed == {} && s.cache.Keys !! s.closed }

  lemma FaultlessStep(s: Store, op: Op)
    requires Clean(s) && Enabled(s, op) && Faultless(op)
    ensures Clean(Next(s, op))
    ensures s.closed == {} && !op.Close? ==> Next(s, op).closed == {}
  {
    NextFaithful(s, op);
    if op.Close? {
      FlushKeepsCache(s, op.order, op.faults);
      CloseSucceedsIff(s, op.order, op.faults);
    } else if op.Delete? && op.key in s.cache {
      assert Mirrored(s, op.key);
    }
  }

  lemma {:induction false} FaultlessRun(s: Store, ops: seq<Op>, s': Store)
    requires Clean(s) && Runs(s, ops, s') && (forall j :: 0 <= j < |ops| ==> Faultless(ops[j])) && Reopened(ops)
    requires s.closed == {} || exists k :: 0 <= k < |ops| && ops[k].Open?
    ensures Clean(s') && s'.closed == {}
    decreases |ops|
  {
    if ops != [] {
      assert forall j :: 0 <= j < |ops| - 1 ==> ops[1..][j] == ops[j + 1];
      FaultlessStep(s, ops[0]);
      ReopenedLater(ops);
      if s.closed != {} && !ops[0].Open? {
        var k :| 0 <= k < |ops| && ops[k].Open?;
        assert ops[1..][k - 1].Open?;
      }
      FaultlessRun(Next(s, ops[0]), ops[1..], s');
    }
  }

  lemma RestoresAll(cache: map<Name, Bytes>, s: Store)
    requires Restores(cache, s, {}) && s.failed == {} && s.closed == {}
    ensures cache == s.cache
  {
    assert s.cache - {} == s.cache;
  }

  /** When no disk operation of the run fails and every Close was followed by a reopening: exactly the old cache. */
  lemma FaultlessReopen(files: Files, ops: seq<Op>, s: Store, order: seq<Name>)
    requires Runs(Opened(files, {}), ops, s) && (forall j :: 0 <= j < |ops| ==> Faultless(ops[j])) && Reopened(ops)
    requires Covers(order, s.cache)
    ensures CloseAndReopen(s, order, map[], {}).cache == s.cache
  {
    OpenFaithful(files, {});
    FaultlessRun(Opened(files, {}), ops, s);
    CloseThenReopen(files, {}, ops, s, order, map[], {});
    RestoresAll(CloseAndReopen(s, order, map[], {}).cache, s);
  }

  // ---------- the store itself ----------

  class Directory {
    var files: Files

    constructor (files: Files)
      ensures this.files == files
    {
      this.files := files;
    }

    method WriteFile(name: Name, value: Bytes, fault: WriteFault) returns (ok: bool)
      modifies this
      ensures ok == fault.NoFault? && files == Written(old(files), name, value, fault)
    {
      match fault
      case NoFault => files := files[name := value]; return true;
      case Fault(Some(left)) => files := files[name := left]; return false;
      case Fault(None) => files := files - {name}; return false;
    }

    method Remove(name: Name, fails: bool) returns (ok: bool)
      modifies this
      ensures ok == (!fails && name in old(files))
      ensures files == if ok then old(files) - {name} else old(files)
    {
      ok := !fails && name in files;
      if ok {
        files := files - {name};
      }
    }
  }

  class DB {
    const dir: Directory
    var cache: map<Name, Bytes>
    ghost var failed: set<Name>
    ghost var closed: set<Name>

    ghost function View(): Store
      reads this, dir
    {
      Store(cache, dir.files, failed, closed)
    }

    /** Loading: names lists the directory; the files of the unreadable keys cannot be read. */
    constructor (dir: Directory, names: seq<Name>, unreadable: set<Name>)
      requires forall n :: n in names <==> n in dir.files
      ensures this.dir == dir && View() == Opened(dir.files, unreadable)
      ensures forall k :: k in cache <==> FileName(k) in dir.files && k !in unreadable
      ensures forall k :: k in cache ==> cache[k] == dir.files[FileName(k)]
    {
      this.dir := dir;
      cache := map[];
      failed, closed := KeysOnDisk(dir.files) * unreadable, {};
      new;
      for i := 0 to |names|
        invariant dir.files == old(dir.files)
        invariant failed == KeysOnDisk(dir.files) * unreadable && closed == {}
        invariant forall k :: k in cache <==> FileName(k) in names[..i] && k !in unreadable
        invariant forall k :: k in cache ==> FileName(k) in dir.files && cache[k] == dir.files[FileName(k)]
      {
        var name := names[i];
        FileNamesAreKeys("", name);
        assert names[..i + 1] == names[..i] + [name] && name in names;
        if Ext(name) == DAT {
          var key := KeyOf(name);
          if key !in unreadable {
            cache := cache[key := dir.files[name]];
          }
          forall k ensures FileName(k) == name <==> k == key {
            FileNameInjective(k, key);
          }
        } else {
          forall k ensures FileName(k) != name {
            FileNamesAreKeys(k, name);
          }
        }
      }
      assert names[..|names|] == names;
      OnDiskAll(dir.files);
      assert cache == Opened(dir.files, unreadable).cache;
    }

    /** Opening fails when the directory cannot be created or cannot be listed, and then changes nothing. */
    static method NewLevelDB(dir: Directory, created: bool, listing: Option<seq<Name>>, unreadable: set<Name>)
      returns (r: Result<DB, Error>)
      requires listing.Some? ==> forall n :: n in listing.value <==> n in dir.files
      ensures r.Ok? <==> created && listing.Some?
      ensures r.Ok? ==> fresh(r.value) && r.value.dir == dir && r.value.View() == Opened(dir.files, unreadable)
      ensures r.Ok? ==> forall k :: k in r.value.cache <==> FileName(k) in dir.files && k !in unreadable
      ensures r.Err? ==> r.error == DiskError
    {
      if !created || listing.None? {
        return Err(DiskError);
      }
      var db := new DB(dir, listing.value, unreadable);
      return Ok(db);
    }

    method Put(key: Name, value: Bytes, fault: WriteFault) returns (r: Result<(), Error>)
      modifies this, dir
      ensures View() == Next(old(View()), Op.Put(key, value, fault))
      ensures r == if key == "" then Err(EmptyKey) else if fault.NoFault? then Ok(()) else Err(DiskError)
      ensures key == "" ==> cache == old(cache) && dir.files == old(dir.files)
      ensures key != "" ==>
                && cache == old(cache)[key := value]
                && dir.files == (if fault.NoFault? then old(dir.files)[FileName(key) := value]
                                 else if fault.left.Some? then old(dir.files)[FileName(key) := fault.left.value]
                                 else old(dir.files) - {FileName(key)})
                && failed == (if fault.NoFault? then old(failed) - {key} else old(failed) + {key})
                && closed == old(closed) - {key}
    {
      if key == "" {
        return Err(EmptyKey);
      }
      cache := cache[key := value];
      var ok := dir.WriteFile(FileName(key), value, fault);
      failed, closed := Noted(failed, key, ok), closed - {key};
      return if ok then Ok(()) else Err(DiskError);
    }

    method Get(key: Name) returns (r: Result<Bytes, Error>)
      ensures r == if key in cache then Ok(cache[key]) else Err(KeyNotFound)
    {
      if key !in cache {
        return Err(KeyNotFound);
      }
      return Ok(cache[key]);
    }

    method Delete(key: Name, removeFails: bool) returns (r: Result<(), Error>)
      modifies this, dir
      ensures View() == Next(old(View()), Op.Delete(key, removeFails))
      ensures r == if key !in old(cache) then Err(KeyNotFound)
                   else if !removeFails && FileName(key) in old(dir.files) then Ok(()) else Err(DiskError)
      ensures cache == old(cache) - {key}
      ensures dir.files == if r.Ok? then old(dir.files) - {FileName(key)} else old(dir.files)
      ensures key in old(cache) ==>
                && failed == (if r.Ok? then old(failed) - {key} else old(failed) + {key})
                && closed == old(closed) - {key}
    {
      if key !in cache {
        return Err(KeyNotFound);
      }
      cache := cache - {key};
      var ok := dir.Remove(FileName(key), removeFails);
      failed, closed := Noted(failed, key, ok), closed - {key};
      return if ok then Ok(()) else Err(DiskError);
    }

    /** order is the iteration order of the cache. */
    method Close(order: seq<Name>, faults: map<Name, Option<Bytes>>) returns (r: Result<(), Error>)
      requires Covers(order, cache)
      modifies this, dir
      ensures View() == Next(old(View()), Op.Close(order, faults))
      ensures r == if forall k :: k in old(cache) ==> k !in faults then Ok(()) else Err(DiskError)
      ensures r.Ok? ==> cache == map[] && closed == old(closed) + old(cache).Keys
      ensures r.Ok? ==> forall k :: k in old(cache) ==>
                          FileName(k) in dir.files && dir.files[FileName(k)] == old(cache)[k]
      ensures r.Err? ==> cache == old(cache) && closed == old(closed)
      ensures forall n :: (forall k :: k in old(cache) ==> n != FileName(k)) ==>
                            SameFile(old(dir.files), dir.files, n)
    {
      FlushWrites(View(), order, faults);
      CloseSucceedsIff(View(), order, faults);
      for i := 0 to |order|
        invariant cache == old(cache) && closed == old(closed)
        invariant forall k :: k in order[i..] ==> k in cache
        invariant Flush(old(View()), order, faults) == Flush(View(), order[i..], faults)
      {
        assert order[i..][0] == order[i] && order[i..][1..] == order[i + 1..];
        assert order[i] in order[i..];
        var ok := dir.WriteFile(FileName(order[i]), cache[order[i]], FaultFor(faults, order[i]));
        failed := Noted(failed, order[i], ok);
        if !ok {
          assert View() == Flush(old(View()), order, faults).0;
          return Err(DiskError);
        }
      }
      closed := closed + cache.Keys;
      cache := map[];
      return Ok(());
    }
  }
}
