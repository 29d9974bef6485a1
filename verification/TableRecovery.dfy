/** Recovery into a table with a memory limit: loading the last snapshot and replaying the surviving
    log with the operations of the table itself. */
module TableRecovery {
  import opened Codec
  import Snapshot
  import Wal
  import R = Recovery
  import B = BoundedReplay
  import T = HashTable

  /** The sets that loading a snapshot stands for. */
  function Loaded(snapshot: R.Option<Bytes>): seq<B.Item> {
    match snapshot
    case None => []
    case Some(file) => T.SetsOf(Snapshot.Load(file).inserted)
  }

  /** All that recovery replays: the entries of the snapshot, then the records of the log. */
  function Items(snapshot: R.Option<Bytes>, log: Bytes): seq<B.Item> {
    Loaded(snapshot) + T.ItemsOf(Wal.ReadAll(log))
  }

  lemma {:induction false} LoadingIsReplaying(m: R.Contents, entries: seq<Snapshot.Entry>, now: nat)
    ensures R.InsertAll(m, entries) == R.Replay(m, B.Records(T.SetsOf(entries)), now)
    decreases |entries|
  {
    if entries != [] {
      var n := |entries| - 1;
      assert B.Records(T.SetsOf(entries))[..n] == B.Records(T.SetsOf(entries[..n]));
      LoadingIsReplaying(m, entries[..n], now);
    }
  }

  lemma {:induction false} ReplaySplits(m: R.Contents, a: seq<Wal.Record>, b: seq<Wal.Record>, now: nat)
    ensures R.Replay(m, a + b, now) == R.Replay(R.Replay(m, a, now), b, now)
    decreases |b|
  {
    hide R.Replayed;
    if b == [] {
      assert a + b == a;
    } else {
      var n := |b| - 1;
      assert (a + b)[..|a + b| - 1] == a + b[..n];
      ReplaySplits(m, a, b[..n], now);
    }
  }

  lemma RecordsOfItems(snapshot: R.Option<Bytes>, log: Bytes)
    ensures B.Records(Items(snapshot, log)) == B.Records(Loaded(snapshot)) + Wal.ReadAll(log)
  {
    hide Wal.ReadAll, Loaded;
  }

  lemma RecoverIsReplay(snapshot: R.Option<Bytes>, log: Bytes, now: nat)
    ensures R.Recover(snapshot, log, now) == R.Replay(map[], B.Records(Items(snapshot, log)), now)
  {
    hide Wal.ReadAll, Snapshot.Load, R.Replayed, Items, B.Records;
    RecordsOfItems(snapshot, log);
    ReplaySplits(map[], B.Records(Loaded(snapshot)), Wal.ReadAll(log), now);
    NoRecords();
    if snapshot.Some? {
      LoadingIsReplaying(map[], Snapshot.Load(snapshot.value).inserted, now);
    }
  }

  lemma NoRecords()
    ensures B.Records([]) == []
  {
  }

  /** A key that recovery without a limit has and the table does not. */
  ghost predicate LostIn(snapshot: R.Option<Bytes>, log: Bytes, evicted: seq<seq<Bytes>>, now: nat, key: Bytes) {
    |Items(snapshot, log)| == |evicted| && B.Lost(map[], Items(snapshot, log), evicted, now, key)
  }

  /** What recovery into an empty table gave, with the keys it evicted. */
  ghost predicate RecoveredTo(
    start: B.State, end: B.State, snapshot: R.Option<Bytes>, log: Bytes, evicted: seq<seq<Bytes>>, limit: nat, now: nat)
  {
    && B.Sound(start, Items(snapshot, log), evicted, limit, now)
    && end == B.ReplayEvicting(start, Items(snapshot, log), evicted, now)
  }

  /** Recovers into an empty table, whatever its limit and policy. The items say beforehand whether
      the table will evict. The keys that are lost are those of the evictions that no later record undoes. */
  method Recover(table: T.Table, snapshot: R.Option<Bytes>, log: Bytes, now: U64)
    returns (ok: bool, ghost evicted: seq<seq<Bytes>>)
    requires table.Valid() && table.model == map[]
    modifies table, table.lru, table.lfu, table.wal
    ensures table.Valid() && (ok <==> snapshot.None? || Snapshot.Load(snapshot.value).ok)
    ensures RecoveredTo(old(table.State()), table.State(), snapshot, log, evicted, table.Limit(), now)
    ensures
      var records, m, m' := B.Records(Items(snapshot, log)), T.ContentsOf(table.model), R.Recover(snapshot, log, now);
      && (B.Fits(map[], records, table.Limit(), now) ==> m == m')
      && (B.NoEmptyKey(map[], records) ==> (B.Evicts(evicted) <==> !B.Fits(map[], records, table.Limit(), now)))
      && (m == m' <==> forall key :: !LostIn(snapshot, log, evicted, now, key))
      && (forall key ::
            if LostIn(snapshot, log, evicted, now, key) then key in m' && key !in m else R.SameAt(m, m', key))
  {
    hide *;
    ok, evicted := true, [];
    ghost var start := table.State();
    table.StateIs();
    Nothing();
    B.NoItems(start, table.Limit(), now);
    if snapshot.Some? {
      var inserted;
      var reader := new Snapshot.Reader(snapshot.value);
      ok, inserted := reader.LoadAll();
      evicted := table.LoadEntries(inserted, now);
    }
    LoadedIs(snapshot);
    ghost var loaded := evicted;
    var _, more := table.ReplayLog(log, now);
    evicted := loaded + more;
    B.Joined(start, Loaded(snapshot), loaded, T.ItemsOf(Wal.ReadAll(log)), more, table.Limit(), now);
    ItemsIs(snapshot, log);
    table.StateIs();
    RecoveredIs(start, table.State(), snapshot, log, evicted, table.Limit(), now);
  }

  lemma ItemsIs(snapshot: R.Option<Bytes>, log: Bytes)
    ensures Items(snapshot, log) == Loaded(snapshot) + T.ItemsOf(Wal.ReadAll(log))
  {
  }

  lemma RecoveredIs(
    start: B.State, end: B.State, snapshot: R.Option<Bytes>, log: Bytes, evicted: seq<seq<Bytes>>, limit: nat, now: nat)
    requires start.contents == map[] && B.Sound(start, Items(snapshot, log), evicted, limit, now)
    requires |Items(snapshot, log)| == |evicted| && end == B.ReplayEvicting(start, Items(snapshot, log), evicted, now)
    ensures RecoveredTo(start, end, snapshot, log, evicted, limit, now)
    ensures var records, m, m' := B.Records(Items(snapshot, log)), end.contents, R.Recover(snapshot, log, now);
      && (B.Fits(map[], records, limit, now) ==> m == m')
      && (B.NoEmptyKey(map[], records) ==> (B.Evicts(evicted) <==> !B.Fits(map[], records, limit, now)))
      && (m == m' <==> forall key :: !LostIn(snapshot, log, evicted, now, key))
      && (forall key ::
            if LostIn(snapshot, log, evicted, now, key) then key in m' && key !in m else R.SameAt(m, m', key))
  {
    hide Items, B.Sound, B.ReplayEvicting, B.Records, B.Fits, B.NoEmptyKey, B.Evicts, R.Recover, R.SameAt, B.Lost;
    RecoverIsReplay(snapshot, log, now);
    B.EvictsExactly(start, Items(snapshot, log), evicted, limit, now);
    B.LosesExactly(start, Items(snapshot, log), evicted, limit, now);
    forall key ensures LostIn(snapshot, log, evicted, now, key) <==>
      B.Lost(start.contents, Items(snapshot, log), evicted, now, key)
    {
    }
    forall key ensures
      if LostIn(snapshot, log, evicted, now, key) then key in R.Recover(snapshot, log, now) && key !in end.contents
      else R.SameAt(end.contents, R.Recover(snapshot, log, now), key)
    {
      B.ReplayAt(start, Items(snapshot, log), evicted, limit, now, key);
    }
  }

  /** Recovery after a crash that keeps the promise without a limit: a table the records fit holds the
      contents after some of the first writes of the run, and all durable ones among them. */
  method RecoverRun(ghost run: seq<R.Step>, table: T.Table, snapshot: R.Option<Bytes>, log: Bytes, now: U64)
    requires snapshot == R.Exec(run).snapshot && table.Valid() && table.model == map[]
    modifies table, table.lru, table.lfu, table.wal
    ensures table.Valid()
    ensures B.Fits(map[], B.Records(Items(snapshot, log)), table.Limit(), now) ==>
      (R.Promise(run, log, now) <==> R.DurablePrefix(run, T.ContentsOf(table.model)))
  {
    hide *;
    var _, evicted := Recover(table, snapshot, log, now);
    PromiseIs(run, log, now);
  }

  lemma PromiseIs(run: seq<R.Step>, log: Bytes, now: nat)
    ensures R.Promise(run, log, now) <==> R.DurablePrefix(run, R.Recover(R.Exec(run).snapshot, log, now))
  {
  }

  lemma Nothing()
    ensures T.ContentsOf(map[]) == map[]
  {
  }

  lemma LoadedIs(snapshot: R.Option<Bytes>)
    ensures snapshot.None? ==> Loaded(snapshot) == []
    ensures snapshot.Some? ==> Loaded(snapshot) == T.SetsOf(Snapshot.Load(snapshot.value).inserted)
    ensures forall ok, entries ::
      snapshot.Some? && Snapshot.LoadResult(ok, entries) == Snapshot.Load(snapshot.value) ==>
      entries == Snapshot.Load(snapshot.value).inserted
  {
  }
}
