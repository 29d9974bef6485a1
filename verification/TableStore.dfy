/** The table with its log and its snapshot file carries out the steps of the store in Recovery, so that
    what is proved there of every run and every crash holds of the table. */
module TableStore {
  import opened Codec
  import opened Lists
  import opened Buckets
  import Wal
  import R = Recovery
  import L = TableLog
  import B = BoundedReplay
  import T = HashTable
  import TR = TableRecovery

  /** The steps that make these writes. */
  function Steps(ws: seq<R.Write>): (run: seq<R.Step>)
    ensures |run| == |ws|
  {
    seq(|ws|, i requires 0 <= i < |ws| => R.DoWrite(ws[i]))
  }

  function LogIn(s: R.Store): Wal.LogState {
    Wal.LogState(s.wal, s.pending, s.batch)
  }

  /** A crash leaves what is in the log file and any part of what is still to be written to it. */
  ghost predicate Survives(log: Wal.LogState, bytes: Bytes) {
    var all := log.file + Wal.EncodeAll(log.pending);
    exists n :: |log.file| <= n <= |all| && bytes == all[..n]
  }

  lemma SurvivesIs(s: R.Store, bytes: Bytes)
    ensures Survives(LogIn(s), bytes) <==> R.CanSurvive(s, bytes)
  {
    hide Wal.EncodeAll;
  }

  lemma OneWrite(run: seq<R.Step>, w: R.Write)
    ensures var s, s' := R.Exec(run), R.Exec(run + [R.DoWrite(w)]);
            LogIn(s') == Wal.Logged(LogIn(s), R.RecordOf(w)) && s'.snapshot == s.snapshot
    ensures R.Writes(run + [R.DoWrite(w)]) == R.Writes(run) + [w]
  {
    hide Wal.EncodeAll, R.RecordOf, R.Apply;
    assert (run + [R.DoWrite(w)])[..|run|] == run;
  }

  /** Making writes changes the log as appending their records does. */
  lemma {:induction false} ManyWrites(run: seq<R.Step>, ws: seq<R.Write>)
    ensures var s, s' := R.Exec(run), R.Exec(run + Steps(ws));
            LogIn(s') == Wal.LoggedAll(LogIn(s), R.RecordsOf(ws)) && s'.snapshot == s.snapshot
    ensures R.Writes(run + Steps(ws)) == R.Writes(run) + ws
    decreases |ws|
  {
    hide LogIn, Wal.Logged, R.Exec, R.Writes, R.RecordOf;
    if ws == [] {
      assert run + Steps(ws) == run;
    } else {
      var n := |ws| - 1;
      ManyWrites(run, ws[..n]);
      OneWrite(run + Steps(ws[..n]), ws[n]);
      assert run + Steps(ws) == run + Steps(ws[..n]) + [R.DoWrite(ws[n])];
      assert R.RecordsOf(ws)[..n] == R.RecordsOf(ws[..n]);
    }
  }

  lemma OtherStep(run: seq<R.Step>, step: R.Step)
    requires !step.DoWrite?
    ensures R.Exec(run + [step]) == R.Next(R.Exec(run), step) && R.Writes(run + [step]) == R.Writes(run)
  {
    hide R.Next;
    assert (run + [step])[..|run|] == run;
  }

  lemma {:induction false} ContentsOfRun(run: seq<R.Step>)
    ensures R.Exec(run).contents == R.After(map[], R.Writes(run))
    decreases |run|
  {
    hide Wal.EncodeAll, R.RecordOf, R.Apply, R.Enumerates;
    if run != [] {
      var before, step := run[..|run| - 1], run[|run| - 1];
      ContentsOfRun(before);
      if step.DoWrite? {
        R.OneMoreWrite(map[], R.Writes(before), step.write);
      }
    }
  }

  /** Unless an insert evicted its own key, the run and the table agree on the contents. */
  lemma SameContents(run: seq<R.Step>, trace: seq<L.Op>)
    requires R.Writes(run) == L.LogOf(trace)
    ensures R.Exec(run).contents == L.Live(trace) <==> forall key :: !L.Lost(trace, key)
  {
    hide R.Exec, R.Writes, R.After, R.Replay, L.LogOf, L.Live, L.Lost;
    ContentsOfRun(run);
    R.ReplayIsWriting(map[], L.LogOf(trace), 0);
    L.ReplayRebuildsExactly(trace, 0);
  }

  lemma RecoveryGives(run: seq<R.Step>, trace: seq<L.Op>, bytes: Bytes, now: nat)
    requires R.Writes(run) == L.LogOf(trace) && R.ShortWrites(L.LogOf(trace)) && R.CanSurvive(R.Exec(run), bytes)
    ensures var ws, from, seen, j := L.LogOf(trace), R.LogFrom(run), R.SnapshotAt(run), R.Reached(run, bytes);
            var m := R.Recover(R.Exec(run).snapshot, bytes, now);
            && from <= R.Synced(run) <= j <= |ws| && seen <= |ws|
            && m == R.After(R.After(map[], ws[..seen]), ws[from..j])
            && (from <= seen && j == |ws| && (forall key :: !L.Lost(trace, key)) ==> m == L.Live(trace))
  {
    hide *;
    var ws := L.LogOf(trace);
    R.RecoveryGives(run, bytes, now);
    if R.LogFrom(run) <= R.SnapshotAt(run) && R.Reached(run, bytes) == |ws| {
      R.RecoveryIsPrefix(run, bytes, now);
      ContentsOfRun(run);
      SameContents(run, trace);
      assert ws[..|ws|] == ws;
    }
  }

  /** An operation of the table appends the records of its writes and nothing else. */
  lemma Carried(run: seq<R.Step>, trace: seq<L.Op>, op: L.Op, mark: Wal.Mark, log: Wal.LogState, log': Wal.LogState)
    requires R.Writes(run) == L.LogOf(trace) && mark.at <= |L.LogOf(trace)|
    requires log == Wal.LoggedAll(mark.state, R.RecordsOf(L.LogOf(trace))[mark.at..])
    requires mark.at <= |L.LogOf(trace + [op])|
    requires log' == Wal.LoggedAll(mark.state, R.RecordsOf(L.LogOf(trace + [op]))[mark.at..])
    ensures var run' := run + Steps(L.LoggedBy(op));
            && R.Writes(run') == L.LogOf(trace + [op]) && R.Exec(run').snapshot == R.Exec(run).snapshot
            && (log == LogIn(R.Exec(run)) ==> log' == LogIn(R.Exec(run')))
  {
    hide *;
    var rs, more := R.RecordsOf(L.LogOf(trace)), R.RecordsOf(L.LoggedBy(op));
    OneMoreLogged(trace, op);
    assert (rs + more)[mark.at..] == rs[mark.at..] + more;
    Wal.LoggedAllSplits(mark.state, rs[mark.at..], more);
    ManyWrites(run, L.LoggedBy(op));
  }

  lemma OneMoreLogged(trace: seq<L.Op>, op: L.Op)
    ensures L.LogOf(trace + [op]) == L.LogOf(trace) + L.LoggedBy(op)
    ensures R.RecordsOf(L.LogOf(trace + [op])) == R.RecordsOf(L.LogOf(trace)) + R.RecordsOf(L.LoggedBy(op))
  {
    hide L.LoggedBy, R.RecordOf;
    assert (trace + [op])[..|trace|] == trace;
  }

  class Store {
    const table: T.Table
    var snapshot: R.Option<Bytes>
    ghost var run: seq<R.Step>

    ghost predicate Valid()
      reads this, table, table.lru, table.lfu, table.wal
    {
      table.Valid() && table.wal != null && R.Writes(run) == L.LogOf(table.trace)
    }

    /** What is on disk, or on its way there, is what the run leaves. */
    ghost predicate Refines()
      reads this, table.wal
    {
      table.wal != null && table.wal.State() == LogIn(R.Exec(run)) && snapshot == R.Exec(run).snapshot
    }

    constructor (hash: Hash, capacity: nat, limit: nat, leastRecent: bool, batchSize: nat)
      ensures Valid() && Refines() && run == [R.EnableLog(batchSize)] && snapshot == R.None
      ensures table.model == map[] && table.trace == []
      ensures table.Limit() == limit && (table.lru != null <==> leastRecent)
      ensures fresh(table) && fresh(table.wal)
      ensures (table.lru != null ==> fresh(table.lru)) && (table.lfu != null ==> fresh(table.lfu))
    {
      table := new T.Table(hash, capacity, limit, leastRecent, true, batchSize);
      snapshot := R.None;
      run := [R.EnableLog(batchSize)];
      new;
      hide *;
      FirstRun(batchSize);
      ValidFrom();
      RefinesFrom();
    }

    /** A set, and the deletions of what the table evicts for it. */
    method Insert(key: Bytes, value: Snapshot.ValueEntry) returns (ghost victims: seq<Bytes>)
      requires Valid()
      modifies this`run, table, table.lru, table.lfu, table.wal
      ensures Valid() && (old(Refines()) ==> Refines())
      ensures var op := L.Inserted(key, T.SlotOf(value), victims);
              table.trace == old(table.trace) + [op] && run == old(run) + Steps(L.LoggedBy(op))
      ensures table.model == (old(table.model) - Members(victims))[key := value]
      ensures T.EachNeeded(old(table.model), victims, table.Limit())
    {
      hide *;
      ValidIs();
      RefinesIs();
      LogIs();
      var _, evicted := table.Insert(key, value);
      victims := evicted;
      ghost var op := L.Inserted(key, T.SlotOf(value), victims);
      run := run + Steps(L.LoggedBy(op));
      LogIs();
      Carried(old(run), old(table.trace), op, table.Marked(), old(table.wal.State()), table.wal.State());
      ValidFrom();
      RefinesFrom();
    }

    method Remove(key: Bytes) returns (found: bool)
      requires Valid()
      modifies this`run, table, table.lru, table.lfu, table.wal
      ensures Valid() && (old(Refines()) ==> Refines())
      ensures found == (key in old(table.model)) && table.model == old(table.model) - {key}
      ensures table.trace == old(table.trace) + [L.Removed(key)] && run == old(run) + Steps([R.Del(key)])
    {
      hide *;
      ValidIs();
      RefinesIs();
      LogIs();
      found := table.Remove(key);
      ghost var op := L.Removed(key);
      RemovalIs(key);
      run := run + Steps(L.LoggedBy(op));
      LogIs();
      Carried(old(run), old(table.trace), op, table.Marked(), old(table.wal.State()), table.wal.State());
      ValidFrom();
      RefinesFrom();
    }

    method FlushLog()
      requires Valid()
      modifies this`run, table.wal
      ensures Valid() && run == old(run) + [R.FlushLog] && (old(Refines()) ==> Refines())
    {
      hide *;
      ValidIs();
      RefinesIs();
      table.FlushWal();
      run := run + [R.FlushLog];
      OtherStep(old(run), R.FlushLog);
      NextIs(R.Exec(old(run)), 0);
      ValidFrom();
      RefinesFrom();
    }

    method EnableLog(batchSize: nat)
      requires Valid()
      modifies this`run, table.wal
      ensures Valid() && run == old(run) + [R.EnableLog(batchSize)] && (old(Refines()) ==> Refines())
    {
      hide *;
      ValidIs();
      RefinesIs();
      table.EnableWal(batchSize);
      run := run + [R.EnableLog(batchSize)];
      OtherStep(old(run), R.EnableLog(batchSize));
      NextIs(R.Exec(old(run)), batchSize);
      ValidFrom();
      RefinesFrom();
    }

    method TruncateLog()
      requires Valid()
      modifies this`run, table.wal
      ensures Valid() && run == old(run) + [R.TruncateLog] && (old(Refines()) ==> Refines())
    {
      hide *;
      ValidIs();
      RefinesIs();
      table.TruncateWal();
      run := run + [R.TruncateLog];
      OtherStep(old(run), R.TruncateLog);
      NextIs(R.Exec(old(run)), 0);
      ValidFrom();
      RefinesFrom();
    }

    /** Writes the entries of the table to the snapshot file. */
    method TakeSnapshot() returns (ghost entries: seq<Snapshot.Entry>)
      requires Valid()
      modifies this`run, this`snapshot
      ensures Valid() && run == old(run) + [R.TakeSnapshot(entries)]
      ensures snapshot == R.Some(Snapshot.SnapshotBytes(entries))
      ensures |entries| < TwoTo64 ==> R.Enumerates(entries, T.ContentsOf(table.model))
      ensures old(Refines()) && |entries| < TwoTo64 && (forall key :: !L.Lost(table.trace, key)) ==> Refines()
    {
      hide *;
      ValidIs();
      RefinesIs();
      table.Parts();
      var es := table.Entries();
      entries := es;
      var writer := new Snapshot.Writer();
      writer.Write(es);
      snapshot := R.Some(writer.file);
      run := run + [R.TakeSnapshot(es)];
      SameContents(old(run), table.trace);
      OtherStep(old(run), R.TakeSnapshot(es));
      SnapshotIs(R.Exec(old(run)), es);
      ValidFrom();
      RefinesFrom();
    }

    // ----- Crashes

    /** Everything the run says about the log, seen from the table: which of its records are durable. */
    lemma RunIs()
      requires Valid() && Refines() && R.ShortWrites(L.LogOf(table.trace))
      ensures var ws := L.LogOf(table.trace);
              && R.Writes(run) == ws && |table.wal.buffer| <= |ws| && R.Synced(run) == |ws| - |table.wal.buffer|
              && R.LogFrom(run) <= R.Synced(run) && R.SnapshotAt(run) <= |ws|
    {
      hide *;
      ValidIs();
      RefinesIs();
      StateIs();
      R.RunInv(run);
      R.InvFacts(R.Exec(run), R.Writes(run), R.LogFrom(run), R.SnapshotAt(run), R.Synced(run));
    }

    lemma StateIs()
      requires table.wal != null
      ensures table.wal.State() == LogIn(R.Exec(run)) ==> R.Exec(run).pending == table.wal.buffer
    {
    }

    /** For every state of the table, its log and its snapshot: every crash leaves the contents after a
        prefix of the logged writes that has all durable ones, if and only if for every number of writes
        the log may reach some prefix agrees with the snapshot and those writes. */
    lemma EveryCrashExactly(now: nat)
      requires Valid() && Refines() && R.ShortWrites(L.LogOf(table.trace))
      ensures var ws, from, seen, synced := L.LogOf(table.trace), R.LogFrom(run), R.SnapshotAt(run), R.Synced(run);
              && from <= synced == |ws| - |table.wal.buffer| && seen <= |ws|
              && ((forall bytes :: Survives(table.wal.State(), bytes) ==>
                     R.DurablePrefix(run, R.Recover(snapshot, bytes, now)))
                  <==> forall j :: synced <= j <= |ws| ==> R.AgreesWithSome(ws, from, seen, synced, j))
    {
      hide *;
      ValidIs();
      RefinesIs();
      RunIs();
      R.EveryCrashExactly(run, now);
      forall bytes
        ensures Survives(table.wal.State(), bytes) <==> R.CanSurvive(R.Exec(run), bytes)
        ensures R.DurablePrefix(run, R.Recover(snapshot, bytes, now)) <==> R.Promise(run, bytes, now)
      {
        SurvivesIs(R.Exec(run), bytes);
        TR.PromiseIs(run, bytes, now);
      }
    }

    /** Recovery of another table from what a crash leaves. If the records fit its limit it holds what the
        snapshot saw with the writes that were reached made again, all durable ones among them. If all
        writes were flushed, none was made between the last snapshot and the last truncation, and no
        insert evicted its own key, that is what this table holds. */
    method Restart(bytes: Bytes, hash: Hash, capacity: nat, limit: nat, leastRecent: bool, now: U64)
      returns (t: T.Table)
      requires Valid() && Refines() && R.ShortWrites(L.LogOf(table.trace)) && Survives(table.wal.State(), bytes)
      ensures fresh(t) && t.Valid() && t.Limit() == limit && (t.lru != null <==> leastRecent)
      ensures var ws, from, seen := L.LogOf(table.trace), R.LogFrom(run), R.SnapshotAt(run);
              var j := R.Reached(run, bytes);
              && from <= |ws| - |table.wal.buffer| <= j <= |ws| && seen <= |ws|
              && (B.Fits(map[], B.Records(TR.Items(snapshot, bytes)), limit, now) ==>
                    && T.ContentsOf(t.model) == R.After(R.After(map[], ws[..seen]), ws[from..j])
                    && (from <= seen && table.wal.buffer == [] && (forall key :: !L.Lost(table.trace, key)) ==>
                          T.ContentsOf(t.model) == T.ContentsOf(table.model)))
    {
      hide *;
      ValidIs();
      RefinesIs();
      RunIs();
      table.Parts();
      SurvivesIs(R.Exec(run), bytes);
      t := new T.Table(hash, capacity, limit, leastRecent, false, 0);
      var _, evicted := TR.Recover(t, snapshot, bytes, now);
      RecoveryGives(run, table.trace, bytes, now);
    }

    lemma ValidIs()
      requires Valid()
      ensures table.Valid() && table.wal != null && R.Writes(run) == L.LogOf(table.trace)
    {
    }

    lemma ValidFrom()
      requires table.Valid() && table.wal != null && R.Writes(run) == L.LogOf(table.trace)
      ensures Valid()
    {
    }

    lemma RefinesIs()
      requires table.wal != null
      ensures Refines() <==> table.wal.State() == LogIn(R.Exec(run)) && snapshot == R.Exec(run).snapshot
    {
    }

    lemma RefinesFrom()
      requires table.wal != null
      ensures table.wal.State() == LogIn(R.Exec(run)) && snapshot == R.Exec(run).snapshot ==> Refines()
    {
    }

    /** The log is what was appended to it since its mark. */
    lemma LogIs()
      requires table.Valid() && table.wal != null
      ensures var mark, ws := table.Marked(), L.LogOf(table.trace);
              mark.at <= |ws| && table.wal.State() == Wal.LoggedAll(mark.state, R.RecordsOf(ws)[mark.at..])
    {
      hide Wal.LoggedAll, L.LogOf, R.RecordOf, T.Table.Stored, T.Table.Tracking;
    }
  }

  lemma FirstRun(batch: nat)
    ensures R.Exec([R.EnableLog(batch)]) == R.Store(map[], R.None, [], [], batch)
    ensures LogIn(R.Store(map[], R.None, [], [], batch)) == Wal.LogState([], [], batch)
    ensures R.Writes([R.EnableLog(batch)]) == [] && L.LogOf([]) == []
  {
    assert [R.EnableLog(batch)][..0] == [];
    assert R.Exec([]) == R.Store(map[], R.None, [], [], Wal.DefaultBatch);
    Wal.NothingEncoded();
  }

  lemma RemovalIs(key: Bytes)
    ensures L.LoggedBy(L.Removed(key)) == [R.Del(key)]
  {
  }

  /** What the steps that write nothing make of the log and the snapshot. */
  lemma NextIs(s: R.Store, batch: nat)
    ensures LogIn(R.Next(s, R.FlushLog)) == Wal.Drained(LogIn(s))
    ensures LogIn(R.Next(s, R.EnableLog(batch))) == Wal.Drained(LogIn(s)).(batch := batch)
    ensures LogIn(R.Next(s, R.TruncateLog)) == Wal.LogState([], [], Wal.DefaultBatch)
    ensures R.Next(s, R.FlushLog).snapshot == R.Next(s, R.EnableLog(batch)).snapshot == s.snapshot
    ensures R.Next(s, R.TruncateLog).snapshot == s.snapshot
  {
    hide Wal.EncodeAll;
  }

  lemma SnapshotIs(s: R.Store, es: seq<Snapshot.Entry>)
    ensures LogIn(R.Next(s, R.TakeSnapshot(es))) == LogIn(s)
    ensures R.Enumerates(es, s.contents) ==>
      R.Next(s, R.TakeSnapshot(es)).snapshot == R.Some(Snapshot.SnapshotBytes(es))
  {
    hide R.Enumerates, Snapshot.SnapshotBytes;
  }
}
