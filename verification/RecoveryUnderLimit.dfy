/** A table that never evicted can lose a key when it is recovered under the same memory limit. */
module RecoveryUnderLimit {
  import opened Codec
  import opened Lists
  import opened Buckets
  import Wal
  import R = Recovery
  import B = BoundedReplay
  import L = TableLog
  import T = HashTable
  import TR = TableRecovery

  /** Three keys and the value they are set to. */
  datatype Scene = Scene(early: Bytes, gone: Bytes, last: Bytes, value: Bytes)

  ghost predicate Proper(x: Scene) {
    x.early != x.gone && x.gone != x.last && x.last != x.early
    && x.early != [] && x.gone != [] && x.last != [] && x.value != []
  }

  function SetEarly(x: Scene): R.Write {
    R.Put(x.early, x.value, 0)
  }

  function SetGone(x: Scene): R.Write {
    R.Put(x.gone, x.value, 0)
  }

  function DropGone(x: Scene): R.Write {
    R.Del(x.gone)
  }

  function SetLast(x: Scene): R.Write {
    R.Put(x.last, x.value, 0)
  }

  function Entry(x: Scene): Snapshot.ValueEntry {
    Snapshot.ValueEntry(x.value, 0, 0, 0)
  }

  function Room(x: Scene): nat {
    2 * |x.value|
  }

  /** The writes since the log was truncated: one key is set twice and removed, another is set. */
  function Logged(x: Scene): seq<R.Write> {
    [SetGone(x)] + [SetGone(x)] + [DropGone(x)] + [SetLast(x)]
  }

  /** What a snapshot taken then holds: a key from before the truncation, and the last one. */
  function Stored(x: Scene): seq<Snapshot.Entry> {
    [Snapshot.Entry(x.early, Entry(x))] + [Snapshot.Entry(x.last, Entry(x))]
  }

  function Held(x: Scene): R.Contents {
    map[x.early := R.Slot(x.value, 0)][x.last := R.Slot(x.value, 0)]
  }

  function Logs(w: R.Write): B.Item {
    B.Item(R.RecordOf(w), 0)
  }

  /** What loading that snapshot and replaying that log replays. */
  function Replayed(x: Scene): seq<B.Item> {
    [Logs(SetEarly(x))] + [Logs(SetLast(x))] + [Logs(SetGone(x))] + [Logs(SetGone(x))] + [Logs(DropGone(x))]
    + [Logs(SetLast(x))]
  }

  // ----- What fits

  lemma ReplayMore(m: R.Contents, rs: seq<Wal.Record>, r: Wal.Record, now: nat)
    ensures R.Replay(m, rs + [r], now) == R.Replayed(R.Replay(m, rs, now), r, now)
  {
    assert (rs + [r])[..|rs|] == rs;
  }

  lemma FitsMore(m: R.Contents, rs: seq<Wal.Record>, r: Wal.Record, limit: nat, now: nat)
    ensures R.Replay(m, rs + [r], now) == R.Replayed(R.Replay(m, rs, now), r, now)
    ensures B.Fits(m, rs + [r], limit, now) <==>
      B.Fits(m, rs, limit, now) && (B.Inserts(R.Replay(m, rs, now), r, now) ==> B.Weight(R.Replay(m, rs, now)) <= limit)
  {
    hide R.Replay, B.Weight, B.Inserts;
    var rs' := rs + [r];
    ReplayMore(m, rs, r, now);
    assert rs'[..|rs|] == rs;
    forall k | 0 <= k < |rs| ensures B.FitsAt(m, rs', k, limit, now) <==> B.FitsAt(m, rs, k, limit, now) {
      assert rs'[..k] == rs[..k];
    }
    assert B.FitsAt(m, rs', |rs|, limit, now) <==>
      (B.Inserts(R.Replay(m, rs, now), r, now) ==> B.Weight(R.Replay(m, rs, now)) <= limit);
    if B.Fits(m, rs', limit, now) {
      forall k | 0 <= k < |rs| ensures B.FitsAt(m, rs, k, limit, now) {
        assert B.FitsAt(m, rs', k, limit, now);
      }
    }
  }

  lemma Weights(x: Scene)
    requires Proper(x)
    ensures var s, n := R.Slot(x.value, 0), |x.value|;
      && B.Weight(map[]) == 0 && B.Weight(map[x.early := s]) == n
      && B.Weight(map[x.early := s][x.gone := s]) == B.Weight(map[x.early := s][x.last := s]) == 2 * n
      && B.Weight(map[x.early := s][x.last := s][x.gone := s]) == 3 * n
  {
    var s := R.Slot(x.value, 0);
    var none: R.Contents := map[];
    assert none[x.early := s] == map[x.early := s];
    AddWeight(none, x.early, s);
    AddWeight(map[x.early := s], x.gone, s);
    AddWeight(map[x.early := s], x.last, s);
    AddWeight(map[x.early := s][x.last := s], x.gone, s);
  }

  lemma AddWeight(m: R.Contents, key: Bytes, s: R.Slot)
    requires key !in m
    ensures B.Weight(m[key := s]) == B.Weight(m) + |s.value|
  {
    hide B.Weight;
    B.PutWeight(m, key, s);
  }

  lemma Empty(limit: nat, now: nat)
    ensures B.Fits(map[], [], limit, now) && R.Replay(map[], [], now) == map[]
  {
  }

  /** Room for two values is enough for the writes as they were made. */
  lemma LiveFits(x: Scene, now: nat)
    requires Proper(x)
    ensures B.Fits(map[], R.RecordsOf([SetEarly(x)] + Logged(x)), Room(x), now)
  {
    var limit, s := Room(x), R.Slot(x.value, 0);
    var k, a, d, c := R.RecordOf(SetEarly(x)), R.RecordOf(SetGone(x)), R.RecordOf(DropGone(x)), R.RecordOf(SetLast(x));
    var r1, r2, r3, r4 := [k], [k] + [a], [k] + [a] + [a], [k] + [a] + [a] + [d];
    assert R.RecordsOf([SetEarly(x)] + Logged(x)) == r4 + [c];
    Weights(x);
    hide B.Weight, R.Replay, B.Fits, R.RecordsOf;
    Empty(limit, now);
    assert [] + r1 == r1;
    FitsMore(map[], [], k, limit, now);
    assert R.Replay(map[], r1, now) == map[x.early := s];
    FitsMore(map[], r1, a, limit, now);
    FitsMore(map[], r2, a, limit, now);
    assert R.Replay(map[], r3, now) == map[x.early := s][x.gone := s];
    FitsMore(map[], r3, d, limit, now);
    assert R.Replay(map[], r4, now) == map[x.early := s];
    FitsMore(map[], r4, c, limit, now);
  }

  /** It is not enough for loading the snapshot and replaying the log. */
  lemma RecoveredDoesNotFit(x: Scene, now: nat)
    requires Proper(x)
    ensures !B.Fits(map[], B.Records(Replayed(x)), Room(x), now)
  {
    var limit, s := Room(x), R.Slot(x.value, 0);
    var k, a, d, c := R.RecordOf(SetEarly(x)), R.RecordOf(SetGone(x)), R.RecordOf(DropGone(x)), R.RecordOf(SetLast(x));
    var r1, r2, r3, r4, r5 := [k], [k] + [c], [k] + [c] + [a], [k] + [c] + [a] + [a], [k] + [c] + [a] + [a] + [d];
    assert B.Records(Replayed(x)) == r5 + [c];
    Weights(x);
    hide B.Weight, R.Replay, B.Fits, B.Records;
    Empty(limit, now);
    assert [] + r1 == r1;
    FitsMore(map[], [], k, limit, now);
    assert R.Replay(map[], r1, now) == map[x.early := s];
    FitsMore(map[], r1, c, limit, now);
    FitsMore(map[], r2, a, limit, now);
    FitsMore(map[], r3, a, limit, now);
    FitsMore(map[], r4, d, limit, now);
    FitsMore(map[], r5, c, limit, now);
  }

  // ----- The run and its recovery

  function Opening(x: Scene): seq<R.Step> {
    [R.DoWrite(SetEarly(x))] + [R.FlushLog] + [R.TakeSnapshot(Stored(x)[..1])] + [R.TruncateLog]
  }

  /** A key is set and goes into a snapshot, the log is truncated, the writes above follow and are
      flushed, and another snapshot is taken. */
  function LimitedRun(x: Scene): seq<R.Step> {
    Opening(x) + [R.DoWrite(SetGone(x))] + [R.DoWrite(SetGone(x))] + [R.DoWrite(DropGone(x))]
    + [R.DoWrite(SetLast(x))] + [R.FlushLog] + [R.TakeSnapshot(Stored(x))]
  }

  lemma OpeningIs(x: Scene)
    ensures var run, s := Opening(x), R.Exec(Opening(x));
      && R.Writes(run) == [SetEarly(x)] && R.LogFrom(run) == R.SnapshotAt(run) == R.Synced(run) == 1
      && s.contents == map[x.early := R.Slot(x.value, 0)] && s.pending == [] && s.batch == Wal.DefaultBatch
  {
    hide Wal.EncodeAll, R.RecordOf, Snapshot.SnapshotBytes, R.Exec, R.Writes, R.LogFrom, R.SnapshotAt, R.Synced;
    R.Fresh();
    var r1 := [R.DoWrite(SetEarly(x))];
    var r2 := r1 + [R.FlushLog];
    var one := Stored(x)[..1];
    var r3 := r2 + [R.TakeSnapshot(one)];
    R.OneStep([], r1[0]);
    assert [] + r1 == r1;
    R.OneStep(r1, R.FlushLog);
    assert one[0].key == x.early;
    assert R.Enumerates(one, map[x.early := R.Slot(x.value, 0)]);
    R.OneStep(r2, R.TakeSnapshot(one));
    R.OneStep(r3, R.TruncateLog);
  }

  lemma LimitedRunIs(x: Scene)
    requires Proper(x)
    ensures var run, s := LimitedRun(x), R.Exec(LimitedRun(x));
      && R.Writes(run) == [SetEarly(x)] + Logged(x) && R.LogFrom(run) == 1 && R.SnapshotAt(run) == R.Synced(run) == 5
      && s.snapshot == R.Some(Snapshot.SnapshotBytes(Stored(x))) && s.pending == [] && s.contents == Held(x)
  {
    hide Wal.EncodeAll, R.RecordOf, Snapshot.SnapshotBytes, R.Exec, R.Writes, R.LogFrom, R.SnapshotAt, R.Synced;
    hide R.Enumerates, Opening, Stored;
    OpeningIs(x);
    var s := R.Slot(x.value, 0);
    var r4 := Opening(x);
    var r5 := r4 + [R.DoWrite(SetGone(x))];
    var r6 := r5 + [R.DoWrite(SetGone(x))];
    var r7 := r6 + [R.DoWrite(DropGone(x))];
    var r8 := r7 + [R.DoWrite(SetLast(x))];
    var r9 := r8 + [R.FlushLog];
    R.OneStep(r4, R.DoWrite(SetGone(x)));
    R.OneStep(r5, R.DoWrite(SetGone(x)));
    R.OneStep(r6, R.DoWrite(DropGone(x)));
    R.OneStep(r7, R.DoWrite(SetLast(x)));
    R.OneStep(r8, R.FlushLog);
    assert R.Exec(r9).contents == map[x.early := s][x.last := s];
    StoredEnumerates(x);
    R.OneStep(r9, R.TakeSnapshot(Stored(x)));
  }

  lemma StoredEnumerates(x: Scene)
    requires Proper(x)
    ensures R.Enumerates(Stored(x), Held(x))
  {
    var es := Stored(x);
    assert es[0].key == x.early && es[1].key == x.last;
  }

  ghost predicate Short(x: Scene) {
    |x.early| < TwoTo32 && |x.gone| < TwoTo32 && |x.last| < TwoTo32 && |x.value| < TwoTo32
  }

  lemma SnapshotOfRun(x: Scene)
    requires Proper(x) && Short(x)
    ensures TR.Loaded(R.Exec(LimitedRun(x)).snapshot) == T.SetsOf(Stored(x))
  {
    hide *;
    LimitedRunIs(x);
    StoredEnumerates(x);
    StoredIsShort(x);
    R.LoadRestores(Stored(x), Held(x));
    TR.LoadedIs(R.Exec(LimitedRun(x)).snapshot);
  }

  /** Recovering the run replays those items. */
  lemma ItemsOfRun(x: Scene, bytes: Bytes)
    requires Proper(x) && Short(x) && R.CanSurvive(R.Exec(LimitedRun(x)), bytes)
    ensures TR.Items(R.Exec(LimitedRun(x)).snapshot, bytes) == Replayed(x)
  {
    hide R.Exec, R.CanSurvive, LimitedRun, TR.Loaded, Wal.ReadAll, R.RecordOf;
    SnapshotOfRun(x);
    LogOfRun(x, bytes);
    assert T.SetsOf(Stored(x)) == [Logs(SetEarly(x))] + [Logs(SetLast(x))] by { StoredItems(x); }
  }

  lemma StoredItems(x: Scene)
    ensures T.SetsOf(Stored(x)) == [Logs(SetEarly(x))] + [Logs(SetLast(x))]
  {
  }

  lemma StoredIsShort(x: Scene)
    requires Short(x)
    ensures R.Short(Held(x))
  {
  }

  lemma WritesAreShort(x: Scene)
    requires Short(x)
    ensures R.ShortWrites([SetEarly(x)] + Logged(x)) && R.ShortWrites(Logged(x))
  {
  }

  lemma LogOfRun(x: Scene, bytes: Bytes)
    requires Proper(x) && Short(x) && R.CanSurvive(R.Exec(LimitedRun(x)), bytes)
    ensures Wal.ReadAll(bytes) == R.RecordsOf(Logged(x))
  {
    hide *;
    var run, part := LimitedRun(x), Logged(x);
    LimitedRunIs(x);
    WritesAreShort(x);
    R.RunInv(run);
    var n := R.CutAt(R.Exec(run), bytes);
    WholeLog(R.Exec(run), [SetEarly(x)] + part, 1, 5, 5);
    assert ([SetEarly(x)] + part)[1..5] == part by { LoggedLength(x); }
    assert bytes == Wal.EncodeAll(R.RecordsOf(part));
    assert bytes[..|bytes|] == bytes;
    R.LogReads(part, |bytes|);
    Wal.WholeOfAll(R.RecordsOf(part));
    assert part[..|part|] == part;
  }

  lemma LoggedLength(x: Scene)
    ensures |Logged(x)| == 4
  {
  }

  lemma WholeLog(s: R.Store, ws: seq<R.Write>, from: nat, seen: nat, synced: nat)
    requires R.Inv(s, ws, from, seen, synced) && s.pending == []
    ensures from <= synced <= |ws| && s.wal == Wal.EncodeAll(R.RecordsOf(ws[from..synced])) && Wal.EncodeAll([]) == []
  {
    hide R.Captures, R.After;
  }

  // ----- What the table evicts

  lemma KeysNotEmpty(x: Scene)
    requires Proper(x)
    ensures B.NoEmptyKey(map[], B.Records(Replayed(x)))
  {
  }

  /** A set that finds the table within its limit. */
  lemma SetWithin(s: B.State, key: Bytes, value: Bytes, victims: seq<Bytes>, limit: nat, now: nat)
    requires B.SoundStep(s, Logs(R.Put(key, value, 0)), victims, limit, now) && B.Weight(s.contents) <= limit
    ensures victims == []
    ensures B.StepEvicting(s, Logs(R.Put(key, value, 0)), victims, now)
         == B.State(s.contents[key := R.Slot(value, 0)], B.Written(s.usage, key, 0, []))
  {
    hide B.Weight, B.Written, B.Picks, B.Needed;
    if victims != [] {
      B.FirstNeeded(s.contents, victims, limit);
    }
    assert s.contents - Members([]) == s.contents;
  }

  ghost function After3(x: Scene, u: B.Usage): B.State
    requires u.Recency?
  {
    var s, t, c := Slot(x), u.touched, u.clock;
    B.State(map[x.early := s][x.last := s][x.gone := s],
            B.Recency(t[x.early := c][x.last := c + 1][x.gone := c + 2], c + 3))
  }

  lemma FirstThree(x: Scene, u: B.Usage, evicted: seq<seq<Bytes>>, now: nat)
    requires Proper(x) && u.Recency? && B.Sound(B.State(map[], u), Replayed(x), evicted, Room(x), now)
    ensures |Replayed(x)| == |evicted| == 6
    ensures B.ReplayEvicting(B.State(map[], u), Replayed(x)[..3], evicted[..3], now) == After3(x, u)
  {
    hide *;
    var s0, items, v, limit := B.State(map[], u), Replayed(x), Slot(x), Room(x);
    ReplayedAre(x);
    WithinRoom(x);
    B.SoundLength(s0, items, evicted, limit, now);
    B.NoItems(s0, limit, now);
    assert items[..0] == [] && evicted[..0] == [];
    Prefix(s0, items, evicted, 0, limit, now);
    SetWithin(s0, x.early, x.value, evicted[0], limit, now);
    var s1 := B.State(map[x.early := v], B.Written(u, x.early, 0, []));
    assert s0.contents[x.early := v] == map[x.early := v];
    Prefix(s0, items, evicted, 1, limit, now);
    SetWithin(s1, x.last, x.value, evicted[1], limit, now);
    var s2 := B.State(map[x.early := v][x.last := v], B.Written(s1.usage, x.last, 0, []));
    Prefix(s0, items, evicted, 2, limit, now);
    SetWithin(s2, x.gone, x.value, evicted[2], limit, now);
    After3Is(x, u);
  }

  function Slot(x: Scene): R.Slot {
    R.Slot(x.value, 0)
  }

  lemma ReplayedAre(x: Scene)
    ensures |Replayed(x)| == 6
    ensures Replayed(x)[0] == Logs(R.Put(x.early, x.value, 0)) && Replayed(x)[1] == Logs(R.Put(x.last, x.value, 0))
    ensures Replayed(x)[2] == Logs(R.Put(x.gone, x.value, 0)) && Slot(x) == R.Slot(x.value, 0)
  {
    hide Logs;
  }

  lemma WithinRoom(x: Scene)
    requires Proper(x)
    ensures var v, limit := Slot(x), Room(x);
      && B.Weight(map[]) <= limit && B.Weight(map[x.early := v]) <= limit
      && B.Weight(map[x.early := v][x.last := v]) <= limit
  {
    hide B.Weight;
    Weights(x);
  }

  lemma After3Is(x: Scene, u: B.Usage)
    requires u.Recency?
    ensures var v := Slot(x);
      After3(x, u) == B.State(
        map[x.early := v][x.last := v][x.gone := v],
        B.Written(B.Written(B.Written(u, x.early, 0, []), x.last, 0, []), x.gone, 0, []))
  {
  }

  lemma Prefix(s: B.State, items: seq<B.Item>, evicted: seq<seq<Bytes>>, k: nat, limit: nat, now: nat)
    requires B.Sound(s, items, evicted, limit, now) && k < |items|
    ensures |items| == |evicted|
    ensures B.SoundStep(B.ReplayEvicting(s, items[..k], evicted[..k], now), items[k], evicted[k], limit, now)
    ensures B.ReplayEvicting(s, items[..k + 1], evicted[..k + 1], now)
         == B.StepEvicting(B.ReplayEvicting(s, items[..k], evicted[..k], now), items[k], evicted[k], now)
  {
    hide B.SoundStep, B.StepEvicting;
    assert B.SoundAt(s, items, evicted, k, limit, now);
    assert items[..k + 1][..k] == items[..k] && evicted[..k + 1][..k] == evicted[..k];
  }

  /** The fourth item finds the table above its limit, and the first key is the one used longest ago. */
  lemma EarlyIsEvicted(x: Scene, s: B.State, victims: seq<Bytes>, now: nat)
    requires Proper(x) && s.usage.Recency? && s.contents.Keys == {x.early, x.last, x.gone}
    requires x.early in s.usage.touched && x.last in s.usage.touched && x.gone in s.usage.touched
    requires var t := s.usage.touched; t[x.early] < t[x.last] && t[x.early] < t[x.gone]
    requires B.Weight(s.contents) > Room(x) && B.SoundStep(s, Logs(SetGone(x)), victims, Room(x), now)
    ensures x.early in victims
  {
    hide B.Weight;
    assert s.contents - Members([]) == s.contents;
    assert victims != [];
    assert victims[0] in s.contents && victims[..0] == [];
  }

  /** Every table with the recency policy that recovers the run under this limit loses the first key. */
  lemma EarlyIsLost(x: Scene, u: B.Usage, evicted: seq<seq<Bytes>>, now: nat)
    requires Proper(x) && u.Recency? && B.Sound(B.State(map[], u), Replayed(x), evicted, Room(x), now)
    ensures |Replayed(x)| == |evicted|
    ensures x.early !in B.ReplayEvicting(B.State(map[], u), Replayed(x), evicted, now).contents
  {
    var s0, items, limit := B.State(map[], u), Replayed(x), Room(x);
    hide B.Sound, B.SoundStep, B.StepEvicting, B.ReplayEvicting, B.Weight, R.Replay;
    FirstThree(x, u, evicted, now);
    Weights(x);
    Prefix(s0, items, evicted, 3, limit, now);
    EarlyIsEvicted(x, After3(x, u), evicted[3], now);
    B.SoundFront(s0, items, evicted, 3, limit, now);
    WithEarly(x, u, evicted, now);
    assert B.LostAt(map[], items, evicted, now, x.early, 3);
    B.ReplayAt(s0, items, evicted, limit, now, x.early);
  }

  /** Without a limit the key is there after three items. */
  lemma WithEarly(x: Scene, u: B.Usage, evicted: seq<seq<Bytes>>, now: nat)
    requires Proper(x)
    ensures x.early in R.Replay(map[], B.Records(Replayed(x)[..3]), now)
  {
    var k, c, a := R.RecordOf(SetEarly(x)), R.RecordOf(SetLast(x)), R.RecordOf(SetGone(x));
    assert B.Records(Replayed(x)[..3]) == [k] + [c] + [a];
    hide R.Replay;
    assert [] + [k] == [k];
    ReplayMore(map[], [], k, now);
    ReplayMore(map[], [k], c, now);
    ReplayMore(map[], [k] + [c], a, now);
  }

  /** Without a limit the run is recovered as it should be, and the limit is one that the writes never
      exceeded when they were made. Recovered under this limit with the recency policy, the contents
      are not those after any writes that include the durable ones. */
  lemma LimitBreaksPromise(x: Scene, bytes: Bytes, u: B.Usage, evicted: seq<seq<Bytes>>, now: nat)
    requires Proper(x) && Short(x) && R.CanSurvive(R.Exec(LimitedRun(x)), bytes) && u.Recency?
    requires B.Sound(B.State(map[], u), TR.Items(R.Exec(LimitedRun(x)).snapshot, bytes), evicted, Room(x), now)
    ensures B.Fits(map[], R.RecordsOf(R.Writes(LimitedRun(x))), Room(x), now)
    ensures R.Promise(LimitedRun(x), bytes, now)
    ensures var items := TR.Items(R.Exec(LimitedRun(x)).snapshot, bytes);
      && |items| == |evicted| && B.Evicts(evicted) && !B.Fits(map[], B.Records(items), Room(x), now)
      && var m := B.ReplayEvicting(B.State(map[], u), items, evicted, now).contents;
         x.early !in m && !R.DurablePrefix(LimitedRun(x), m)
  {
    hide *;
    var run := LimitedRun(x);
    LimitedRunIs(x);
    WritesAreShort(x);
    R.RecoveryGives(run, bytes, now);
    R.RecoveryIsPrefix(run, bytes, now);
    LiveFits(x, now);
    ItemsOfRun(x, bytes);
    RecoveredDoesNotFit(x, now);
    KeysNotEmpty(x);
    B.EvictsExactly(B.State(map[], u), Replayed(x), evicted, Room(x), now);
    EarlyIsLost(x, u, evicted, now);
    OnlyAll(x, B.ReplayEvicting(B.State(map[], u), Replayed(x), evicted, now).contents);
  }

  lemma OnlyAll(x: Scene, m: R.Contents)
    requires Proper(x) && Short(x) && x.early !in m
    ensures !R.DurablePrefix(LimitedRun(x), m)
  {
    hide *;
    var run := LimitedRun(x);
    LimitedRunIs(x);
    WritesAreShort(x);
    R.RunInv(run);
    LoggedLength(x);
    ContentsOfRun(R.Exec(run), R.Writes(run), 1, 5, 5);
    AllDurable(run, m);
    HeldKeys(x);
  }

  lemma ContentsOfRun(s: R.Store, ws: seq<R.Write>, from: nat, seen: nat, synced: nat)
    requires R.Inv(s, ws, from, seen, synced)
    ensures s.contents == R.After(map[], ws)
  {
    hide R.After, R.Captures;
  }

  lemma AllDurable(run: seq<R.Step>, m: R.Contents)
    requires R.Synced(run) == |R.Writes(run)|
    ensures R.DurablePrefix(run, m) ==> m == R.After(map[], R.Writes(run))
  {
    hide R.Synced, R.Writes, R.After;
    assert R.Writes(run)[..|R.Writes(run)|] == R.Writes(run);
  }

  lemma HeldKeys(x: Scene)
    ensures x.early in Held(x)
  {
  }

  // ----- The two tables

  lemma SizeSums(x: Scene)
    requires Proper(x)
    ensures var v, n := Entry(x), |x.value|;
      && B.Weight(T.ContentsOf(map[])) == 0 && B.Weight(T.ContentsOf(map[x.early := v])) == n
      && B.Weight(T.ContentsOf(map[x.early := v][x.gone := v])) == 2 * n
  {
    Weights(x);
    hide B.Weight;
    var v, s := Entry(x), R.Slot(x.value, 0);
    assert T.ContentsOf(map[]) == map[];
    assert T.ContentsOf(map[x.early := v]) == map[x.early := s];
    assert T.ContentsOf(map[x.early := v][x.gone := v]) == map[x.early := s][x.gone := s];
  }

  method InsertWithin(t: T.Table, key: Bytes, v: Snapshot.ValueEntry)
    requires t.Valid() && B.Weight(T.ContentsOf(t.model)) <= t.Limit()
    modifies t, t.lru, t.lfu, t.wal
    ensures t.Valid() && t.model == old(t.model)[key := v]
    ensures t.trace == old(t.trace) + [L.Inserted(key, T.SlotOf(v), [])]
  {
    hide *;
    var _, victims := t.Insert(key, v);
    NoVictims(old(t.model), victims, t.Limit());
  }

  lemma NoVictims(m: T.Model, victims: seq<Bytes>, limit: nat)
    requires T.EachNeeded(m, victims, limit) && B.Weight(T.ContentsOf(m)) <= limit
    ensures victims == [] && m - Members(victims) == m
  {
    hide T.EachNeeded, B.Weight;
    T.WeightIsSum(m);
    if victims != [] {
      T.FirstNeeded(m, victims, limit);
    }
    assert m - Members([]) == m;
  }

  ghost function LiveTrace(x: Scene): seq<L.Op> {
    var s := R.Slot(x.value, 0);
    [L.Inserted(x.early, s, [])] + [L.Inserted(x.gone, s, [])] + [L.Inserted(x.gone, s, [])] + [L.Removed(x.gone)]
    + [L.Inserted(x.last, s, [])]
  }

  /** A table with the recency policy and room for two values takes the writes as they were made: it
      evicts nothing and has the first and the last key. */
  method Live(x: Scene, hash: Hash, capacity: nat) returns (t: T.Table)
    requires Proper(x)
    ensures t.Valid() && t.lru != null && t.Limit() == Room(x)
    ensures t.trace == LiveTrace(x) && t.model == map[x.early := Entry(x)][x.last := Entry(x)]
    ensures L.LogOf(t.trace) == R.Writes(LimitedRun(x))
  {
    hide *;
    SizeSums(x);
    Facts(x);
    var v := Entry(x);
    t := new T.Table(hash, capacity, Room(x), true, false, 0);
    InsertWithin(t, x.early, v);
    assert t.model == map[x.early := v];
    InsertWithin(t, x.gone, v);
    InsertWithin(t, x.gone, v);
    assert t.model == map[x.early := v][x.gone := v];
    var _ := t.Remove(x.gone);
    assert t.model == map[x.early := v];
    InsertWithin(t, x.last, v);
    TraceIs(x, T.SlotOf(v));
    LimitedRunIs(x);
    LiveLogs(x);
  }

  /** The trace logs the writes of the run. */
  lemma LiveLogs(x: Scene)
    ensures L.LogOf(LiveTrace(x)) == [SetEarly(x)] + Logged(x)
  {
    hide L.LogOf, L.LoggedBy;
    var s := R.Slot(x.value, 0);
    var t1 := [] + [L.Inserted(x.early, s, [])];
    var t2 := t1 + [L.Inserted(x.gone, s, [])];
    var t3 := t2 + [L.Inserted(x.gone, s, [])];
    var t4 := t3 + [L.Removed(x.gone)];
    assert LiveTrace(x) == t4 + [L.Inserted(x.last, s, [])];
    NothingLogged();
    LogsOne([], x.early, s);
    LogsOne(t1, x.gone, s);
    LogsOne(t2, x.gone, s);
    LogsRemoval(t3, x.gone);
    LogsOne(t4, x.last, s);
  }

  lemma NothingLogged()
    ensures L.LogOf([]) == []
  {
  }

  lemma LogsOne(trace: seq<L.Op>, key: Bytes, s: R.Slot)
    ensures L.LogOf(trace + [L.Inserted(key, s, [])]) == L.LogOf(trace) + [R.Put(key, s.value, s.expiry)]
  {
    assert (trace + [L.Inserted(key, s, [])])[..|trace|] == trace;
  }

  lemma LogsRemoval(trace: seq<L.Op>, key: Bytes)
    ensures L.LogOf(trace + [L.Removed(key)]) == L.LogOf(trace) + [R.Del(key)]
  {
    assert (trace + [L.Removed(key)])[..|trace|] == trace;
  }

  lemma TraceIs(x: Scene, s: R.Slot)
    requires s == T.SlotOf(Entry(x))
    ensures LiveTrace(x) ==
      [] + [L.Inserted(x.early, s, [])] + [L.Inserted(x.gone, s, [])] + [L.Inserted(x.gone, s, [])]
      + [L.Removed(x.gone)] + [L.Inserted(x.last, s, [])]
  {
  }

  lemma Facts(x: Scene)
    requires Proper(x)
    ensures Entry(x).value == x.value != [] && Room(x) == 2 * |x.value|
    ensures x.early != x.gone && x.gone != x.last && x.last != x.early && x.early != []
  {
  }

  /** A table like it recovers from the snapshot of the run and whatever a crash left of its log, and
      loses the first key: its contents are not those after any writes that include the durable ones. */
  method Recovered(x: Scene, hash: Hash, capacity: nat, snapshot: R.Option<Bytes>, bytes: Bytes, now: U64)
    returns (t: T.Table, ghost start: B.State, ghost evicted: seq<seq<Bytes>>)
    requires Proper(x) && Short(x)
    requires snapshot == R.Exec(LimitedRun(x)).snapshot && R.CanSurvive(R.Exec(LimitedRun(x)), bytes)
    ensures t.Valid() && t.lru != null && t.Limit() == Room(x) && start.contents == map[]
    ensures TR.RecoveredTo(start, t.State(), snapshot, bytes, evicted, Room(x), now)
    ensures x.early !in t.model && !R.DurablePrefix(LimitedRun(x), T.ContentsOf(t.model))
  {
    hide *;
    t := new T.Table(hash, capacity, Room(x), true, false, 0);
    start := t.State();
    t.StateIs();
    t.UsageIs();
    TR.Nothing();
    var _, gone := TR.Recover(t, snapshot, bytes, now);
    evicted := gone;
    RecoveredMeans(start, t.State(), snapshot, bytes, evicted, Room(x), now);
    LimitBreaksPromise(x, bytes, start.usage, evicted, now);
    t.StateIs();
    Stays(t.model, x.early);
  }

  lemma RecoveredMeans(
    start: B.State, end: B.State, snapshot: R.Option<Bytes>, log: Bytes, evicted: seq<seq<Bytes>>, limit: nat, now: nat)
    requires TR.RecoveredTo(start, end, snapshot, log, evicted, limit, now)
    ensures B.Sound(start, TR.Items(snapshot, log), evicted, limit, now) && |TR.Items(snapshot, log)| == |evicted|
    ensures end == B.ReplayEvicting(start, TR.Items(snapshot, log), evicted, now)
  {
    hide TR.Items, B.ReplayEvicting;
  }

  lemma Stays(m: T.Model, key: Bytes)
    ensures key in m <==> key in T.ContentsOf(m)
  {
  }
}
