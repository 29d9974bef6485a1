/** Two ways of using the store after which recovery breaks its promise. */
module RecoveryFailures {
  import opened Codec
  import opened Recovery

  const K1: Bytes := [1]
  const K2: Bytes := [2]

  const Set1: Write := Put(K1, [1], 0)
  const Set2: Write := Put(K1, [2], 0)
  const Set3: Write := Put(K2, [3], 0)

  const Both: seq<Snapshot.Entry> := [
    Snapshot.Entry(K1, Snapshot.ValueEntry([2], 0, 0, 0)),
    Snapshot.Entry(K2, Snapshot.ValueEntry([3], 0, 0, 0))]

  /** A key is written and flushed; it is written again, another key is written, and a snapshot is
      taken without flushing. */
  const UnflushedRun: seq<Step> :=
    [DoWrite(Set1)] + [FlushLog] + [DoWrite(Set2)] + [DoWrite(Set3)] + [TakeSnapshot(Both)]

  lemma ThreeWrites()
    ensures var ws := [Set1] + [Set2] + [Set3];
            && After(map[], ws[..0]) == map[]
            && After(map[], ws[..1]) == map[K1 := Slot([1], 0)]
            && After(map[], ws[..2]) == map[K1 := Slot([2], 0)]
            && After(map[], ws[..3]) == map[K1 := Slot([2], 0), K2 := Slot([3], 0)]
            && Touched(ws[0..1], K1) && !Touched(ws[0..1], K2)
  {
    var ws := [Set1] + [Set2] + [Set3];
    assert ws[..1][..0] == ws[..0] == [] && ws[..2][..1] == ws[..1] && ws[..3][..2] == ws[..2];
    assert ws[0..1][0].key == K1;
  }

  lemma BothEnumerates()
    ensures Enumerates(Both, map[K1 := Slot([2], 0), K2 := Slot([3], 0)])
  {
    assert Both[0].key == K1 && Both[1].key == K2;
  }

  lemma UnflushedRunIs()
    ensures Writes(UnflushedRun) == [Set1] + [Set2] + [Set3]
    ensures LogFrom(UnflushedRun) == 0 && Synced(UnflushedRun) == 1 && SnapshotAt(UnflushedRun) == 3
  {
    hide Wal.EncodeAll, Enumerates, RecordOf, Snapshot.SnapshotBytes, Exec, Writes, LogFrom, SnapshotAt, Synced;
    Fresh();
    var r1 := [DoWrite(Set1)];
    var r2 := r1 + [FlushLog];
    var r3 := r2 + [DoWrite(Set2)];
    var r4 := r3 + [DoWrite(Set3)];
    OneStep([], DoWrite(Set1));
    assert [] + r1 == r1;
    OneStep(r1, FlushLog);
    OneStep(r2, DoWrite(Set2));
    OneStep(r3, DoWrite(Set3));
    assert Exec(r4).contents == map[K1 := Slot([2], 0), K2 := Slot([3], 0)];
    BothEnumerates();
    OneStep(r4, TakeSnapshot(Both));
  }

  /** A crash right after it leaves contents that never existed. */
  lemma UnflushedSnapshotIsNoPrefix(now: nat) returns (bytes: Bytes)
    ensures CanSurvive(Exec(UnflushedRun), bytes) && |Writes(UnflushedRun)| == 3
    ensures forall i :: 0 <= i <= 3 ==>
      Recover(Exec(UnflushedRun).snapshot, bytes, now) != After(map[], Writes(UnflushedRun)[..i])
  {
    UnflushedRunIs();
    ThreeWrites();
    hide Exec, Writes, LogFrom, Synced, SnapshotAt, Recover, After, CanSurvive, Reached, Touched;
    bytes := CrashReaching(UnflushedRun, 1);
    RecoveryGives(UnflushedRun, bytes, now);
    MixAt(Writes(UnflushedRun), 0, 3, 1, K1);
    MixAt(Writes(UnflushedRun), 0, 3, 1, K2);
  }

  const One: seq<Snapshot.Entry> := [Snapshot.Entry(K1, Snapshot.ValueEntry([2], 0, 0, 0))]

  /** A snapshot is taken, a key is written and flushed, and the log is truncated. */
  const TruncatedRun: seq<Step> := [DoWrite(Set2)] + [TakeSnapshot(One)] + [DoWrite(Set3)] + [FlushLog] + [TruncateLog]

  /** After every crash that can follow, the flushed key is gone. */
  lemma FlushedWriteIsLost(bytes: Bytes, now: nat)
    requires CanSurvive(Exec(TruncatedRun), bytes)
    ensures Synced(TruncatedRun) == 2 && Writes(TruncatedRun) == [Set2] + [Set3]
    ensures K2 !in Recover(Exec(TruncatedRun).snapshot, bytes, now) && !Promise(TruncatedRun, bytes, now)
  {
    hide Wal.EncodeAll, RecordOf, Snapshot.SnapshotBytes, Recover, CanSurvive;
    hide Exec, Writes, LogFrom, SnapshotAt, Synced;
    Fresh();
    var r1 := [DoWrite(Set2)];
    var r2 := r1 + [TakeSnapshot(One)];
    var r3 := r2 + [DoWrite(Set3)];
    var r4 := r3 + [FlushLog];
    OneStep([], DoWrite(Set2));
    assert [] + r1 == r1;
    OneStep(r1, TakeSnapshot(One));
    OneStep(r2, DoWrite(Set3));
    OneStep(r3, FlushLog);
    OneStep(r4, TruncateLog);
    assert One[0].key == K1;
    assert Enumerates(One, map[K1 := Slot([2], 0)]);
    var ws := [Set2] + [Set3];
    assert ws[..1] == [Set2] && ws[..1][..0] == [] && ws[..2] == ws && ws[..2][..1] == ws[..1];
    TruncationForgets(TruncatedRun, bytes, now);
  }
}
