/** Crash recovery: what loading the last snapshot and replaying the surviving bytes of the log
    gives, for every run of the store and every point at which it may crash. */
module Recovery {
  import opened Codec
  import Wal
  import Snapshot

  datatype Slot = Slot(value: Bytes, expiry: U64)

  /** What a table holds, as far as it survives: the value and the expiry of each key. */
  type Contents = map<Bytes, Slot>

  datatype Write = Put(key: Bytes, value: Bytes, expiry: U64) | Del(key: Bytes)

  function RecordOf(w: Write): Wal.Record {
    match w
    case Put(key, value, expiry) => Wal.Record(Wal.OpSet, key, value, expiry)
    case Del(key) => Wal.Record(Wal.OpDelete, key, [], 0)
  }

  /** The bytes a write is logged as. */
  lemma WriteLayout(w: Write)
    ensures var bs, key := Wal.EncodeRecord(RecordOf(w)), Clip(w.key);
            match w
            case Put(_, v, expiry) =>
              bs == [1] + Encode(|key|, 4) + key + Encode(|Clip(v)|, 4) + Clip(v) + Encode(expiry, 8)
            case Del(_) => bs == [2] + Encode(|key|, 4) + key + Encode(0, 4) + Encode(0, 8)
  {
    hide Encode;
    if w.Del? {
      assert Clip([]) == [];
    }
  }

  function RecordsOf(ws: seq<Write>): (rs: seq<Wal.Record>)
    ensures |rs| == |ws|
  {
    seq(|ws|, i requires 0 <= i < |ws| => RecordOf(ws[i]))
  }

  function Apply(m: Contents, w: Write): Contents {
    match w
    case Put(key, value, expiry) => m[key := Slot(value, expiry)]
    case Del(key) => m - {key}
  }

  /** The contents after a sequence of writes. */
  function After(m: Contents, ws: seq<Write>): Contents {
    if ws == [] then m else Apply(After(m, ws[..|ws| - 1]), ws[|ws| - 1])
  }

  /** Replaying one log record. An expiry record re-inserts a key that is there and not expired. */
  function Replayed(m: Contents, r: Wal.Record, now: nat): Contents {
    if r.op == Wal.OpSet then m[r.key := Slot(r.value, r.ttl)]
    else if r.op == Wal.OpDelete then m - {r.key}
    else if r.op == Wal.OpExpire && r.key in m && !Expired(m[r.key], now) then m[r.key := m[r.key].(expiry := r.ttl)]
    else m
  }

  predicate Expired(s: Slot, now: nat) {
    s.expiry != 0 && now >= s.expiry
  }

  /** An expiry time of zero means never. */
  lemma ExpiredExactly(s: Slot, now: nat)
    ensures Expired(s, now) <==> 0 < s.expiry <= now
  {
  }

  /** Key by key: a set gives the key this value and time, a deletion takes it away, an expiry record
      gives a key that is there and whose time has not come another time, and nothing else changes. */
  lemma ReplayedExactly(m: Contents, r: Wal.Record, now: nat, key: Bytes)
    ensures var m' := Replayed(m, r, now);
            && (key != r.key ==> SameAt(m', m, key))
            && (r.op == Wal.OpSet ==> r.key in m' && m'[r.key] == Slot(r.value, r.ttl))
            && (r.op == Wal.OpDelete ==> r.key !in m')
            && (r.op == Wal.OpExpire && r.key in m && (m[r.key].expiry == 0 || now < m[r.key].expiry) ==>
                  r.key in m' && m'[r.key] == Slot(m[r.key].value, r.ttl))
            && (r.op == Wal.OpExpire && (r.key !in m || 0 < m[r.key].expiry <= now) ==> m' == m)
            && (r.op != Wal.OpSet && r.op != Wal.OpDelete && r.op != Wal.OpExpire ==> m' == m)
  {
  }

  function Replay(m: Contents, rs: seq<Wal.Record>, now: nat): Contents {
    if rs == [] then m else Replayed(Replay(m, rs[..|rs| - 1], now), rs[|rs| - 1], now)
  }

  /** Inserting entries one after the other. */
  function InsertAll(m: Contents, es: seq<Snapshot.Entry>): Contents {
    if es == [] then m
    else
      var e := es[|es| - 1];
      InsertAll(m, es[..|es| - 1])[e.key := Slot(e.value.value, e.value.expiry)]
  }

  // ----- Replaying is writing again

  lemma {:induction false} ReplayIsWriting(m: Contents, ws: seq<Write>, now: nat)
    ensures Replay(m, RecordsOf(ws), now) == After(m, ws)
    decreases |ws|
  {
    if ws != [] {
      var k := |ws| - 1;
      assert RecordsOf(ws)[..k] == RecordsOf(ws[..k]);
      ReplayIsWriting(m, ws[..k], now);
    }
  }

  lemma {:induction false} AfterSplits(m: Contents, a: seq<Write>, b: seq<Write>)
    ensures After(m, a + b) == After(After(m, a), b)
    decreases |b|
  {
    if b == [] {
      assert a + b == a;
    } else {
      var k := |b| - 1;
      assert (a + b)[..|a + b| - 1] == a + b[..k];
      AfterSplits(m, a, b[..k]);
    }
  }

  ghost predicate Touched(ws: seq<Write>, key: Bytes) {
    exists i :: 0 <= i < |ws| && ws[i].key == key
  }

  ghost predicate SameAt(m: Contents, n: Contents, key: Bytes) {
    (key in m <==> key in n) && (key in m ==> m[key] == n[key])
  }

  /** Where a sequence of writes touches a key it alone decides what is there; elsewhere it
      changes nothing. */
  lemma {:induction false} WritesDecide(m: Contents, n: Contents, ws: seq<Write>, key: Bytes)
    ensures Touched(ws, key) ==> SameAt(After(m, ws), After(n, ws), key)
    ensures !Touched(ws, key) ==> SameAt(After(m, ws), m, key)
    decreases |ws|
  {
    if ws != [] {
      var k := |ws| - 1;
      WritesDecide(m, n, ws[..k], key);
      if Touched(ws[..k], key) {
        var i :| 0 <= i < k && ws[..k][i].key == key;
        assert ws[i].key == key;
      }
      assert Touched(ws, key) <==> Touched(ws[..k], key) || ws[k].key == key by {
        if Touched(ws, key) {
          var i :| 0 <= i < |ws| && ws[i].key == key;
          assert i < k ==> ws[..k][i].key == key;
        }
      }
    }
  }

  lemma ContentsEqual(m: Contents, n: Contents)
    requires forall key :: SameAt(m, n, key)
    ensures m == n
  {
    assert forall key :: key in m <==> key in n by {
      forall key ensures key in m <==> key in n {
        assert SameAt(m, n, key);
      }
    }
    forall key | key in m ensures m[key] == n[key] {
      assert SameAt(m, n, key);
    }
  }

  /** Replaying writes onto contents that already have them changes nothing. */
  lemma WritingAgain(m: Contents, ws: seq<Write>)
    ensures After(After(m, ws), ws) == After(m, ws)
  {
    forall key ensures SameAt(After(After(m, ws), ws), After(m, ws), key) {
      WritesDecide(After(m, ws), m, ws, key);
    }
    ContentsEqual(After(After(m, ws), ws), After(m, ws));
  }

  // ----- Snapshots of contents

  /** The entries, in some order and with any access data, are what the table holds. */
  ghost predicate Enumerates(es: seq<Snapshot.Entry>, m: Contents) {
    && |es| < TwoTo64
    && (forall i, j :: 0 <= i < j < |es| ==> es[i].key != es[j].key)
    && (forall i :: 0 <= i < |es| ==>
          es[i].key in m && m[es[i].key] == Slot(es[i].value.value, es[i].value.expiry))
    && (forall key :: key in m ==> exists i :: 0 <= i < |es| && es[i].key == key)
  }

  ghost predicate Short(m: Contents) {
    forall key :: key in m ==> |key| < TwoTo32 && |m[key].value| < TwoTo32
  }

  lemma {:induction false} InsertAllHas(es: seq<Snapshot.Entry>, n: nat, key: Bytes)
    requires n <= |es| && forall i, j :: 0 <= i < j < |es| ==> es[i].key != es[j].key
    ensures var m := InsertAll(map[], es[..n]);
            && (key in m <==> exists i :: 0 <= i < n && es[i].key == key)
            && forall i :: 0 <= i < n && es[i].key == key ==> m[key] == Slot(es[i].value.value, es[i].value.expiry)
    decreases n
  {
    if n > 0 {
      assert es[..n][..n - 1] == es[..n - 1];
      InsertAllHas(es, n - 1, key);
    }
  }

  /** Loading a snapshot into an empty table restores what the table held. */
  lemma LoadRestores(es: seq<Snapshot.Entry>, m: Contents)
    requires Enumerates(es, m) && Short(m)
    ensures Snapshot.Load(Snapshot.SnapshotBytes(es)) == Snapshot.LoadResult(true, es)
    ensures InsertAll(map[], es) == m
  {
    hide Snapshot.Load, Snapshot.SnapshotBytes;
    Snapshot.LoadWritten(es);
    forall i | 0 <= i < |es| ensures Snapshot.Clipped(es[i]) == es[i] {
      ClipIsExact(es[i].key);
      ClipIsExact(es[i].value.value);
    }
    assert Snapshot.ClippedAll(es) == es;
    InsertRestores(es, m);
  }

  lemma InsertRestores(es: seq<Snapshot.Entry>, m: Contents)
    requires Enumerates(es, m)
    ensures InsertAll(map[], es) == m
  {
    hide InsertAll;
    assert es[..|es|] == es;
    var r := InsertAll(map[], es);
    forall key ensures SameAt(r, m, key) {
      InsertAllHas(es, |es|, key);
    }
    ContentsEqual(r, m);
  }

  // ----- The store and its runs

  datatype Option<T> = None | Some(value: T)

  /** `wal` is the synced log file, `pending` the writer's buffer and `batch` the size at which it is full. */
  datatype Store = Store(contents: Contents, snapshot: Option<Bytes>, wal: Bytes, pending: seq<Wal.Record>, batch: nat)

  datatype Step =
    | DoWrite(write: Write)
    | FlushLog
    | EnableLog(batch: nat)
    | TakeSnapshot(entries: seq<Snapshot.Entry>)
    | TruncateLog

  function Flushed(s: Store): Store {
    s.(wal := s.wal + Wal.EncodeAll(s.pending), pending := [])
  }

  /** The log writer flushes by itself when its batch is full. Opening the log again closes the old
      writer, which flushes. Truncating closes the writer, empties the file and opens the log again
      without naming a batch size, so that a size chosen earlier is forgotten. */
  ghost function Next(s: Store, step: Step): Store {
    match step
    case DoWrite(w) =>
      var s' := s.(contents := Apply(s.contents, w), pending := s.pending + [RecordOf(w)]);
      if |s'.pending| >= s.batch then Flushed(s') else s'
    case FlushLog => Flushed(s)
    case EnableLog(batch) => Flushed(s).(batch := batch)
    case TakeSnapshot(es) =>
      if Enumerates(es, s.contents) then s.(snapshot := Some(Snapshot.SnapshotBytes(es))) else s
    case TruncateLog => s.(wal := [], pending := [], batch := Wal.DefaultBatch)
  }

  ghost function Exec(run: seq<Step>): Store {
    if run == [] then Store(map[], None, [], [], Wal.DefaultBatch)
    else Next(Exec(run[..|run| - 1]), run[|run| - 1])
  }

  ghost function Writes(run: seq<Step>): seq<Write> {
    if run == [] then []
    else
      var ws := Writes(run[..|run| - 1]);
      match run[|run| - 1]
      case DoWrite(w) => ws + [w]
      case _ => ws
  }

  /** How many writes a run has made durable: those whose records were flushed. */
  ghost function Synced(run: seq<Step>): nat {
    if run == [] then 0
    else
      var before := run[..|run| - 1];
      match run[|run| - 1]
      case DoWrite(_) =>
        if |Exec(before).pending| + 1 >= Exec(before).batch then |Writes(run)| else Synced(before)
      case TakeSnapshot(_) => Synced(before)
      case _ => |Writes(run)|
  }

  /** The number of writes the last snapshot has seen. */
  ghost function SnapshotAt(run: seq<Step>): nat {
    if run == [] then 0
    else
      var before := run[..|run| - 1];
      if run[|run| - 1].TakeSnapshot? && Enumerates(run[|run| - 1].entries, Exec(before).contents)
      then |Writes(before)| else SnapshotAt(before)
  }

  /** Where the log file starts: the number of writes made before it was last truncated. */
  ghost function LogFrom(run: seq<Step>): nat {
    if run == [] then 0
    else if run[|run| - 1].TruncateLog? then |Writes(run)|
    else LogFrom(run[..|run| - 1])
  }

  /** A crash leaves what was synced and any part of what was being written. */
  ghost predicate CanSurvive(s: Store, bytes: Bytes) {
    exists n :: |s.wal| <= n <= |s.wal + Wal.EncodeAll(s.pending)| && bytes == (s.wal + Wal.EncodeAll(s.pending))[..n]
  }

  /** Loading the snapshot, if there is one, into an empty table and replaying the log. */
  ghost function Recover(snapshot: Option<Bytes>, bytes: Bytes, now: nat): Contents {
    var start := match snapshot
                 case None => map[]
                 case Some(file) => InsertAll(map[], Snapshot.Load(file).inserted);
    Replay(start, Wal.ReadAll(bytes), now)
  }

  /** How many writes the surviving bytes of the log reach. */
  ghost function Reached(run: seq<Step>, bytes: Bytes): nat {
    LogFrom(run) + |Wal.ReadAll(bytes)|
  }

  // ----- The invariant of all runs

  /** The log holds the writes from `from` on, of which those up to `synced` are in the file, and
      the snapshot has the first `seen` writes. */
  ghost predicate Inv(s: Store, ws: seq<Write>, from: nat, seen: nat, synced: nat) {
    && from <= synced <= |ws| && seen <= |ws|
    && s.contents == After(map[], ws)
    && s.wal == Wal.EncodeAll(RecordsOf(ws[from..synced]))
    && s.pending == RecordsOf(ws[synced..])
    && (s.snapshot.None? ==> seen == 0)
    && (s.snapshot.Some? ==> Captures(s.snapshot.value, After(map[], ws[..seen])))
    && ShortWrites(ws)
  }

  ghost predicate ShortWrites(ws: seq<Write>) {
    forall i :: 0 <= i < |ws| ==> |ws[i].key| < TwoTo32 && (ws[i].Put? ==> |ws[i].value| < TwoTo32)
  }

  /** The file is a snapshot of these contents. */
  ghost predicate Captures(file: Bytes, m: Contents) {
    exists es :: Enumerates(es, m) && file == Snapshot.SnapshotBytes(es)
  }

  lemma RecordsSplit(a: seq<Write>, b: seq<Write>)
    ensures RecordsOf(a + b) == RecordsOf(a) + RecordsOf(b)
  {
  }

  lemma OneMoreWrite(m: Contents, ws: seq<Write>, w: Write)
    ensures After(m, ws + [w]) == Apply(After(m, ws), w)
    ensures RecordsOf([w]) == [RecordOf(w)]
  {
    hide Apply;
    assert (ws + [w])[..|ws|] == ws;
  }

  lemma FlushMoves(ws: seq<Write>, from: nat, synced: nat)
    requires from <= synced <= |ws|
    ensures Wal.EncodeAll(RecordsOf(ws[from..]))
         == Wal.EncodeAll(RecordsOf(ws[from..synced])) + Wal.EncodeAll(RecordsOf(ws[synced..]))
  {
    hide Wal.EncodeAll;
    assert ws[from..] == ws[from..synced] + ws[synced..];
    RecordsSplit(ws[from..synced], ws[synced..]);
    Wal.EncodeAllSplits(RecordsOf(ws[from..synced]), RecordsOf(ws[synced..]));
  }

  lemma FlushKeeps(s: Store, ws: seq<Write>, from: nat, seen: nat, synced: nat)
    requires Inv(s, ws, from, seen, synced)
    ensures Inv(Flushed(s), ws, from, seen, |ws|)
  {
    hide Wal.EncodeAll, Captures, After, RecordsOf;
    FlushMoves(ws, from, synced);
    assert ws[from..|ws|] == ws[from..] && ws[|ws|..] == [];
    assert RecordsOf(ws[|ws|..]) == [];
  }

  lemma WriteKeeps(s: Store, ws: seq<Write>, from: nat, seen: nat, synced: nat, w: Write)
    requires Inv(s, ws, from, seen, synced) && |w.key| < TwoTo32 && (w.Put? ==> |w.value| < TwoTo32)
    ensures Inv(s.(contents := Apply(s.contents, w), pending := s.pending + [RecordOf(w)]),
                ws + [w], from, seen, synced)
  {
    hide Wal.EncodeAll, Captures, After, RecordsOf, RecordOf, Apply;
    var ws' := ws + [w];
    OneMoreWrite(map[], ws, w);
    assert ws'[from..synced] == ws[from..synced] && ws'[..seen] == ws[..seen];
    assert ws'[synced..] == ws[synced..] + [w];
    RecordsSplit(ws[synced..], [w]);
  }

  lemma ShortBefore(run: seq<Step>)
    requires run != [] && ShortWrites(Writes(run))
    ensures ShortWrites(Writes(run[..|run| - 1]))
    ensures run[|run| - 1].DoWrite? ==>
      var w := run[|run| - 1].write; |w.key| < TwoTo32 && (w.Put? ==> |w.value| < TwoTo32)
  {
    var ws := Writes(run[..|run| - 1]);
    assert ws == Writes(run)[..|ws|];
    assert run[|run| - 1].DoWrite? ==> Writes(run)[|ws|] == run[|run| - 1].write;
  }

  lemma {:induction false} RunInv(run: seq<Step>)
    requires ShortWrites(Writes(run))
    ensures Inv(Exec(run), Writes(run), LogFrom(run), SnapshotAt(run), Synced(run))
    decreases |run|
  {
    hide Wal.EncodeAll, Captures, Enumerates, After, RecordsOf, RecordOf, Apply, Inv, ShortWrites;
    if run == [] {
      InitInv();
    } else {
      var before, step := run[..|run| - 1], run[|run| - 1];
      var s, ws := Exec(before), Writes(before);
      var from, seen, synced := LogFrom(before), SnapshotAt(before), Synced(before);
      ShortBefore(run);
      RunInv(before);
      InvFacts(s, ws, from, seen, synced);
      match step
      case DoWrite(w) =>
        WriteKeeps(s, ws, from, seen, synced, w);
        var s' := s.(contents := Apply(s.contents, w), pending := s.pending + [RecordOf(w)]);
        FlushKeeps(s', ws + [w], from, seen, synced);
      case FlushLog =>
        FlushKeeps(s, ws, from, seen, synced);
      case EnableLog(batch) =>
        FlushKeeps(s, ws, from, seen, synced);
        SameButBatch(Flushed(s), ws, from, seen, |ws|, batch);
      case TakeSnapshot(es) =>
        if Enumerates(es, s.contents) {
          SnapshotKeeps(s, ws, from, seen, synced, es);
        }
      case TruncateLog =>
        TruncateKeeps(s, ws, from, seen, synced);
    }
  }

  lemma InitInv()
    ensures Inv(Store(map[], None, [], [], Wal.DefaultBatch), [], 0, 0, 0)
  {
    NoRecords();
  }

  lemma SameButBatch(s: Store, ws: seq<Write>, from: nat, seen: nat, synced: nat, batch: nat)
    requires Inv(s, ws, from, seen, synced)
    ensures Inv(s.(batch := batch), ws, from, seen, synced)
  {
  }

  lemma InvFacts(s: Store, ws: seq<Write>, from: nat, seen: nat, synced: nat)
    requires Inv(s, ws, from, seen, synced)
    ensures from <= synced <= |ws| && seen <= |ws| && |s.pending| == |ws| - synced
  {
  }

  lemma SnapshotKeeps(
    s: Store, ws: seq<Write>, from: nat, seen: nat, synced: nat, es: seq<Snapshot.Entry>)
    requires Inv(s, ws, from, seen, synced) && Enumerates(es, s.contents)
    ensures Inv(s.(snapshot := Some(Snapshot.SnapshotBytes(es))), ws, from, |ws|, synced)
  {
    hide Wal.EncodeAll, After, RecordsOf, Enumerates, Snapshot.SnapshotBytes;
    assert ws[..|ws|] == ws;
    assert Captures(Snapshot.SnapshotBytes(es), After(map[], ws));
  }

  lemma TruncateKeeps(s: Store, ws: seq<Write>, from: nat, seen: nat, synced: nat)
    requires Inv(s, ws, from, seen, synced)
    ensures Inv(s.(wal := [], pending := [], batch := Wal.DefaultBatch), ws, |ws|, seen, |ws|)
  {
    NoRecords();
    hide Wal.EncodeAll, After, Captures;
    assert ws[|ws|..|ws|] == [] && ws[|ws|..] == [];
  }

  lemma NoRecords()
    ensures Wal.EncodeAll(RecordsOf([])) == []
  {
  }

  lemma {:induction false} AfterIsShort(ws: seq<Write>)
    requires ShortWrites(ws)
    ensures Short(After(map[], ws))
    decreases |ws|
  {
    if ws != [] {
      AfterIsShort(ws[..|ws| - 1]);
    }
  }

  lemma LogReads(ws: seq<Write>, n: nat)
    requires ShortWrites(ws) && n <= |Wal.EncodeAll(RecordsOf(ws))|
    ensures var k := Wal.Whole(RecordsOf(ws), n);
            k <= |ws| && Wal.ReadAll(Wal.EncodeAll(RecordsOf(ws))[..n]) == RecordsOf(ws[..k])
  {
    hide Wal.EncodeAll, Wal.ReadAll, Wal.EncodeRecord;
    var rs := RecordsOf(ws);
    Wal.TornLog(rs, n);
    var k := Wal.Whole(rs, n);
    forall i | 0 <= i < |rs| ensures Wal.Clipped(rs[i]) == rs[i] {
      ClipIsExact(rs[i].key);
      ClipIsExact(rs[i].value);
    }
    assert Wal.ClippedAll(rs[..k]) == rs[..k] == RecordsOf(ws[..k]);
  }

  lemma WholeCovers(rs: seq<Wal.Record>, k: nat, n: nat)
    requires k <= |rs| && |Wal.EncodeAll(rs[..k])| <= n
    ensures Wal.Whole(rs, n) >= k
    decreases k
  {
    hide Wal.EncodeRecord;
    if k > 0 {
      assert rs[..k][1..] == rs[1..][..k - 1];
      WholeCovers(rs[1..], k - 1, n - |Wal.EncodeRecord(rs[0])|);
    }
  }

  lemma SnapshotLoads(s: Store, ws: seq<Write>, from: nat, seen: nat, synced: nat)
    requires Inv(s, ws, from, seen, synced)
    ensures (match s.snapshot
             case None => map[]
             case Some(file) => InsertAll(map[], Snapshot.Load(file).inserted)) == After(map[], ws[..seen])
  {
    hide Wal.EncodeAll, Enumerates, After, RecordsOf, Snapshot.SnapshotBytes, Snapshot.Load, InsertAll;
    if s.snapshot.Some? {
      var m := After(map[], ws[..seen]);
      var es :| Enumerates(es, m) && s.snapshot.value == Snapshot.SnapshotBytes(es);
      ShortPrefix(ws, seen);
      AfterIsShort(ws[..seen]);
      LoadRestores(es, m);
    } else {
      NothingWritten();
      assert ws[..0] == [];
    }
  }

  lemma ShortPrefix(ws: seq<Write>, n: nat)
    requires ShortWrites(ws) && n <= |ws|
    ensures ShortWrites(ws[..n]) && ShortWrites(ws[n..])
  {
  }

  lemma NothingWritten()
    ensures After(map[], []) == map[]
  {
  }

  lemma RecoverWrites(s: Store, ws: seq<Write>, from: nat, seen: nat, synced: nat, n: nat, now: nat)
    requires Inv(s, ws, from, seen, synced)
    requires |s.wal| <= n <= |s.wal + Wal.EncodeAll(s.pending)|
    ensures var bytes := (s.wal + Wal.EncodeAll(s.pending))[..n];
            var j := from + |Wal.ReadAll(bytes)|;
            && synced <= j <= |ws| && seen <= |ws|
            && Recover(s.snapshot, bytes, now) == After(After(map[], ws[..seen]), ws[from..j])
  {
    hide Wal.EncodeAll, Wal.ReadAll, Wal.Whole, Captures, InsertAll, Snapshot.Load, Replay, After, RecordsOf;
    SnapshotLoads(s, ws, from, seen, synced);
    ShortPrefix(ws, from);
    FlushMoves(ws, from, synced);
    LogReads(ws[from..], n);
    SyncedAreWhole(ws, from, synced, n);
    var k := Wal.Whole(RecordsOf(ws[from..]), n);
    ReplayIsWriting(After(map[], ws[..seen]), ws[from..][..k], now);
    assert ws[from..][..k] == ws[from..from + k];
  }

  lemma SyncedAreWhole(ws: seq<Write>, from: nat, synced: nat, n: nat)
    requires from <= synced <= |ws| && |Wal.EncodeAll(RecordsOf(ws[from..synced]))| <= n
    ensures Wal.Whole(RecordsOf(ws[from..]), n) >= synced - from
  {
    hide Wal.EncodeAll, Wal.Whole;
    var rs := RecordsOf(ws[from..]);
    assert rs[..synced - from] == RecordsOf(ws[from..synced]);
    WholeCovers(rs, synced - from, n);
  }

  /** Replaying a log that starts before the snapshot was taken. */
  lemma ReplayOverlaps(ws: seq<Write>, from: nat, seen: nat, j: nat)
    requires from <= seen <= j <= |ws|
    ensures After(After(map[], ws[..seen]), ws[from..j]) == After(map[], ws[..j])
  {
    hide After;
    var m := After(map[], ws[..from]);
    assert ws[from..j] == ws[from..seen] + ws[seen..j];
    assert ws[..seen] == ws[..from] + ws[from..seen];
    assert ws[..j] == ws[..seen] + ws[seen..j];
    AfterSplits(map[], ws[..from], ws[from..seen]);
    AfterSplits(map[], ws[..seen], ws[seen..j]);
    AfterSplits(After(map[], ws[..seen]), ws[from..seen], ws[seen..j]);
    WritingAgain(m, ws[from..seen]);
  }

  // ----- What recovery gives after every run

  lemma CutAt(s: Store, bytes: Bytes) returns (n: nat)
    requires CanSurvive(s, bytes)
    ensures |s.wal| <= n <= |s.wal + Wal.EncodeAll(s.pending)| && bytes == (s.wal + Wal.EncodeAll(s.pending))[..n]
  {
    hide Wal.EncodeAll;
    n :| |s.wal| <= n <= |s.wal + Wal.EncodeAll(s.pending)| && bytes == (s.wal + Wal.EncodeAll(s.pending))[..n];
  }

  lemma ReachedIs(run: seq<Step>, bytes: Bytes)
    ensures Reached(run, bytes) == LogFrom(run) + |Wal.ReadAll(bytes)|
  {
  }

  /** Recovery, for every run and every crash: the contents the snapshot saw, with the surviving
      writes of the log made again. */
  lemma RecoveryGives(run: seq<Step>, bytes: Bytes, now: nat)
    requires ShortWrites(Writes(run)) && CanSurvive(Exec(run), bytes)
    ensures var ws, j := Writes(run), Reached(run, bytes);
            && LogFrom(run) <= Synced(run) <= j <= |ws| && SnapshotAt(run) <= |ws|
            && Recover(Exec(run).snapshot, bytes, now)
               == After(After(map[], ws[..SnapshotAt(run)]), ws[LogFrom(run)..j])
  {
    hide *;
    var s := Exec(run);
    var n := CutAt(s, bytes);
    RunInv(run);
    ReachedIs(run, bytes);
    InvFacts(s, Writes(run), LogFrom(run), SnapshotAt(run), Synced(run));
    RecoverWrites(s, Writes(run), LogFrom(run), SnapshotAt(run), Synced(run), n, now);
  }

  /** The contents a key has after recovery: if the surviving log writes it, those after all writes
      reached, and otherwise those the snapshot saw. */
  ghost function KeyFrom(ws: seq<Write>, from: nat, seen: nat, j: nat, key: Bytes): Contents
    requires from <= j <= |ws| && seen <= |ws|
  {
    if Touched(ws[from..j], key) then After(map[], ws[..j]) else After(map[], ws[..seen])
  }

  lemma MixAt(ws: seq<Write>, from: nat, seen: nat, j: nat, key: Bytes)
    requires from <= j <= |ws| && seen <= |ws|
    ensures SameAt(After(After(map[], ws[..seen]), ws[from..j]), KeyFrom(ws, from, seen, j, key), key)
  {
    hide After, Touched;
    WritesDecide(After(map[], ws[..seen]), After(map[], ws[..from]), ws[from..j], key);
    assert ws[..j] == ws[..from] + ws[from..j];
    AfterSplits(map[], ws[..from], ws[from..j]);
  }

  /** The first `i` writes leave what recovery gives, stated on the writes alone. */
  ghost predicate Agrees(ws: seq<Write>, from: nat, seen: nat, j: nat, i: nat)
    requires from <= j <= |ws| && seen <= |ws| && i <= |ws|
  {
    forall key :: SameAt(KeyFrom(ws, from, seen, j, key), After(map[], ws[..i]), key)
  }

  ghost predicate AgreesWithSome(ws: seq<Write>, from: nat, seen: nat, synced: nat, j: nat)
    requires from <= j <= |ws| && seen <= |ws|
  {
    exists i :: synced <= i <= |ws| && Agrees(ws, from, seen, j, i)
  }

  lemma MixExactly(ws: seq<Write>, from: nat, seen: nat, j: nat, i: nat)
    requires from <= j <= |ws| && seen <= |ws| && i <= |ws|
    ensures After(After(map[], ws[..seen]), ws[from..j]) == After(map[], ws[..i]) <==> Agrees(ws, from, seen, j, i)
  {
    hide After, KeyFrom;
    var mix := After(After(map[], ws[..seen]), ws[from..j]);
    var m := After(map[], ws[..i]);
    forall key ensures SameAt(mix, m, key) <==> SameAt(KeyFrom(ws, from, seen, j, key), m, key) {
      MixAt(ws, from, seen, j, key);
    }
    if Agrees(ws, from, seen, j, i) {
      forall key ensures SameAt(mix, m, key) {
        assert SameAt(KeyFrom(ws, from, seen, j, key), m, key);
      }
      ContentsEqual(mix, m);
    }
  }

  /** The contents after some of the first writes, and all that were made durable among them. */
  ghost predicate DurablePrefix(run: seq<Step>, m: Contents) {
    exists i :: Synced(run) <= i <= |Writes(run)| && m == After(map[], Writes(run)[..i])
  }

  /** What recovery promises to give. */
  ghost predicate Promise(run: seq<Step>, bytes: Bytes, now: nat) {
    DurablePrefix(run, Recover(Exec(run).snapshot, bytes, now))
  }

  lemma Kept(run: seq<Step>, bytes: Bytes, now: nat, i: nat)
    requires Synced(run) <= i <= |Writes(run)|
    requires Recover(Exec(run).snapshot, bytes, now) == After(map[], Writes(run)[..i])
    ensures Promise(run, bytes, now)
  {
  }

  /** For every run and every crash, exactly when the promise is kept: some prefix with all durable
      writes agrees, key by key, with the snapshot where the surviving log is silent and with the
      writes reached where it is not. */
  lemma PromiseExactly(run: seq<Step>, bytes: Bytes, now: nat)
    requires ShortWrites(Writes(run)) && CanSurvive(Exec(run), bytes)
    ensures var ws, j := Writes(run), Reached(run, bytes);
            && LogFrom(run) <= j <= |ws| && SnapshotAt(run) <= |ws|
            && (Promise(run, bytes, now) <==> AgreesWithSome(ws, LogFrom(run), SnapshotAt(run), Synced(run), j))
  {
    hide After, Recover, Agrees, Exec, Writes, Synced, LogFrom, SnapshotAt;
    RecoveryGives(run, bytes, now);
    var ws, from, seen, j := Writes(run), LogFrom(run), SnapshotAt(run), Reached(run, bytes);
    forall i | Synced(run) <= i <= |ws|
      ensures Agrees(ws, from, seen, j, i) <==> Recover(Exec(run).snapshot, bytes, now) == After(map[], ws[..i])
    {
      MixExactly(ws, from, seen, j, i);
    }
  }

  /** Every key the surviving log does not write is in the snapshot as the writes reached leave it. */
  ghost predicate NothingStale(ws: seq<Write>, from: nat, seen: nat, j: nat)
    requires from <= j <= |ws| && seen <= |ws|
  {
    forall key :: !Touched(ws[from..j], key) ==> SameAt(After(map[], ws[..seen]), After(map[], ws[..j]), key)
  }

  /** For every run and every crash, exactly when recovery gives the contents after the writes reached. */
  lemma RecoveryExactly(run: seq<Step>, bytes: Bytes, now: nat)
    requires ShortWrites(Writes(run)) && CanSurvive(Exec(run), bytes)
    ensures var ws, j := Writes(run), Reached(run, bytes);
            && LogFrom(run) <= j <= |ws| && SnapshotAt(run) <= |ws|
            && (Recover(Exec(run).snapshot, bytes, now) == After(map[], ws[..j])
                <==> NothingStale(ws, LogFrom(run), SnapshotAt(run), j))
  {
    hide After, Recover, Exec, Writes, Synced, LogFrom, SnapshotAt, Touched;
    RecoveryGives(run, bytes, now);
    var ws, from, seen, j := Writes(run), LogFrom(run), SnapshotAt(run), Reached(run, bytes);
    MixExactly(ws, from, seen, j, j);
    forall key ensures SameAt(KeyFrom(ws, from, seen, j, key), After(map[], ws[..j]), key)
      <==> Touched(ws[from..j], key) || SameAt(After(map[], ws[..seen]), After(map[], ws[..j]), key)
    {
    }
  }

  /** A crash between two records, reaching any number of writes that are not yet durable. */
  lemma CrashReaching(run: seq<Step>, j: nat) returns (bytes: Bytes)
    requires ShortWrites(Writes(run)) && Synced(run) <= j <= |Writes(run)|
    ensures CanSurvive(Exec(run), bytes) && Reached(run, bytes) == j
  {
    hide Wal.EncodeAll, Wal.ReadAll, After, RecordsOf, Exec, Writes, Synced, LogFrom, SnapshotAt, Captures;
    var s, ws, from, synced := Exec(run), Writes(run), LogFrom(run), Synced(run);
    RunInv(run);
    FlushMoves(ws, from, synced);
    FlushMoves(ws, from, j);
    FlushMoves(ws[..j], from, synced);
    assert ws[..j][from..] == ws[from..j] && ws[..j][from..synced] == ws[from..synced];
    bytes := Wal.EncodeAll(RecordsOf(ws[from..j]));
    var all := s.wal + Wal.EncodeAll(s.pending);
    assert bytes == all[..|bytes|];
    assert |s.wal| <= |bytes| <= |all|;
    ReadsWhole(ws, from, j);
  }

  lemma ReadsWhole(ws: seq<Write>, from: nat, j: nat)
    requires ShortWrites(ws) && from <= j <= |ws|
    ensures |Wal.ReadAll(Wal.EncodeAll(RecordsOf(ws[from..j])))| == j - from
  {
    hide Wal.EncodeAll, Wal.ReadAll;
    var part := ws[from..j];
    var n := |Wal.EncodeAll(RecordsOf(part))|;
    assert Wal.EncodeAll(RecordsOf(part))[..n] == Wal.EncodeAll(RecordsOf(part));
    LogReads(part, n);
    Wal.WholeOfAll(RecordsOf(part));
  }

  /** For every run, exactly when the promise is kept at every crash that can follow it: whatever
      number of writes the log reaches, the snapshot and those writes agree with some prefix. */
  lemma EveryCrashExactly(run: seq<Step>, now: nat)
    requires ShortWrites(Writes(run))
    ensures var ws, from, seen, synced := Writes(run), LogFrom(run), SnapshotAt(run), Synced(run);
            && from <= synced && seen <= |ws|
            && ((forall bytes :: CanSurvive(Exec(run), bytes) ==> Promise(run, bytes, now)) <==>
                forall j :: synced <= j <= |ws| ==> AgreesWithSome(ws, from, seen, synced, j))
  {
    hide *;
    var ws, from, seen, synced := Writes(run), LogFrom(run), SnapshotAt(run), Synced(run);
    RunInv(run);
    InvFacts(Exec(run), ws, from, seen, synced);
    if forall bytes :: CanSurvive(Exec(run), bytes) ==> Promise(run, bytes, now) {
      forall j | synced <= j <= |ws| ensures AgreesWithSome(ws, from, seen, synced, j) {
        var bytes := CrashReaching(run, j);
        PromiseExactly(run, bytes, now);
      }
    }
    if forall j :: synced <= j <= |ws| ==> AgreesWithSome(ws, from, seen, synced, j) {
      forall bytes | CanSurvive(Exec(run), bytes) ensures Promise(run, bytes, now) {
        RecoveryGives(run, bytes, now);
        PromiseExactly(run, bytes, now);
      }
    }
  }

  /** If the snapshot saw everything written before the last truncation, and the log reaches
      everything the snapshot saw, the promise is kept. */
  lemma RecoveryIsPrefix(run: seq<Step>, bytes: Bytes, now: nat)
    requires ShortWrites(Writes(run)) && CanSurvive(Exec(run), bytes)
    requires LogFrom(run) <= SnapshotAt(run) <= Reached(run, bytes)
    ensures Promise(run, bytes, now) && Reached(run, bytes) <= |Writes(run)|
    ensures Recover(Exec(run).snapshot, bytes, now) == After(map[], Writes(run)[..Reached(run, bytes)])
  {
    hide *;
    RecoveryGives(run, bytes, now);
    ReplayOverlaps(Writes(run), LogFrom(run), SnapshotAt(run), Reached(run, bytes));
    Kept(run, bytes, now, Reached(run, bytes));
  }

  // ----- A way of using the store that keeps the promise at every crash

  /** The log is flushed before a snapshot is taken and is truncated only when nothing was written since. */
  ghost predicate Disciplined(run: seq<Step>) {
    run != [] ==>
      var before := run[..|run| - 1];
      && Disciplined(before)
      && match run[|run| - 1]
         case TakeSnapshot(_) => Exec(before).pending == []
         case TruncateLog => SnapshotAt(before) == |Writes(before)|
         case _ => true
  }

  lemma {:induction false} DisciplineOrders(run: seq<Step>)
    requires ShortWrites(Writes(run)) && Disciplined(run)
    ensures LogFrom(run) <= SnapshotAt(run) <= Synced(run)
    decreases |run|
  {
    hide Inv, ShortWrites, Apply, RecordOf, Enumerates, Wal.EncodeAll;
    if run != [] {
      var before := run[..|run| - 1];
      ShortBefore(run);
      DisciplineOrders(before);
      RunInv(before);
      InvFacts(Exec(before), Writes(before), LogFrom(before), SnapshotAt(before), Synced(before));
    }
  }

  /** Whatever a crash leaves, at whatever point of a disciplined run. */
  lemma DisciplineKeepsPromise(run: seq<Step>, bytes: Bytes, now: nat)
    requires ShortWrites(Writes(run)) && CanSurvive(Exec(run), bytes) && Disciplined(run)
    ensures Promise(run, bytes, now)
  {
    hide *;
    DisciplineOrders(run);
    RecoveryGives(run, bytes, now);
    RecoveryIsPrefix(run, bytes, now);
  }

  // ----- What goes wrong otherwise

  /** After a truncation nothing but the snapshot is left. What was written since the snapshot is
      lost, flushed or not, unless it changed nothing. */
  lemma TruncationForgets(run: seq<Step>, bytes: Bytes, now: nat)
    requires ShortWrites(Writes(run)) && run != [] && run[|run| - 1].TruncateLog? && CanSurvive(Exec(run), bytes)
    ensures SnapshotAt(run) <= |Writes(run)| == Synced(run)
    ensures Recover(Exec(run).snapshot, bytes, now) == After(map[], Writes(run)[..SnapshotAt(run)])
    ensures Promise(run, bytes, now) <==> After(map[], Writes(run)[..SnapshotAt(run)]) == After(map[], Writes(run))
  {
    hide After, Recover, Exec, SnapshotAt, Writes, CanSurvive, Reached, ShortWrites;
    RecoveryGives(run, bytes, now);
    var ws := Writes(run);
    assert ws[|ws|..Reached(run, bytes)] == [] && ws[..|ws|] == ws;
    NoMoreWrites(After(map[], ws[..SnapshotAt(run)]));
  }

  lemma NoMoreWrites(m: Contents)
    ensures After(m, []) == m
  {
  }

  /** A truncation also forgets the batch size: fewer than a hundred writes after it are not durable
      until the log is flushed, whatever size was chosen before. */
  lemma {:induction false} TruncationForgetsBatch(run: seq<Step>, more: seq<Step>)
    requires run != [] && run[|run| - 1].TruncateLog? && |more| < Wal.DefaultBatch
    requires forall i :: 0 <= i < |more| ==> more[i].DoWrite?
    ensures Synced(run + more) == |Writes(run)| && |Writes(run + more)| == |Writes(run)| + |more|
    ensures Exec(run + more).batch == Wal.DefaultBatch && |Exec(run + more).pending| == |more|
    decreases |more|
  {
    hide RecordOf, Apply, Enumerates, Wal.EncodeAll;
    if more == [] {
      assert run + more == run;
    } else {
      var front := more[..|more| - 1];
      assert (run + more)[..|run + more| - 1] == run + front;
      TruncationForgetsBatch(run, front);
    }
  }

  lemma OneStep(run: seq<Step>, step: Step)
    ensures Exec(run + [step]) == Next(Exec(run), step)
    ensures Writes(run + [step]) == if step.DoWrite? then Writes(run) + [step.write] else Writes(run)
    ensures LogFrom(run + [step]) == if step.TruncateLog? then |Writes(run)| else LogFrom(run)
    ensures SnapshotAt(run + [step]) ==
      if step.TakeSnapshot? && Enumerates(step.entries, Exec(run).contents) then |Writes(run)| else SnapshotAt(run)
    ensures Synced(run + [step]) ==
      if (step.DoWrite? && |Exec(run).pending| + 1 < Exec(run).batch) || step.TakeSnapshot? then Synced(run)
      else |Writes(run + [step])|
  {
    hide Next, Enumerates;
    assert (run + [step])[..|run|] == run;
  }

  lemma Fresh()
    ensures Exec([]) == Store(map[], None, [], [], Wal.DefaultBatch) && Writes([]) == []
    ensures LogFrom([]) == Synced([]) == SnapshotAt([]) == 0
  {
  }
}
