/** Replaying records into a table with a memory limit: what its contents become when it evicts,
    exactly which keys that loses, and exactly which records it can take without evicting. */
module BoundedReplay {
  import opened Codec
  import opened Lists
  import opened Sizes
  import opened Recovery

  // ----- What the policy knows about the keys

  /** The number of the last touch of every key, or the access count of every stored key. */
  datatype Usage = Recency(touched: map<Bytes, nat>, clock: nat) | Frequency(counts: map<Bytes, nat>)

  /** A key that is there is read. */
  function Read(u: Usage, key: Bytes): Usage {
    match u
    case Recency(touched, clock) => Recency(touched[key := clock], clock + 1)
    case Frequency(counts) => if key in counts then Frequency(counts[key := (counts[key] + 1) % TwoTo64]) else u
  }

  /** A key is written with an access count, after the victims have gone. */
  function Written(u: Usage, key: Bytes, count: nat, victims: seq<Bytes>): Usage {
    match u
    case Recency(touched, clock) => Recency(touched[key := clock], clock + 1)
    case Frequency(counts) => Frequency((counts - Members(victims))[key := count])
  }

  function Removed(u: Usage, key: Bytes): Usage {
    match u
    case Recency(_, _) => u
    case Frequency(counts) => Frequency(counts - {key})
  }

  /** Each victim was the least recently touched key, or one of least count, of those still there. */
  ghost predicate Picks(u: Usage, keys: set<Bytes>, victims: seq<Bytes>) {
    match u
    case Recency(touched, _) =>
      forall i, key :: 0 <= i < |victims| && key in keys && key !in victims[..i] && key != victims[i] ==>
        victims[i] in touched && key in touched && touched[victims[i]] < touched[key]
    case Frequency(counts) =>
      forall i, key :: 0 <= i < |victims| && key in keys && key !in victims[..i] && key != [] ==>
        victims[i] in counts && key in counts && counts[victims[i]] <= counts[key]
  }

  // ----- What the limit looks at

  ghost function ValueSizes(m: Contents): map<Bytes, nat> {
    map key | key in m :: |m[key].value|
  }

  /** The size of all values. */
  ghost function Weight(m: Contents): nat {
    Sum(ValueSizes(m))
  }

  /** Each victim was there, and the values there at that moment exceeded the limit. */
  ghost predicate Needed(m: Contents, victims: seq<Bytes>, limit: nat) {
    forall i :: 0 <= i < |victims| ==>
      victims[i] in m && victims[i] !in victims[..i] && Weight(m - Members(victims[..i])) > limit
  }

  lemma FirstNeeded(m: Contents, victims: seq<Bytes>, limit: nat)
    requires Needed(m, victims, limit) && victims != []
    ensures Weight(m) > limit
  {
    hide Weight;
    assert victims[..0] == [] && m - Members([]) == m;
  }

  // ----- Replaying with evictions

  /** A record, and the access count its value is inserted with. */
  datatype Item = Item(record: Wal.Record, count: nat)

  function Records(items: seq<Item>): (rs: seq<Wal.Record>)
    ensures |rs| == |items|
  {
    seq(|items|, i requires 0 <= i < |items| => items[i].record)
  }

  datatype State = State(contents: Contents, usage: Usage)

  /** The record makes the table insert a value; only then does it look at its limit. */
  predicate Inserts(m: Contents, r: Wal.Record, now: nat) {
    r.op == Wal.OpSet || (r.op == Wal.OpExpire && r.key in m && !Expired(m[r.key], now))
  }

  /** An expiry record reads the key before it inserts it again. */
  function Looked(u: Usage, r: Wal.Record): Usage {
    if r.op == Wal.OpExpire then Read(u, r.key) else u
  }

  function CountFor(u: Usage, item: Item): nat {
    if item.record.op == Wal.OpExpire && u.Frequency? && item.record.key in u.counts then u.counts[item.record.key]
    else item.count
  }

  /** Replaying one record, with the keys the table evicts before it writes. */
  function StepEvicting(s: State, item: Item, victims: seq<Bytes>, now: nat): State {
    var r, m := item.record, s.contents;
    if Inserts(m, r, now) then
      var slot := if r.op == Wal.OpSet then Slot(r.value, r.ttl) else m[r.key].(expiry := r.ttl);
      var u := Looked(s.usage, r);
      State((m - Members(victims))[r.key := slot], Written(u, r.key, CountFor(u, item), victims))
    else
      State(Replayed(m, r, now), if r.op == Wal.OpDelete then Removed(s.usage, r.key) else s.usage)
  }

  function ReplayEvicting(s: State, items: seq<Item>, evicted: seq<seq<Bytes>>, now: nat): State
    requires |items| == |evicted|
  {
    if items == [] then s
    else
      var k := |items| - 1;
      StepEvicting(ReplayEvicting(s, items[..k], evicted[..k], now), items[k], evicted[k], now)
  }

  /** A table evicts only for an insert that finds it above its limit, the keys its policy picks, and
      until it is within the limit, unless it holds the empty key. */
  ghost predicate SoundStep(s: State, item: Item, victims: seq<Bytes>, limit: nat, now: nat) {
    var r, m := item.record, s.contents;
    && (victims != [] ==> Inserts(m, r, now))
    && Needed(m, victims, limit)
    && Picks(Looked(s.usage, r), m.Keys, victims)
    && (Inserts(m, r, now) && [] !in m ==> Weight(m - Members(victims)) <= limit)
  }

  ghost predicate SoundAt(s: State, items: seq<Item>, evicted: seq<seq<Bytes>>, k: nat, limit: nat, now: nat)
    requires k < |items| == |evicted|
  {
    SoundStep(ReplayEvicting(s, items[..k], evicted[..k], now), items[k], evicted[k], limit, now)
  }

  ghost predicate Sound(s: State, items: seq<Item>, evicted: seq<seq<Bytes>>, limit: nat, now: nat) {
    |items| == |evicted| && forall k :: 0 <= k < |items| ==> SoundAt(s, items, evicted, k, limit, now)
  }

  lemma SoundLength(s: State, items: seq<Item>, evicted: seq<seq<Bytes>>, limit: nat, now: nat)
    requires Sound(s, items, evicted, limit, now)
    ensures |items| == |evicted|
  {
  }

  lemma SoundFront(s: State, items: seq<Item>, evicted: seq<seq<Bytes>>, n: nat, limit: nat, now: nat)
    requires Sound(s, items, evicted, limit, now) && n <= |items|
    ensures Sound(s, items[..n], evicted[..n], limit, now)
  {
    hide ReplayEvicting, SoundStep;
    forall k | 0 <= k < n ensures SoundAt(s, items[..n], evicted[..n], k, limit, now) {
      assert items[..n][..k] == items[..k] && evicted[..n][..k] == evicted[..k];
      assert SoundAt(s, items, evicted, k, limit, now);
    }
  }

  lemma LastItem(s: State, items: seq<Item>, evicted: seq<seq<Bytes>>, limit: nat, now: nat)
    requires Sound(s, items, evicted, limit, now) && items != []
    ensures var n := |items| - 1;
      && |evicted| == n + 1
      && SoundStep(ReplayEvicting(s, items[..n], evicted[..n], now), items[n], evicted[n], limit, now)
      && ReplayEvicting(s, items, evicted, now)
         == StepEvicting(ReplayEvicting(s, items[..n], evicted[..n], now), items[n], evicted[n], now)
  {
    hide SoundStep, StepEvicting;
    assert SoundAt(s, items, evicted, |items| - 1, limit, now);
  }

  lemma NoItems(s: State, limit: nat, now: nat)
    ensures Sound(s, [], [], limit, now) && ReplayEvicting(s, [], [], now) == s && Records([]) == []
  {
  }

  lemma OneMore(
    s: State, items: seq<Item>, evicted: seq<seq<Bytes>>, item: Item, victims: seq<Bytes>, limit: nat, now: nat)
    requires Sound(s, items, evicted, limit, now)
    requires SoundStep(ReplayEvicting(s, items, evicted, now), item, victims, limit, now)
    ensures Sound(s, items + [item], evicted + [victims], limit, now)
    ensures ReplayEvicting(s, items + [item], evicted + [victims], now)
         == StepEvicting(ReplayEvicting(s, items, evicted, now), item, victims, now)
  {
    var items', evicted' := items + [item], evicted + [victims];
    assert items'[..|items|] == items && evicted'[..|items|] == evicted;
    hide ReplayEvicting, SoundStep;
    forall k | 0 <= k < |items'| ensures SoundAt(s, items', evicted', k, limit, now) {
      if k < |items| {
        assert items'[..k] == items[..k] && evicted'[..k] == evicted[..k];
        assert SoundAt(s, items, evicted, k, limit, now);
      }
    }
  }

  lemma {:induction false} Joined(
    s: State, a: seq<Item>, va: seq<seq<Bytes>>, b: seq<Item>, vb: seq<seq<Bytes>>, limit: nat, now: nat)
    requires |a| == |va| && Sound(s, a, va, limit, now) && Sound(ReplayEvicting(s, a, va, now), b, vb, limit, now)
    ensures Sound(s, a + b, va + vb, limit, now)
    ensures ReplayEvicting(s, a + b, va + vb, now) == ReplayEvicting(ReplayEvicting(s, a, va, now), b, vb, now)
    decreases |b|
  {
    hide *;
    var start := ReplayEvicting(s, a, va, now);
    SoundLength(start, b, vb, limit, now);
    if b == [] {
      assert a + b == a && va + vb == va;
      NoItems(start, limit, now);
    } else {
      var n := |b| - 1;
      SoundFront(start, b, vb, n, limit, now);
      Joined(s, a, va, b[..n], vb[..n], limit, now);
      LastItem(start, b, vb, limit, now);
      OneMore(s, a + b[..n], va + vb[..n], b[n], vb[n], limit, now);
      assert a + b == a + b[..n] + [b[n]] && va + vb == va + vb[..n] + [vb[n]];
    }
  }

  // ----- Which keys are lost

  /** A later record that decides what is under the key, whatever was there before. */
  predicate Decides(r: Wal.Record, key: Bytes) {
    r.key == key && (r.op == Wal.OpSet || r.op == Wal.OpDelete)
  }

  /** The key was evicted while another was inserted, replaying without a limit would have it then,
      and no later record sets or deletes it. */
  ghost predicate LostAt(m: Contents, items: seq<Item>, evicted: seq<seq<Bytes>>, now: nat, key: Bytes, k: nat)
    requires k < |items| == |evicted|
  {
    && key in evicted[k] && items[k].record.key != key && key in Replay(m, Records(items[..k]), now)
    && forall j :: k < j < |items| ==> !Decides(items[j].record, key)
  }

  ghost predicate Lost(m: Contents, items: seq<Item>, evicted: seq<seq<Bytes>>, now: nat, key: Bytes)
    requires |items| == |evicted|
  {
    exists k :: 0 <= k < |items| && LostAt(m, items, evicted, now, key, k)
  }

  lemma LostStep(m: Contents, items: seq<Item>, evicted: seq<seq<Bytes>>, now: nat, key: Bytes)
    requires |items| == |evicted| && items != []
    ensures var n := |items| - 1;
      var r := items[n].record;
      Lost(m, items, evicted, now, key) <==>
        || (key in evicted[n] && r.key != key && key in Replay(m, Records(items[..n]), now))
        || (Lost(m, items[..n], evicted[..n], now, key) && !Decides(r, key))
  {
    hide Replay, Decides;
    var n := |items| - 1;
    var front, gone := items[..n], evicted[..n];
    forall k | 0 <= k < n ensures LostAt(m, items, evicted, now, key, k) <==>
      LostAt(m, front, gone, now, key, k) && !Decides(items[n].record, key)
    {
      assert front[..k] == items[..k];
      assert forall j :: k < j < n ==> front[j] == items[j];
    }
    if key in evicted[n] && items[n].record.key != key && key in Replay(m, Records(items[..n]), now) {
      assert LostAt(m, items, evicted, now, key, n);
    }
    if Lost(m, front, gone, now, key) && !Decides(items[n].record, key) {
      var k :| 0 <= k < n && LostAt(m, front, gone, now, key, k);
      assert LostAt(m, items, evicted, now, key, k);
    }
    if Lost(m, items, evicted, now, key) {
      var k :| 0 <= k < |items| && LostAt(m, items, evicted, now, key, k);
      assert k == n || LostAt(m, front, gone, now, key, k);
    }
  }

  /** What one record does to a key that both have alike, or that only the replay without a limit has. */
  lemma StepAt(m: Contents, s: State, item: Item, victims: seq<Bytes>, limit: nat, now: nat, key: Bytes)
    requires SoundStep(s, item, victims, limit, now)
    requires (key in m && key !in s.contents) || SameAt(s.contents, m, key)
    ensures var m', s' := Replayed(m, item.record, now), StepEvicting(s, item, victims, now).contents;
      if || (key in victims && item.record.key != key && key in m)
         || (key !in s.contents && key in m && !Decides(item.record, key))
      then key in m' && key !in s'
      else SameAt(s', m', key)
  {
    hide Weight, Picks, Needed, Written, Removed, Looked, CountFor;
  }

  /** Key by key: what a table that evicts has, compared with replaying without a limit. */
  lemma {:induction false} ReplayAt(
    s: State, items: seq<Item>, evicted: seq<seq<Bytes>>, limit: nat, now: nat, key: Bytes)
    requires Sound(s, items, evicted, limit, now)
    ensures var m, m' := ReplayEvicting(s, items, evicted, now).contents, Replay(s.contents, Records(items), now);
      if Lost(s.contents, items, evicted, now, key) then key in m' && key !in m else SameAt(m, m', key)
    decreases |items|
  {
    if items == [] {
      NoItems(s, limit, now);
    } else {
      var n := |items| - 1;
      var front, gone := items[..n], evicted[..n];
      hide Sound, StepEvicting, ReplayEvicting, SoundStep, Lost, Decides, Replayed;
      SoundFront(s, items, evicted, n, limit, now);
      LastItem(s, items, evicted, limit, now);
      ReplayAt(s, front, gone, limit, now, key);
      LostStep(s.contents, items, evicted, now, key);
      assert Records(items)[..n] == Records(front);
      var m, s' := Replay(s.contents, Records(front), now), ReplayEvicting(s, front, gone, now);
      StepAt(m, s', items[n], evicted[n], limit, now, key);
    }
  }

  /** The limit makes no difference to the contents if and only if no key is lost. */
  lemma LosesExactly(s: State, items: seq<Item>, evicted: seq<seq<Bytes>>, limit: nat, now: nat)
    requires Sound(s, items, evicted, limit, now)
    ensures |items| == |evicted|
    ensures ReplayEvicting(s, items, evicted, now).contents == Replay(s.contents, Records(items), now) <==>
      forall key :: !Lost(s.contents, items, evicted, now, key)
  {
    hide *;
    SoundLength(s, items, evicted, limit, now);
    var m, m' := ReplayEvicting(s, items, evicted, now).contents, Replay(s.contents, Records(items), now);
    forall key ensures Lost(s.contents, items, evicted, now, key) ==> key in m' && key !in m {
      ReplayAt(s, items, evicted, limit, now, key);
    }
    if forall key :: !Lost(s.contents, items, evicted, now, key) {
      forall key ensures SameAt(m, m', key) {
        ReplayAt(s, items, evicted, limit, now, key);
      }
      ContentsEqual(m, m');
    }
  }

  // ----- When nothing is evicted

  ghost predicate Evicts(evicted: seq<seq<Bytes>>) {
    exists k :: 0 <= k < |evicted| && evicted[k] != []
  }

  /** Whenever a record inserts, what the records before it leave is within the limit. */
  ghost predicate FitsAt(m: Contents, rs: seq<Wal.Record>, k: nat, limit: nat, now: nat)
    requires k < |rs|
  {
    var before := Replay(m, rs[..k], now);
    Inserts(before, rs[k], now) ==> Weight(before) <= limit
  }

  ghost predicate Fits(m: Contents, rs: seq<Wal.Record>, limit: nat, now: nat) {
    forall k :: 0 <= k < |rs| ==> FitsAt(m, rs, k, limit, now)
  }

  ghost predicate NoEmptyKey(m: Contents, rs: seq<Wal.Record>) {
    [] !in m && forall k :: 0 <= k < |rs| ==> rs[k].key != []
  }

  lemma {:induction false} EmptyKeyNeverStored(m: Contents, rs: seq<Wal.Record>, n: nat, now: nat)
    requires NoEmptyKey(m, rs) && n <= |rs|
    ensures [] !in Replay(m, rs[..n], now)
    decreases n
  {
    if n > 0 {
      EmptyKeyNeverStored(m, rs, n - 1, now);
      assert rs[..n][..n - 1] == rs[..n - 1] && rs[..n][n - 1] == rs[n - 1];
    }
  }

  /** Up to the first eviction the table has what replaying without a limit leaves. */
  lemma NothingEvicted(s: State, items: seq<Item>, evicted: seq<seq<Bytes>>, n: nat, limit: nat, now: nat)
    requires Sound(s, items, evicted, limit, now) && n <= |items| && forall k :: 0 <= k < n ==> evicted[k] == []
    ensures ReplayEvicting(s, items[..n], evicted[..n], now).contents == Replay(s.contents, Records(items)[..n], now)
  {
    hide ReplayEvicting, Replay;
    SoundFront(s, items, evicted, n, limit, now);
    LosesExactly(s, items[..n], evicted[..n], limit, now);
    assert Records(items[..n]) == Records(items)[..n];
  }

  lemma {:induction false} FirstEviction(
    s: State, items: seq<Item>, evicted: seq<seq<Bytes>>, k: nat, limit: nat, now: nat)
    requires Sound(s, items, evicted, limit, now) && k < |items| && evicted[k] != []
    ensures !Fits(s.contents, Records(items), limit, now)
    decreases k
  {
    if j :| 0 <= j < k && evicted[j] != [] {
      FirstEviction(s, items, evicted, j, limit, now);
    } else {
      hide Weight, ReplayEvicting, Replay, Inserts, Needed, Picks;
      NothingEvicted(s, items, evicted, k, limit, now);
      assert SoundAt(s, items, evicted, k, limit, now);
      FirstNeeded(Replay(s.contents, Records(items)[..k], now), evicted[k], limit);
      assert !FitsAt(s.contents, Records(items), k, limit, now);
    }
  }

  /** Replaying evicts if and only if the records do not fit, which can be told from the records
      and the contents before. */
  lemma EvictsExactly(s: State, items: seq<Item>, evicted: seq<seq<Bytes>>, limit: nat, now: nat)
    requires Sound(s, items, evicted, limit, now)
    ensures Fits(s.contents, Records(items), limit, now) ==>
      !Evicts(evicted) && ReplayEvicting(s, items, evicted, now).contents == Replay(s.contents, Records(items), now)
    ensures NoEmptyKey(s.contents, Records(items)) ==>
      (Evicts(evicted) <==> !Fits(s.contents, Records(items), limit, now))
  {
    hide Weight, ReplayEvicting, Replay, Inserts, Needed, Picks;
    var m, rs := s.contents, Records(items);
    if Evicts(evicted) {
      var k :| 0 <= k < |evicted| && evicted[k] != [];
      FirstEviction(s, items, evicted, k, limit, now);
    } else {
      assert items[..|items|] == items && evicted[..|items|] == evicted && rs[..|rs|] == rs;
      NothingEvicted(s, items, evicted, |items|, limit, now);
      if NoEmptyKey(m, rs) {
        forall k | 0 <= k < |rs| ensures FitsAt(m, rs, k, limit, now) {
          NothingEvicted(s, items, evicted, k, limit, now);
          EmptyKeyNeverStored(m, rs, k, now);
          assert SoundAt(s, items, evicted, k, limit, now);
          var before := Replay(m, rs[..k], now);
          assert before - Members([]) == before;
        }
      }
    }
  }

  // ----- A condition that is easy to check

  function ValueBytes(rs: seq<Wal.Record>): nat {
    if rs == [] then 0
    else ValueBytes(rs[..|rs| - 1]) + if rs[|rs| - 1].op == Wal.OpSet then |rs[|rs| - 1].value| else 0
  }

  lemma PutWeight(m: Contents, key: Bytes, slot: Slot)
    ensures Weight(m[key := slot]) == Weight(m - {key}) + |slot.value|
    ensures Weight(m) == Weight(m - {key}) + if key in m then |m[key].value| else 0
  {
    var sizes := ValueSizes(m);
    assert ValueSizes(m - {key}) == sizes - {key};
    assert ValueSizes(m[key := slot]) == (sizes - {key})[key := |slot.value|];
    SumAdd(sizes - {key}, key, |slot.value|);
    if key in m {
      SumRemove(sizes, key);
    } else {
      assert sizes - {key} == sizes;
    }
  }

  lemma {:induction false} WeightGrows(m: Contents, rs: seq<Wal.Record>, n: nat, now: nat)
    requires n <= |rs|
    ensures Weight(Replay(m, rs[..n], now)) <= Weight(m) + ValueBytes(rs[..n]) && ValueBytes(rs[..n]) <= ValueBytes(rs)
    decreases |rs|, n
  {
    hide Weight, Expired;
    if n > 0 {
      var r, before := rs[n - 1], Replay(m, rs[..n - 1], now);
      assert rs[..n][..n - 1] == rs[..n - 1] && rs[..n][n - 1] == r;
      WeightGrows(m, rs, n - 1, now);
      PutWeight(before, r.key, Slot(r.value, r.ttl));
      if r.key in before {
        PutWeight(before, r.key, before[r.key].(expiry := r.ttl));
      }
    }
    if n < |rs| {
      assert rs[..|rs| - 1][..n] == rs[..n];
      WeightGrows(m, rs[..|rs| - 1], n, now);
    } else {
      assert rs[..n] == rs;
    }
  }

  /** Records whose values all fit beside what is there never evict. */
  lemma RoomForAll(m: Contents, rs: seq<Wal.Record>, limit: nat, now: nat)
    requires Weight(m) + ValueBytes(rs) <= limit
    ensures Fits(m, rs, limit, now)
  {
    hide Weight, ValueBytes, Replay;
    forall k | 0 <= k < |rs| ensures FitsAt(m, rs, k, limit, now) {
      WeightGrows(m, rs, k, now);
    }
  }
}
