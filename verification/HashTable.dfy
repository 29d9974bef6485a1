/** The storage engine's table: chained buckets, an eviction policy that must track exactly the
    stored keys, and a write-ahead log. */
module HashTable {
  import opened Codec
  import opened Lists
  import opened Sizes
  import opened Snapshot
  import opened Buckets
  import Lru
  import Lfu
  import Wal
  import R = Recovery
  import B = BoundedReplay
  import L = TableLog

  type Model = map<Bytes, ValueEntry>

  ghost function SizesOf(m: Model): map<Bytes, nat> {
    map key | key in m :: |m[key].value|
  }

  ghost function CountsOf(m: Model): map<Bytes, nat> {
    map key | key in m :: m[key].accessCount
  }

  function SlotOf(value: ValueEntry): R.Slot {
    R.Slot(value.value, value.expiry)
  }

  /** What of the table the log and the snapshots speak of. */
  ghost function ContentsOf(m: Model): R.Contents {
    map key | key in m :: SlotOf(m[key])
  }

  predicate PowerOfTwo(n: nat) {
    n == 1 || (n > 1 && n % 2 == 0 && PowerOfTwo(n / 2))
  }

  // ----- What an eviction run did

  /** Each victim was stored and the values stored at that moment exceeded the limit. */
  ghost predicate EachNeeded(m: Model, victims: seq<Bytes>, limit: nat) {
    forall i :: 0 <= i < |victims| ==>
      && victims[i] in m && victims[i] !in victims[..i]
      && Sum(SizesOf(m - Members(victims[..i]))) > limit
  }

  /** Each victim had the least access count of all keys stored at that moment. */
  ghost predicate LeastUsed(m: Model, victims: seq<Bytes>) {
    forall i, key :: 0 <= i < |victims| && key in m && key != [] && key !in victims[..i] ==>
      victims[i] in m && m[victims[i]].accessCount <= m[key].accessCount
  }

  /** The victims are the tail of the recency list, from its end. */
  ghost predicate Tail(before: seq<Lru.Tracked>, kept: nat, victims: seq<Bytes>) {
    && kept + |victims| == |before|
    && forall i :: 0 <= i < |victims| ==> victims[i] == before[|before| - 1 - i].key
  }

  /** The first power of two that is not below the requested capacity. */
  method Capacity(requested: nat) returns (n: nat)
    ensures n >= requested && PowerOfTwo(n) && (n == 1 || n < 2 * requested)
  {
    n := 1;
    while n < requested
      invariant PowerOfTwo(n) && (n == 1 || n < 2 * requested)
      decreases requested - n
    {
      n := n * 2;
    }
  }

  /** Under the recency policy an insert evicts a key, be it its own, exactly when the key stands
      behind the part of the list that is kept. */
  lemma EvictedExactly(order: seq<Lru.Tracked>, limit: nat, victims: seq<Bytes>, key: Bytes)
    requires Tail(order, Lru.Kept(order, limit), victims)
    ensures key in victims <==> exists i :: Lru.Kept(order, limit) <= i < |order| && order[i].key == key
  {
    var kept := Lru.Kept(order, limit);
    hide Lru.Kept;
    if key in victims {
      var k :| 0 <= k < |victims| && victims[k] == key;
      assert order[|order| - 1 - k].key == key;
    }
    if i :| kept <= i < |order| && order[i].key == key {
      assert victims[|order| - 1 - i] == key;
    }
  }

  /** The list lost its entry of the key and nothing else. */
  ghost predicate Unlisted(before: seq<Lru.Tracked>, after: seq<Lru.Tracked>, key: Bytes) {
    forall i :: 0 <= i < |before| && before[i].key == key ==> after == Omit(before, i)
  }

  lemma LastUnlisted(before: seq<Lru.Tracked>, after: seq<Lru.Tracked>, key: Bytes)
    requires before != [] && before[|before| - 1].key == key && Unlisted(before, after, key)
    ensures after == before[..|before| - 1]
  {
    Lru.OmitLast(before);
  }

  /** Eviction left the part of the list that fits, and the rest are the victims. */
  ghost predicate CutTail(before: seq<Lru.Tracked>, after: seq<Lru.Tracked>, victims: seq<Bytes>, limit: nat) {
    after == before[..Lru.Kept(before, limit)] && Tail(before, |after|, victims)
  }

  lemma CutIsTail(before: seq<Lru.Tracked>, after: seq<Lru.Tracked>, victims: seq<Bytes>, limit: nat)
    ensures CutTail(before, after, victims, limit) ==> Tail(before, Lru.Kept(before, limit), victims)
  {
  }

  ghost predicate EvictingTail(listed: seq<Lru.Tracked>, order: seq<Lru.Tracked>, victims: seq<Bytes>, limit: nat) {
    order <= listed && Lru.Kept(order, limit) == Lru.Kept(listed, limit) && Tail(listed, |order|, victims)
  }

  /** What eviction starts from. */
  datatype Start = Start(
    model: Model, listed: seq<Lru.Tracked>, log: seq<Wal.Record>, mark: Wal.Mark, touched: map<Bytes, nat>, clock: nat,
    size: nat)

  /** How far eviction has come, by the recency policy or by counts. */
  ghost predicate Progress(
    start: Start, victims: seq<Bytes>, now: Model, order: seq<Lru.Tracked>, recency: bool, limit: nat)
  {
    && now == start.model - Members(victims)
    && EachNeeded(start.model, victims, limit)
    && (if recency then EvictingTail(start.listed, order, victims, limit) else LeastUsed(start.model, victims))
  }

  class Table {
    const hash: Hash
    const lru: Lru.Policy?
    const lfu: Lfu.Policy?
    const wal: Wal.Writer?
    var buckets: seq<Chain>
    var count: nat
    ghost var model: Model
    ghost var trace: seq<L.Op>

    /** The recency list, the number of the last touch of every key, and the next such number. */
    ghost function Order(): seq<Lru.Tracked>
      reads lru
    {
      if lru == null then [] else lru.order
    }

    ghost function Touched(): map<Bytes, nat>
      reads lru
    {
      if lru == null then map[] else lru.touched
    }

    ghost function Clock(): nat
      reads lru
    {
      if lru == null then 0 else lru.clock
    }

    /** What the policy in use goes by. */
    ghost function Usage(): B.Usage
      reads this`model, lru
    {
      if lru != null then B.Recency(Touched(), Clock()) else B.Frequency(CountsOf(model))
    }

    ghost function State(): B.State
      reads this`model, lru
    {
      B.State(ContentsOf(model), Usage())
    }

    /** The policy in use tracks exactly the keys of `m`, with their sizes and counts. */
    ghost predicate Tracking(m: Model, exempt: Bytes)
      reads lru, lfu
    {
      && (lru == null) != (lfu == null)
      && (lru != null ==> lru.Valid() && Lru.SizeMap(lru.index) == SizesOf(m))
      && (lfu != null ==> lfu.Valid(exempt) && lfu.sizes == SizesOf(m) && lfu.counts == CountsOf(m))
    }

    ghost predicate Stored()
      reads this`buckets, this`count, this`model
    {
      && Holds(buckets, hash, model)
      && PowerOfTwo(|buckets|)
      && count == |model|
      && 4 * count <= 3 * |buckets| + 4
    }

    ghost predicate WalValid()
      reads wal
    {
      wal != null ==> wal.Valid()
    }

    ghost function Log(): seq<Wal.Record>
      reads wal
    {
      if wal == null then [] else wal.appended
    }

    /** Since this mark the log has only been appended to. */
    ghost function Marked(): Wal.Mark
      reads wal
    {
      if wal == null then Wal.Mark(Wal.LogState([], [], 0), 0) else wal.mark
    }

    /** The trace explains the contents and every record handed to the log. */
    ghost predicate Logged()
      reads this, wal
    {
      && ContentsOf(model) == L.Live(trace)
      && (wal != null ==> Log() == R.RecordsOf(L.LogOf(trace)))
    }

    ghost predicate Valid()
      reads this, lru, lfu, wal
    {
      Stored() && Tracking(model, []) && WalValid() && Logged()
    }

    function Memory(): nat
      reads lru, lfu
    {
      if lru != null then lru.memory else if lfu != null then lfu.memory else 0
    }

    function Limit(): nat {
      if lru != null then lru.limit else if lfu != null then lfu.limit else 0
    }

    constructor (hash: Hash, capacity: nat, limit: nat, leastRecent: bool, logging: bool, batchSize: nat)
      ensures Valid() && model == map[] && trace == [] && this.hash == hash
      ensures Limit() == limit && (lru != null <==> leastRecent) && (wal != null <==> logging)
      ensures lru != null ==> fresh(lru) && Order() == []
      ensures lfu != null ==> fresh(lfu)
      ensures wal != null ==> fresh(wal) && wal.State() == Wal.LogState([], [], batchSize)
      ensures |buckets| >= capacity && (|buckets| == 1 || |buckets| < 2 * capacity)
    {
      hide Holds, PowerOfTwo, Lru.Consistent, Lru.ByRecency, Lfu.Covers, Wal.EncodeAll;
      var n := Capacity(capacity);
      NoneHeld(n, hash);
      this.hash := hash;
      buckets, count, model, trace := seq(n, _ => []), 0, map[], [];
      if leastRecent {
        lru := new Lru.Policy(limit);
        lfu := null;
      } else {
        lru := null;
        lfu := new Lfu.Policy(limit);
      }
      if logging {
        wal := new Wal.Writer([], batchSize);
      } else {
        wal := null;
      }
    }

    /** Looks through the chain of the key. */
    method Find(key: Bytes) returns (b: nat, i: int)
      requires Stored()
      ensures |buckets| > 0 && b == Place(hash(key), |buckets|)
      ensures key !in model ==> i == -1
      ensures key in model ==>
        0 <= i < |buckets[b]| && buckets[b][i] == Pair(key, model[key], hash(key))
    {
      hide ChainHolds, Place;
      b := Place(hash(key), |buckets|);
      var chain := buckets[b];
      i := 0;
      while i < |chain|
        invariant 0 <= i <= |chain|
        invariant forall k :: 0 <= k < i ==> chain[k].key != key
      {
        if chain[i].key == key {
          FoundAt(buckets, hash, model, b, i);
          return;
        }
        i := i + 1;
      }
      NotFound(buckets, hash, model, key);
      i := -1;
    }

    method Append(r: Wal.Record)
      requires WalValid()
      modifies wal
      ensures WalValid() && (wal != null ==> Log() == old(Log()) + [r]) && Marked() == old(Marked())
    {
      if wal != null {
        wal.Append(r);
      }
    }

    // ----- Keeping the policy in step

    method Track(key: Bytes, value: ValueEntry, ghost m: Model)
      requires Tracking(m, []) && key !in m
      modifies lru, lfu
      ensures Tracking(m[key := value], []) && Memory() == old(Memory()) + |value.value|
      ensures lru != null ==>
        && Order() == [Lru.Tracked(key, value.lastAccess, |value.value|)] + old(Order())
        && Touched() == old(Touched())[key := old(Clock())]
        && Clock() == old(Clock()) + 1
    {
      hide Lru.Consistent, Lru.ByRecency, Lfu.Covers, Sum;
      TrackedKeys(m, []);
      assert SizesOf(m[key := value]) == SizesOf(m)[key := |value.value|];
      assert CountsOf(m[key := value]) == CountsOf(m)[key := value.accessCount];
      if lru != null {
        lru.OnInsert(key, |value.value|, value.lastAccess);
      } else {
        lfu.OnInsert(key, |value.value|, value.accessCount);
      }
    }

    method Untrack(key: Bytes, size: nat, ghost m: Model)
      requires Tracking(m, key) && key in m && size == |m[key].value|
      modifies lru, lfu
      ensures Tracking(m - {key}, []) && Memory() == old(Memory()) - size
      ensures lru != null ==>
        && Unlisted(old(Order()), Order(), key)
        && Touched() == old(Touched()) && Clock() == old(Clock())
    {
      hide Lru.Consistent, Lru.ByRecency, Lfu.Covers, Sum, Omit;
      TrackedKeys(m, key);
      assert SizesOf(m - {key}) == SizesOf(m) - {key};
      assert CountsOf(m - {key}) == CountsOf(m) - {key};
      assert SizesOf(m)[key] == size;
      if lru != null {
        lru.OnDelete(key, size);
      } else {
        lfu.OnDelete(key, size);
      }
    }

    /** A read changes the access data and nothing else. */
    method Touch(key: Bytes, value: ValueEntry, ghost m: Model)
      requires Tracking(m, []) && key in m && m[key].value == value.value
      modifies lru, lfu
      ensures Tracking(m[key := value], []) && Memory() == old(Memory())
      ensures lru != null ==> Touched() == old(Touched())[key := old(Clock())] && Clock() == old(Clock()) + 1
    {
      hide Lru.Consistent, Lru.ByRecency, Lfu.Covers, Sum, Omit;
      TrackedKeys(m, []);
      assert SizesOf(m[key := value]) == SizesOf(m);
      assert CountsOf(m[key := value]) == CountsOf(m)[key := value.accessCount];
      if lru != null {
        lru.OnAccess(key, value.lastAccess);
      } else {
        lfu.OnAccess(key, value.accessCount);
      }
    }

    lemma TrackedKeys(m: Model, exempt: Bytes)
      requires Tracking(m, exempt)
      ensures lru != null ==>
        lru.index.Keys == m.Keys && forall key :: key in m ==> lru.index[key].size == |m[key].value|
      ensures lfu != null ==> lfu.counts.Keys == m.Keys && lfu.sizes.Keys == m.Keys
      ensures Memory() == Sum(SizesOf(m))
    {
      if lru != null {
        assert lru.index.Keys == Lru.SizeMap(lru.index).Keys == SizesOf(m).Keys;
        forall key | key in m ensures lru.index[key].size == |m[key].value| {
          assert Lru.SizeMap(lru.index)[key] == SizesOf(m)[key];
        }
      }
    }

    // ----- Removing, moving, evicting

    /** Also when the key is not there a deletion is logged. */
    method Erase(key: Bytes) returns (found: bool)
      requires Stored() && Tracking(model, key) && WalValid()
      modifies this`buckets, this`count, this`model, lru, lfu, wal
      ensures Stored() && Tracking(model, []) && WalValid()
      ensures found == (key in old(model)) && model == old(model) - {key} && |buckets| == old(|buckets|)
      ensures Memory() == old(Memory()) - if found then |old(model)[key].value| else 0
      ensures (wal != null ==> Log() == old(Log()) + [R.RecordOf(R.Del(key))]) && Marked() == old(Marked())
      ensures lru != null ==>
        && (!found ==> Order() == old(Order()))
        && (found ==> Unlisted(old(Order()), Order(), key))
        && Touched() == old(Touched()) && Clock() == old(Clock())
    {
      hide *;
      Append(R.RecordOf(R.Del(key)));
      var b, i := Find(key);
      if i == -1 {
        assert model - {key} == model;
        StillCovered(model, key);
        return false;
      }
      var size := |buckets[b][i].value.value|;
      ghost var m := model;
      Unlink(b, i, key);
      Untrack(key, size, m);
      return true;
    }

    method Unlink(b: nat, i: nat, key: Bytes)
      requires Stored() && key in model && b == Place(hash(key), |buckets|)
      requires i < |buckets[b]| && buckets[b][i].key == key
      modifies this`buckets, this`count, this`model
      ensures Stored() && model == old(model) - {key} && |buckets| == old(|buckets|)
    {
      hide ChainHolds, Place, PowerOfTwo, Omit;
      Buckets.Erase(buckets, hash, model, i, key);
      RemoveShrinks(model, key);
      buckets := buckets[b := Omit(buckets[b], i)];
      count := count - 1;
      model := model - {key};
    }

    lemma StillCovered(m: Model, key: Bytes)
      requires Tracking(m, key) && key !in m
      ensures Tracking(m, [])
    {
      TrackedKeys(m, key);
    }

    method Rehash(capacity: nat)
      requires Holds(buckets, hash, model) && capacity > 0
      modifies this`buckets
      ensures Holds(buckets, hash, model) && |buckets| == capacity
    {
      hide ChainHolds, Place, Moved;
      var moved: seq<Chain> := seq(capacity, _ => []);
      var n := |buckets|;
      NoneHeld(capacity, hash);
      MovedAll(model, hash, n);
      for b := 0 to n
        invariant buckets == old(buckets)
        invariant |moved| == capacity && Holds(moved, hash, Moved(model, hash, n, b, []))
      {
        var chain := buckets[b];
        assert chain[..0] == [];
        for i := 0 to |chain|
          invariant buckets == old(buckets)
          invariant |moved| == capacity && Holds(moved, hash, Moved(model, hash, n, b, chain[..i]))
        {
          MoveOne(model, hash, n, b, chain, i);
          Add(moved, hash, Moved(model, hash, n, b, chain[..i]), chain[i].key, chain[i].value);
          var target := Place(chain[i].hash, capacity);
          moved := moved[target := moved[target] + [chain[i]]];
        }
        assert chain[..|chain|] == chain;
        MovedChain(model, hash, n, b, chain);
      }
      buckets := moved;
    }

    /** Doubles the buckets when the load passes three quarters. */
    method ResizeIfNeeded()
      requires Stored()
      modifies this`buckets
      ensures Stored() && 4 * count <= 3 * |buckets|
      ensures |buckets| == if 4 * count > 3 * old(|buckets|) then 2 * old(|buckets|) else old(|buckets|)
    {
      hide Holds;
      if 4 * count > 3 * |buckets| {
        Rehash(2 * |buckets|);
      }
    }

    method ShouldEvict() returns (over: bool)
      requires Tracking(model, [])
      ensures over == (Memory() > Limit())
    {
      if lru != null {
        over := lru.ShouldEvict();
      } else {
        over := lfu.ShouldEvict();
      }
    }

    method Victim() returns (victim: Bytes)
      requires Tracking(model, [])
      modifies lfu
      ensures Tracking(model, victim) && Memory() == old(Memory())
      ensures victim != [] ==> victim in model
      ensures lru != null ==> if Order() == [] then victim == [] else victim == Order()[|Order()| - 1].key
      ensures lfu != null ==> model == map[] || Lfu.Least(CountsOf(model), victim)
      ensures victim == [] ==> model == map[] || [] in model
    {
      TrackedKeys(model, []);
      if lru != null {
        ListedKeys(model);
        victim := lru.Candidate();
      } else {
        victim := lfu.Candidate();
      }
    }

    lemma ListedKeys(m: Model)
      requires Tracking(m, []) && lru != null
      ensures forall i :: 0 <= i < |Order()| ==> Order()[i].key in m
      ensures Order() == [] ==> m == map[]
      ensures lru.memory == Lru.Total(Order())
    {
      TrackedKeys(m, []);
    }

    /** Evicts until the values fit the limit or the policy has no candidate. The empty string is
        the only candidate that stops it early. */
    method EvictIfNeeded() returns (ghost victims: seq<Bytes>)
      requires Stored() && Tracking(model, []) && WalValid()
      modifies this`buckets, this`count, this`model, lru, lfu, wal
      ensures Stored() && Tracking(model, []) && WalValid() && |buckets| == old(|buckets|)
      ensures model == old(model) - Members(victims)
      ensures Dropping(old(Log()), victims) && Marked() == old(Marked())
      ensures EachNeeded(old(model), victims, Limit())
      ensures Memory() > Limit() ==> [] in model
      ensures lfu != null ==> LeastUsed(old(model), victims)
      ensures lfu != null && Memory() > Limit() ==> Lfu.Least(CountsOf(model), [])
      ensures lru != null ==>
        Touched() == old(Touched()) && Clock() == old(Clock()) && CutTail(old(Order()), Order(), victims, Limit())
    {
      hide *;
      victims := [];
      ghost var start := Start(model, Order(), Log(), Marked(), Touched(), Clock(), |buckets|);
      EvictionStarts(start);
      var over := ShouldEvict();
      while over
        invariant Midway(start, victims) && Tracking(model, []) && over == (Memory() > Limit())
        decreases |model|
      {
        var victim := EvictOne(start, victims);
        if victim == [] {
          break;
        }
        victims := victims + [victim];
        over := ShouldEvict();
      }
      EvictionEnds(start, victims);
    }

    /** What holds while evicting: how far it has come from where it started. */
    ghost predicate Midway(start: Start, victims: seq<Bytes>)
      reads this, lru, lfu, wal
    {
      && Stored() && Tracking(model, []) && WalValid() && |buckets| == start.size
      && Progress(start, victims, model, Order(), lru != null, Limit()) && Dropping(start.log, victims)
      && Touched() == start.touched && Clock() == start.clock && Marked() == start.mark
    }

    /** The policy has no candidate though the values exceed the limit: the empty key stands in the way. */
    ghost predicate Stuck()
      reads this, lru
    {
      && [] in model
      && (lfu != null ==> Lfu.Least(CountsOf(model), []))
      && (lru != null ==> Order() != [] && Order()[|Order()| - 1].key == [])
    }

    lemma EvictionStarts(start: Start)
      requires Stored() && Tracking(model, []) && WalValid()
      requires start == Start(model, Order(), Log(), Marked(), Touched(), Clock(), |buckets|)
      ensures Midway(start, [])
    {
      hide Stored, Tracking, WalValid, Log, Order, Touched, Clock, Marked, Limit, Lru.Kept;
      assert R.RecordsOf(L.Deletes([])) == [];
      assert model - Members([]) == model;
    }

    lemma EvictionEnds(start: Start, victims: seq<Bytes>)
      requires Midway(start, victims) && (Memory() <= Limit() || Stuck())
      ensures Stored() && Tracking(model, []) && WalValid() && |buckets| == start.size
      ensures model == start.model - Members(victims) && Dropping(start.log, victims) && Marked() == start.mark
      ensures EachNeeded(start.model, victims, Limit()) && (Memory() > Limit() ==> [] in model)
      ensures lfu != null ==> LeastUsed(start.model, victims) && (Memory() > Limit() ==> Lfu.Least(CountsOf(model), []))
      ensures lru != null ==>
        Touched() == start.touched && Clock() == start.clock && CutTail(start.listed, Order(), victims, Limit())
    {
      hide Stored, WalValid, Dropping, LeastUsed, EachNeeded, Lfu.Least, CountsOf, Members, Lru.Total, Lru.Consistent;
      hide Lru.ByRecency, Lfu.Covers, SizesOf, Lru.SizeMap;
      if lru != null {
        ListedKeys(model);
        assert Lru.Kept(Order(), Limit()) == |Order()|;
      }
    }

    lemma MidwayIs(start: Start, victims: seq<Bytes>)
      requires Midway(start, victims)
      ensures Stored() && Tracking(model, []) && WalValid() && |buckets| == start.size
      ensures Progress(start, victims, model, Order(), lru != null, Limit()) && Dropping(start.log, victims)
      ensures Touched() == start.touched && Clock() == start.clock && Marked() == start.mark
    {
    }

    lemma MidwayFrom(start: Start, victims: seq<Bytes>)
      requires Stored() && Tracking(model, []) && WalValid() && |buckets| == start.size
      requires Progress(start, victims, model, Order(), lru != null, Limit()) && Dropping(start.log, victims)
      requires Touched() == start.touched && Clock() == start.clock && Marked() == start.mark
      ensures Midway(start, victims)
    {
    }

    /** The deletions of the victims were logged, in order, after `log`. */
    ghost predicate Dropping(log: seq<Wal.Record>, victims: seq<Bytes>)
      reads wal
    {
      wal != null ==> Log() == log + R.RecordsOf(L.Deletes(victims))
    }

    lemma DroppingIs(log: seq<Wal.Record>, victims: seq<Bytes>)
      requires Dropping(log, victims)
      ensures wal != null ==> Log() == log + R.RecordsOf(L.Deletes(victims))
    {
    }

    lemma DroppingMore(log: seq<Wal.Record>, victims: seq<Bytes>, victim: Bytes)
      requires wal != null ==> Log() == log + R.RecordsOf(L.Deletes(victims)) + [R.RecordOf(R.Del(victim))]
      ensures Dropping(log, victims + [victim])
    {
      MoreRecords(log, victims, victim);
    }

    /** One turn of the loop; the empty victim means that there was none and nothing changed. */
    method EvictOne(ghost start: Start, ghost victims: seq<Bytes>) returns (victim: Bytes)
      requires Midway(start, victims) && Memory() > Limit()
      modifies this`buckets, this`count, this`model, lru, lfu, wal
      ensures Tracking(model, [])
      ensures victim != [] ==> Midway(start, victims + [victim]) && |model| < old(|model|)
      ensures victim == [] ==> Midway(start, victims) && Memory() == old(Memory()) && Stuck()
    {
      hide *;
      MidwayIs(start, victims);
      victim := Victim();
      ghost var left, order := model, Order();
      if victim == [] {
        NoVictim(start, victims);
        return;
      }
      RemoveShrinks(model, victim);
      DroppingIs(start.log, victims);
      OverLimit(victim);
      var _ := Erase(victim);
      OneEvicted(start, victims, victim, left, order);
    }

    /** The policy gave no candidate. */
    lemma NoVictim(start: Start, victims: seq<Bytes>)
      requires Stored() && Tracking(model, []) && WalValid() && |buckets| == start.size && Memory() > Limit()
      requires Progress(start, victims, model, Order(), lru != null, Limit()) && Dropping(start.log, victims)
      requires Touched() == start.touched && Clock() == start.clock && Marked() == start.mark
      requires lru != null && Order() != [] ==> Order()[|Order()| - 1].key == []
      requires lfu != null ==> model == map[] || Lfu.Least(CountsOf(model), [])
      requires model == map[] || [] in model
      ensures Midway(start, victims) && Stuck()
    {
      hide *;
      TrackedKeys(model, []);
      NothingStored(model);
      OnePolicy(model);
      if lru != null {
        ListedKeys(model);
      }
      MidwayFrom(start, victims);
      StuckIs();
    }

    lemma OverLimit(victim: Bytes)
      requires Tracking(model, victim) && Memory() > Limit()
      ensures Sum(SizesOf(model)) > Limit() && (lru == null) != (lfu == null)
      ensures lru != null ==> Lru.Total(Order()) > Limit()
    {
      hide Lru.ByRecency, Lfu.Covers, Sum, Lru.Total;
      TrackedKeys(model, victim);
    }

    /** The candidate was erased. */
    lemma OneEvicted(start: Start, victims: seq<Bytes>, victim: Bytes, left: Model, order: seq<Lru.Tracked>)
      requires Stored() && Tracking(model, []) && WalValid() && |buckets| == start.size
      requires Progress(start, victims, left, order, lru != null, Limit())
      requires victim in left && victim != [] && Sum(SizesOf(left)) > Limit() && model == left - {victim}
      requires wal != null ==> Log() == start.log + R.RecordsOf(L.Deletes(victims)) + [R.RecordOf(R.Del(victim))]
      requires Touched() == start.touched && Clock() == start.clock && Marked() == start.mark
      requires lru != null ==>
        && order != [] && order[|order| - 1].key == victim && Unlisted(order, Order(), victim)
        && Lru.Total(order) > Limit()
      requires lru == null ==> Lfu.Least(CountsOf(left), victim)
      ensures Midway(start, victims + [victim])
    {
      hide *;
      DroppingMore(start.log, victims, victim);
      ProgressMore(start, victims, victim, left, order, Order(), lru != null, Limit());
      MidwayFrom(start, victims + [victim]);
    }

    lemma OnePolicy(m: Model)
      requires Tracking(m, [])
      ensures (lru == null) != (lfu == null)
    {
    }

    lemma StuckIs()
      requires [] in model && (lfu != null ==> Lfu.Least(CountsOf(model), []))
      requires lru != null ==> Order() != [] && Order()[|Order()| - 1].key == []
      ensures Stuck()
    {
    }

    // ----- The operations

    /** Writes the pair into its bucket, over an old value if there is one. */
    method Put(key: Bytes, value: ValueEntry)
      requires Stored() && 4 * count <= 3 * |buckets| && Tracking(model, [])
      modifies this`buckets, this`count, this`model, lru, lfu
      ensures Stored() && Tracking(model, []) && model == old(model)[key := value] && |buckets| == old(|buckets|)
      ensures Memory() <= old(Memory()) + |value.value|
      ensures lru != null ==> Touched() == old(Touched())[key := old(Clock())] && Clock() == old(Clock()) + 1
    {
      hide *;
      ghost var m := model;
      var b, i := Find(key);
      if i != -1 {
        var size := |buckets[b][i].value.value|;
        Overwrite(b, i, key, value);
        StillTracked(m, key);
        Untrack(key, size, m);
        Track(key, value, m - {key});
        assert (m - {key})[key := value] == m[key := value];
      } else {
        Link(b, key, value);
        Track(key, value, m);
      }
    }

    method Overwrite(b: nat, i: nat, key: Bytes, value: ValueEntry)
      requires Stored() && key in model && b == Place(hash(key), |buckets|)
      requires i < |buckets[b]| && buckets[b][i].key == key
      modifies this`buckets, this`model
      ensures Stored() && model == old(model)[key := value] && |buckets| == old(|buckets|)
    {
      hide ChainHolds, Place, PowerOfTwo;
      Set(buckets, hash, model, i, key, value);
      PutSize(model, key, value);
      buckets := buckets[b := buckets[b][i := Pair(key, value, hash(key))]];
      model := model[key := value];
    }

    method Link(b: nat, key: Bytes, value: ValueEntry)
      requires Stored() && key !in model && 4 * count <= 3 * |buckets| && b == Place(hash(key), |buckets|)
      modifies this`buckets, this`count, this`model
      ensures Stored() && model == old(model)[key := value] && |buckets| == old(|buckets|)
    {
      hide ChainHolds, Place, PowerOfTwo;
      Add(buckets, hash, model, key, value);
      PutSize(model, key, value);
      buckets := buckets[b := buckets[b] + [Pair(key, value, hash(key))]];
      count := count + 1;
      model := model[key := value];
    }

    lemma StillTracked(m: Model, key: Bytes)
      requires Tracking(m, [])
      ensures Tracking(m, key)
    {
    }

    /** The set is logged first, then the deletions of the keys evicted to make room. After the
        call the values exceed the limit by at most the one just written, unless the empty key is stored. */
    method Insert(key: Bytes, value: ValueEntry) returns (ok: bool, ghost victims: seq<Bytes>)
      requires Valid()
      modifies this, lru, lfu, wal
      ensures Valid() && ok && model == (old(model) - Members(victims))[key := value]
      ensures trace == old(trace) + [L.Inserted(key, SlotOf(value), victims)] && Marked() == old(Marked())
      ensures EachNeeded(old(model), victims, Limit())
      ensures [] !in old(model) ==> Sum(SizesOf(old(model) - Members(victims))) <= Limit()
      ensures [] !in old(model) ==> Memory() <= Limit() + |value.value|
      ensures lfu != null ==> LeastUsed(old(model), victims)
      ensures lru != null ==> Tail(old(Order()), Lru.Kept(old(Order()), Limit()), victims)
      ensures B.Picks(old(Usage()), old(model).Keys, victims)
      ensures Usage() == B.Written(old(Usage()), key, value.accessCount, victims)
    {
      hide *;
      Parts();
      TailIsOldest();
      UsageIs();
      Append(R.RecordOf(R.Put(key, value.value, value.expiry)));
      ghost var log := Log();
      victims := EvictIfNeeded();
      DroppingIs(log, victims);
      TrackedKeys(model, []);
      assert Memory() > Limit() ==> [] in old(model) by {
        EmptyKeyWasStored(old(model), victims);
      }
      OnePolicy(model);
      CutIsTail(old(Order()), Order(), victims, Limit());
      LeastUsedPicks(old(model), victims);
      ResizeIfNeeded();
      Put(key, value);
      ok := true;
      trace := trace + [L.Inserted(key, SlotOf(value), victims)];
      Settled(old(model), old(trace), old(Log()), old(Usage()), key, value, victims);
    }

    /** All that an insert leaves behind fits together. */
    lemma Settled(m: Model, before: seq<L.Op>, log: seq<Wal.Record>, u: B.Usage, key: Bytes, value: ValueEntry,
                  victims: seq<Bytes>)
      requires Stored() && Tracking(model, []) && WalValid() && model == (m - Members(victims))[key := value]
      requires ContentsOf(m) == L.Live(before) && trace == before + [L.Inserted(key, SlotOf(value), victims)]
      requires wal != null ==>
        && log == R.RecordsOf(L.LogOf(before))
        && Log() == log + [R.RecordOf(R.Put(key, value.value, value.expiry))] + R.RecordsOf(L.Deletes(victims))
      requires lru != null ==> u.Recency? && Touched() == u.touched[key := u.clock] && Clock() == u.clock + 1
      requires lru == null ==> u == B.Frequency(CountsOf(m))
      ensures Valid() && Usage() == B.Written(u, key, value.accessCount, victims)
    {
      hide *;
      WrittenIs(u, m, key, value, victims);
      UsageIs();
      Explained(m, before, key, value, victims, log);
      Whole();
    }

    lemma UsageIs()
      ensures lru != null ==> Usage() == B.Recency(Touched(), Clock())
      ensures lru == null ==> Usage() == B.Frequency(CountsOf(model))
    {
    }

    lemma Parts()
      requires Valid()
      ensures Stored() && Tracking(model, []) && WalValid() && ContentsOf(model) == L.Live(trace)
      ensures wal != null ==> Log() == R.RecordsOf(L.LogOf(trace))
    {
    }

    lemma Whole()
      requires Stored() && Tracking(model, []) && WalValid() && ContentsOf(model) == L.Live(trace)
      requires wal != null ==> Log() == R.RecordsOf(L.LogOf(trace))
      ensures Valid()
    {
    }

    /** Reading an expired key finds nothing and leaves it in place; reading a live one counts the
        access and makes it the most recent. */
    method Get(key: Bytes, now: nat, later: U64) returns (r: R.Option<ValueEntry>)
      requires Valid()
      modifies this`buckets, this`model, lru, lfu
      ensures Valid() && Memory() == old(Memory())
      ensures r.Some? <==> key in old(model) && (old(model)[key].expiry == 0 || now < old(model)[key].expiry)
      ensures r.None? ==> model == old(model) && Order() == old(Order()) && Usage() == old(Usage())
      ensures r.Some? ==>
        && r.value == old(model)[key].(accessCount := (old(model)[key].accessCount + 1) % TwoTo64, lastAccess := later)
        && model == old(model)[key := r.value]
      ensures r.Some? ==> Usage() == B.Read(old(Usage()), key)
    {
      hide *;
      Parts();
      var b, i := Find(key);
      if i == -1 {
        return R.None;
      }
      var value := buckets[b][i].value;
      ExpiredIs(value, now);
      if R.Expired(SlotOf(value), now) {
        return R.None;
      }
      value := value.(accessCount := (value.accessCount + 1) % TwoTo64, lastAccess := later);
      UsageIs();
      Overwrite(b, i, key, value);
      Touch(key, value, old(model));
      ReadIs(old(Usage()), old(model), key, value);
      UsageIs();
      SameContents(old(model), key, value);
      Whole();
      return R.Some(value);
    }

    method Remove(key: Bytes) returns (found: bool)
      requires Valid()
      modifies this, lru, lfu, wal
      ensures Valid() && found == (key in old(model)) && model == old(model) - {key}
      ensures trace == old(trace) + [L.Removed(key)] && |buckets| == old(|buckets|) && Marked() == old(Marked())
      ensures Memory() == old(Memory()) - if found then |old(model)[key].value| else 0
      ensures Usage() == B.Removed(old(Usage()), key)
    {
      hide *;
      Parts();
      UsageIs();
      StillTracked(model, key);
      found := Erase(key);
      RemovedIs(old(Usage()), old(model), key);
      UsageIs();
      trace := trace + [L.Removed(key)];
      ExplainedRemoval(old(model), old(trace), key);
      Whole();
    }

    // ----- The log

    method FlushWal()
      requires Valid()
      modifies wal
      ensures Valid() && (wal != null ==> wal.State() == Wal.Drained(old(wal.State())))
    {
      hide Wal.LoggedAll, Wal.EncodeAll, Stored, Tracking, L.LogOf, L.Live, R.RecordsOf;
      if wal != null {
        wal.Flush();
      }
    }

    /** Opens the log again with another batch size. */
    method EnableWal(batchSize: nat)
      requires Valid() && wal != null
      modifies wal
      ensures Valid() && wal.State() == Wal.Drained(old(wal.State())).(batch := batchSize)
    {
      hide Wal.LoggedAll, Wal.EncodeAll, Stored, Tracking, L.LogOf, L.Live, R.RecordsOf;
      wal.Reopen(batchSize);
    }

    method TruncateWal()
      requires Valid()
      modifies wal
      ensures Valid() && (wal != null ==> wal.State() == Wal.LogState([], [], Wal.DefaultBatch))
    {
      hide Wal.LoggedAll, Wal.EncodeAll, Stored, Tracking, L.LogOf, L.Live, R.RecordsOf;
      if wal != null {
        wal.Truncate();
      }
    }

    // ----- Expiry, snapshots and replay

    /** The expired keys in the sampled buckets, some perhaps listed twice. */
    method Collect(samples: seq<nat>, now: nat) returns (expired: seq<Bytes>)
      requires Stored() && forall i :: 0 <= i < |samples| ==> samples[i] < |buckets|
      ensures forall key :: key in expired <==>
        key in model && 0 < model[key].expiry <= now && Place(hash(key), |buckets|) in samples
    {
      hide Place;
      expired := [];
      for s := 0 to |samples|
        invariant forall key :: key in expired <==> Sampled(model, hash, |buckets|, samples[..s], now, key)
      {
        var chain := buckets[samples[s]];
        assert chain[..0] == [];
        ghost var before := expired;
        for i := 0 to |chain|
          invariant forall key :: key in expired <==> key in before || ExpiredIn(chain[..i], now, key)
        {
          assert chain[..i + 1] == chain[..i] + [chain[i]];
          if R.Expired(SlotOf(chain[i].value), now) {
            expired := expired + [chain[i].key];
          }
          forall key ensures ExpiredIn(chain[..i + 1], now, key) <==>
            ExpiredIn(chain[..i], now, key) || (key == chain[i].key && R.Expired(SlotOf(chain[i].value), now))
          {
            ExpiredInMore(chain[..i], chain[i], now, key);
          }
        }
        assert chain[..|chain|] == chain;
        forall key ensures ExpiredIn(chain, now, key) <==> Sampled(model, hash, |buckets|, [samples[s]], now, key) {
          ExpiredInChain(buckets, hash, model, samples[s], now, key);
        }
        assert samples[..s + 1] == samples[..s] + [samples[s]];
      }
      assert samples[..|samples|] == samples;
    }

    /** A scan removes exactly the expired keys of the sampled buckets, and logs their deletions. */
    method ScanExpired(samples: seq<nat>, now: nat) returns (ghost removed: seq<Bytes>)
      requires Valid() && forall i :: 0 <= i < |samples| ==> samples[i] < |buckets|
      modifies this, lru, lfu, wal
      ensures Valid() && |buckets| == old(|buckets|)
      ensures forall key :: key in model <==>
        key in old(model) && !(0 < old(model)[key].expiry <= now && Place(hash(key), |buckets|) in samples)
      ensures forall key :: key in model ==> model[key] == old(model)[key]
      ensures trace == old(trace) + Removals(removed)
      ensures forall key :: key in removed <==> key in old(model) && key !in model
    {
      hide *;
      Parts();
      var expired := Collect(samples, now);
      removed := expired;
      RemoveAll(expired);
      AllGone(old(model), expired);
    }

    method RemoveAll(keys: seq<Bytes>)
      requires Valid()
      modifies this, lru, lfu, wal
      ensures Valid() && |buckets| == old(|buckets|) && model == old(model) - Members(keys)
      ensures trace == old(trace) + Removals(keys)
    {
      hide *;
      NoRemovals(keys);
      assert model - Members(keys[..0]) == model by { NoMembers(model, keys); }
      for i := 0 to |keys|
        invariant Valid() && |buckets| == old(|buckets|)
        invariant model == old(model) - Members(keys[..i])
        invariant trace == old(trace) + Removals(keys[..i])
      {
        var _ := Remove(keys[i]);
        OneMoreGone(old(model), keys, i);
        OneMoreRemoval(keys, i);
      }
      assert keys[..|keys|] == keys;
    }

    /** Loading inserts the entries of a snapshot one after the other, as if they were logged sets.
        Whatever the table evicts on the way, `evicted` accounts for it, entry by entry. */
    method LoadEntries(entries: seq<Entry>, ghost now: nat) returns (ghost evicted: seq<seq<Bytes>>)
      requires Valid()
      modifies this, lru, lfu, wal
      ensures Valid() && |evicted| == |entries|
      ensures B.Sound(old(State()), SetsOf(entries), evicted, Limit(), now)
      ensures State() == B.ReplayEvicting(old(State()), SetsOf(entries), evicted, now)
    {
      hide *;
      evicted := [];
      ghost var s := State();
      B.NoItems(s, Limit(), now);
      NoSets(entries);
      for i := 0 to |entries|
        invariant Valid() && |evicted| == i && B.Sound(s, SetsOf(entries[..i]), evicted, Limit(), now)
        invariant State() == B.ReplayEvicting(s, SetsOf(entries[..i]), evicted, now)
      {
        var e := entries[i];
        ghost var before, u := model, Usage();
        StateIs();
        var _, victims := Insert(e.key, e.value);
        StateIs();
        EntryIsSound(before, u, e, victims, Limit(), now);
        B.OneMore(s, SetsOf(entries[..i]), evicted, SetOf(e), victims, Limit(), now);
        OneMoreSet(entries, i);
        evicted := evicted + [victims];
      }
      assert entries[..|entries|] == entries;
    }

    lemma StateIs()
      ensures State() == B.State(ContentsOf(model), Usage())
    {
    }

    /** Replaying a log file: the reader's records, one after the other, until it stops. */
    method ReplayLog(file: Bytes, now: U64) returns (replayed: nat, ghost evicted: seq<seq<Bytes>>)
      requires Valid()
      modifies this, lru, lfu, wal
      ensures Valid() && replayed == |Wal.ReadAll(file)| == |evicted|
      ensures B.Sound(old(State()), ItemsOf(Wal.ReadAll(file)), evicted, Limit(), now)
      ensures State() == B.ReplayEvicting(old(State()), ItemsOf(Wal.ReadAll(file)), evicted, now)
    {
      hide *;
      replayed, evicted := 0, [];
      ghost var s, read := State(), [];
      B.NoItems(s, Limit(), now);
      NoneRead();
      var reader := new Wal.Reader(file);
      assert file[0..] == file;
      var got, r := reader.ReadNext();
      Wal.ReadOne(file, 0);
      while got
        invariant Valid() && reader.Valid() && reader.pos <= |file| && fresh(reader) && reader.file == file
        invariant replayed == |read| == |evicted| && B.Sound(s, ItemsOf(read), evicted, Limit(), now)
        invariant State() == B.ReplayEvicting(s, ItemsOf(read), evicted, now)
        invariant got ==> reader.good && Wal.ReadAll(file) == read + [r] + Wal.ReadAll(file[reader.pos..])
        invariant !got ==> Wal.ReadAll(file) == read
        decreases if got then |file| - reader.pos + 1 else 0
      {
        var victims := ReplayOne(r, now);
        B.OneMore(s, ItemsOf(read), evicted, B.Item(r, 0), victims, Limit(), now);
        OneMoreRead(read, r);
        read, evicted := read + [r], evicted + [victims];
        replayed := replayed + 1;
        Wal.ReadOne(file, reader.pos);
        got, r := reader.ReadNext();
      }
    }

    method ReplayOne(r: Wal.Record, now: U64) returns (ghost victims: seq<Bytes>)
      requires Valid()
      modifies this, lru, lfu, wal
      ensures Valid() && B.SoundStep(old(State()), B.Item(r, 0), victims, Limit(), now)
      ensures State() == B.StepEvicting(old(State()), B.Item(r, 0), victims, now)
    {
      hide *;
      victims := [];
      ghost var before, u := model, Usage();
      StateIs();
      if r.op == Wal.OpSet {
        var value := ValueEntry(r.value, 0, 0, r.ttl);
        var _, evicted := Insert(r.key, value);
        victims := evicted;
        Good(before, u, victims, Limit());
        InsertIsSound(before, u, B.Item(r, 0), value, victims, Limit(), now);
      } else if r.op == Wal.OpDelete {
        var _ := Remove(r.key);
        DeleteIsSound(before, u, r, Limit(), now);
      } else if r.op == Wal.OpExpire {
        UsageIs();
        var existing := Get(r.key, now, now);
        if existing.Some? {
          var value := existing.value.(expiry := r.ttl);
          ghost var m := model;
          var _, evicted := Insert(r.key, value);
          victims := evicted;
          Good(m, B.Read(u, r.key), victims, Limit());
          ExpireIsSound(before, u, m, r, existing.value, value, victims, Limit(), now);
        } else {
          SkipIsSound(before, u, r, Limit(), now);
        }
      } else {
        SkipIsSound(before, u, r, Limit(), now);
      }
      StateIs();
    }

    /** Walks every chain: the entries a snapshot of the table is written from. */
    method Entries() returns (entries: seq<Entry>)
      requires Stored()
      ensures |entries| == count
      ensures |entries| < TwoTo64 ==> R.Enumerates(entries, ContentsOf(model))
    {
      hide Place, Moved;
      entries := [];
      var n := |buckets|;
      MovedAll(model, hash, n);
      for b := 0 to n
        invariant ListsOnce(entries, Moved(model, hash, n, b, []))
      {
        var chain := buckets[b];
        assert chain[..0] == [];
        for i := 0 to |chain|
          invariant ListsOnce(entries, Moved(model, hash, n, b, chain[..i]))
        {
          MoveOne(model, hash, n, b, chain, i);
          OneMoreListed(entries, Moved(model, hash, n, b, chain[..i]), chain[i].key, chain[i].value);
          entries := entries + [Entry(chain[i].key, chain[i].value)];
        }
        assert chain[..|chain|] == chain;
        MovedChain(model, hash, n, b, chain);
      }
      AllListed(entries, model);
    }

    /** Under the recency policy whatever goes from the end of the list was last used before all
        that is still there. */
    lemma TailIsOldest()
      requires Tracking(model, [])
      ensures lru != null ==> forall victims :: Tail(Order(), Lru.Kept(Order(), Limit()), victims) ==>
        B.Picks(B.Recency(Touched(), Clock()), model.Keys, victims)
    {
      hide *;
      forall victims | lru != null && Tail(Order(), Lru.Kept(Order(), Limit()), victims)
        ensures B.Picks(B.Recency(Touched(), Clock()), model.Keys, victims)
      {
        VictimsAreOlder(victims);
      }
    }

    lemma VictimsAreOlder(victims: seq<Bytes>)
      requires Tracking(model, []) && lru != null && Tail(Order(), Lru.Kept(Order(), Limit()), victims)
      ensures B.Picks(B.Recency(Touched(), Clock()), model.Keys, victims)
    {
      hide Tracking, Tail, Lru.Kept, Order, Touched, Limit, Clock;
      forall i, key | 0 <= i < |victims| && key in model.Keys && key !in victims[..i] && key != victims[i]
        ensures victims[i] in Touched() && key in Touched() && Touched()[victims[i]] < Touched()[key]
      {
        VictimIsOlder(victims, i, key);
      }
    }

    lemma VictimIsOlder(victims: seq<Bytes>, i: nat, key: Bytes)
      requires Tracking(model, []) && lru != null && Tail(Order(), Lru.Kept(Order(), Limit()), victims)
      requires i < |victims| && key in model && key !in victims[..i] && key != victims[i]
      ensures victims[i] in Touched() && key in Touched() && Touched()[victims[i]] < Touched()[key]
    {
      hide Tracking, Tail, Lru.Kept;
      var j := PlaceOf(key);
      var order := Order();
      TailIsGone(order, Lru.Kept(order, Limit()), victims, i, j);
      assert victims[..i + 1] == victims[..i] + [victims[i]];
      OlderBehind(j, |order| - 1 - i);
    }

    lemma PlaceOf(key: Bytes) returns (j: nat)
      requires Tracking(model, []) && lru != null && key in model
      ensures j < |Order()| && Order()[j].key == key
    {
      TrackedKeys(model, []);
      assert key in lru.index;
      j :| 0 <= j < |lru.order| && lru.order[j].key == key;
    }

    lemma OlderBehind(j: nat, p: nat)
      requires Tracking(model, []) && lru != null && j < p < |Order()|
      ensures Order()[j].key in Touched() && Order()[p].key in Touched()
      ensures Touched()[Order()[p].key] < Touched()[Order()[j].key]
    {
      hide Lru.Consistent;
    }
  }

  /** The key is stored, expired, and in one of the sampled buckets. */
  ghost predicate Sampled(m: Model, hash: Hash, n: nat, samples: seq<nat>, now: nat, key: Bytes)
    requires n > 0
  {
    key in m && 0 < m[key].expiry <= now && Place(hash(key), n) in samples
  }

  lemma ExpiredIs(value: ValueEntry, now: nat)
    ensures R.Expired(SlotOf(value), now) <==> 0 < value.expiry <= now
  {
    R.ExpiredExactly(SlotOf(value), now);
  }

  ghost predicate ExpiredIn(chain: Chain, now: nat, key: Bytes) {
    exists i :: 0 <= i < |chain| && chain[i].key == key && R.Expired(SlotOf(chain[i].value), now)
  }

  lemma ExpiredInMore(front: Chain, p: Pair, now: nat, key: Bytes)
    ensures ExpiredIn(front + [p], now, key) <==>
      ExpiredIn(front, now, key) || (key == p.key && R.Expired(SlotOf(p.value), now))
  {
    var chain := front + [p];
    assert chain[|front|] == p;
    if ExpiredIn(front, now, key) {
      var k :| 0 <= k < |front| && front[k].key == key && R.Expired(SlotOf(front[k].value), now);
      assert chain[k] == front[k];
    }
  }

  lemma ExpiredInChain(buckets: seq<Chain>, hash: Hash, m: Model, b: nat, now: nat, key: Bytes)
    requires Holds(buckets, hash, m) && b < |buckets|
    ensures ExpiredIn(buckets[b], now, key) <==> Sampled(m, hash, |buckets|, [b], now, key)
  {
    hide Place;
    assert ChainHolds(buckets[b], b, |buckets|, hash, m);
    if ExpiredIn(buckets[b], now, key) {
      var i :| 0 <= i < |buckets[b]| && buckets[b][i].key == key && R.Expired(SlotOf(buckets[b][i].value), now);
      assert Fits(buckets[b][i], b, |buckets|, hash, m);
    }
    if Sampled(m, hash, |buckets|, [b], now, key) {
      assert Has(buckets[b], key);
      var i :| 0 <= i < |buckets[b]| && buckets[b][i].key == key;
      assert Fits(buckets[b][i], b, |buckets|, hash, m);
    }
  }

  lemma TailIsGone(order: seq<Lru.Tracked>, kept: nat, victims: seq<Bytes>, i: nat, j: nat)
    requires Tail(order, kept, victims) && i < |victims| && j < |order|
    ensures order[|order| - 1 - i].key == victims[i]
    ensures j < |order| - 1 - i || order[j].key in victims[..i + 1]
  {
    var at := |order| - 1 - j;
    if at <= i {
      assert victims[..i + 1][at] == order[j].key;
    }
  }

  lemma LeastUsedPicks(m: Model, victims: seq<Bytes>)
    ensures LeastUsed(m, victims) ==> B.Picks(B.Frequency(CountsOf(m)), m.Keys, victims)
  {
  }

  lemma WrittenIs(u: B.Usage, m: Model, key: Bytes, value: ValueEntry, victims: seq<Bytes>)
    ensures u.Recency? ==>
      B.Written(u, key, value.accessCount, victims) == B.Recency(u.touched[key := u.clock], u.clock + 1)
    ensures u == B.Frequency(CountsOf(m)) ==>
      B.Written(u, key, value.accessCount, victims) == B.Frequency(CountsOf((m - Members(victims))[key := value]))
  {
    assert CountsOf((m - Members(victims))[key := value]) == (CountsOf(m) - Members(victims))[key := value.accessCount];
  }

  lemma ReadIs(u: B.Usage, m: Model, key: Bytes, value: ValueEntry)
    requires key in m && value.accessCount == (m[key].accessCount + 1) % TwoTo64
    ensures u.Recency? ==> B.Read(u, key) == B.Recency(u.touched[key := u.clock], u.clock + 1)
    ensures u == B.Frequency(CountsOf(m)) ==> B.Read(u, key) == B.Frequency(CountsOf(m[key := value]))
  {
    assert CountsOf(m[key := value]) == CountsOf(m)[key := value.accessCount];
  }

  lemma RemovedIs(u: B.Usage, m: Model, key: Bytes)
    ensures u.Recency? ==> B.Removed(u, key) == u
    ensures u == B.Frequency(CountsOf(m)) ==> B.Removed(u, key) == B.Frequency(CountsOf(m - {key}))
  {
    assert CountsOf(m - {key}) == CountsOf(m) - {key};
  }

  // ----- Replaying a record is an operation of the table

  function SetOf(e: Entry): B.Item {
    B.Item(Wal.Record(Wal.OpSet, e.key, e.value.value, e.value.expiry), e.value.accessCount)
  }

  function SetsOf(entries: seq<Entry>): (items: seq<B.Item>)
    ensures |items| == |entries|
  {
    seq(|entries|, i requires 0 <= i < |entries| => SetOf(entries[i]))
  }

  /** Records of a log are inserted with a count of zero. */
  function ItemsOf(rs: seq<Wal.Record>): (items: seq<B.Item>)
    ensures |items| == |rs|
  {
    seq(|rs|, i requires 0 <= i < |rs| => B.Item(rs[i], 0))
  }

  lemma NoSets(entries: seq<Entry>)
    ensures SetsOf(entries[..0]) == []
  {
  }

  lemma OneMoreSet(entries: seq<Entry>, i: nat)
    requires i < |entries|
    ensures SetsOf(entries[..i + 1]) == SetsOf(entries[..i]) + [SetOf(entries[i])]
  {
  }

  lemma NoneRead()
    ensures ItemsOf([]) == []
  {
  }

  lemma OneMoreRead(rs: seq<Wal.Record>, r: Wal.Record)
    ensures ItemsOf(rs + [r]) == ItemsOf(rs) + [B.Item(r, 0)]
  {
  }

  lemma WeightIsSum(m: Model)
    ensures B.Weight(ContentsOf(m)) == Sum(SizesOf(m))
  {
    assert B.ValueSizes(ContentsOf(m)) == SizesOf(m);
  }

  lemma LeftWeight(m: Model, victims: seq<Bytes>)
    ensures B.Weight(ContentsOf(m) - Members(victims)) == Sum(SizesOf(m - Members(victims)))
  {
    WeightIsSum(m - Members(victims));
    assert ContentsOf(m - Members(victims)) == ContentsOf(m) - Members(victims);
  }

  /** What an insert promises about its victims. */
  ghost predicate GoodVictims(m: Model, u: B.Usage, victims: seq<Bytes>, limit: nat) {
    && EachNeeded(m, victims, limit) && B.Picks(u, m.Keys, victims)
    && ([] !in m ==> Sum(SizesOf(m - Members(victims))) <= limit)
  }

  lemma Good(m: Model, u: B.Usage, victims: seq<Bytes>, limit: nat)
    requires EachNeeded(m, victims, limit) && B.Picks(u, m.Keys, victims)
    requires [] !in m ==> Sum(SizesOf(m - Members(victims))) <= limit
    ensures GoodVictims(m, u, victims, limit)
  {
  }

  /** ... said of the contents. */
  lemma VictimsSound(m: Model, u: B.Usage, victims: seq<Bytes>, limit: nat)
    requires GoodVictims(m, u, victims, limit)
    ensures B.Needed(ContentsOf(m), victims, limit) && B.Picks(u, ContentsOf(m).Keys, victims)
    ensures [] !in ContentsOf(m) ==> B.Weight(ContentsOf(m) - Members(victims)) <= limit
  {
    hide B.Weight, Sum, SizesOf, B.Picks;
    assert ContentsOf(m).Keys == m.Keys;
    LeftWeight(m, victims);
    forall i | 0 <= i < |victims|
      ensures B.Weight(ContentsOf(m) - Members(victims[..i])) == Sum(SizesOf(m - Members(victims[..i])))
    {
      LeftWeight(m, victims[..i]);
    }
  }

  lemma FirstNeeded(m: Model, victims: seq<Bytes>, limit: nat)
    requires EachNeeded(m, victims, limit) && victims != []
    ensures Sum(SizesOf(m)) > limit
  {
    hide Sum, SizesOf;
    assert victims[..0] == [] && m - Members([]) == m;
  }

  lemma InsertIsSound(m: Model, u: B.Usage, item: B.Item, value: ValueEntry, victims: seq<Bytes>, limit: nat, now: nat)
    requires GoodVictims(m, u, victims, limit)
    requires var r := item.record;
      r.op == Wal.OpSet && r.value == value.value && r.ttl == value.expiry && item.count == value.accessCount
    ensures var s, key := B.State(ContentsOf(m), u), item.record.key;
      && B.SoundStep(s, item, victims, limit, now)
      && B.StepEvicting(s, item, victims, now)
         == B.State(ContentsOf((m - Members(victims))[key := value]), B.Written(u, key, value.accessCount, victims))
  {
    hide GoodVictims, B.Weight, B.Written, B.Needed, B.Picks;
    VictimsSound(m, u, victims, limit);
    ContentsAfter(m, item.record.key, value, victims);
  }

  lemma EntryIsSound(m: Model, u: B.Usage, e: Entry, victims: seq<Bytes>, limit: nat, now: nat)
    requires EachNeeded(m, victims, limit) && B.Picks(u, m.Keys, victims)
    requires [] !in m ==> Sum(SizesOf(m - Members(victims))) <= limit
    ensures var s := B.State(ContentsOf(m), u);
      && B.SoundStep(s, SetOf(e), victims, limit, now)
      && B.StepEvicting(s, SetOf(e), victims, now)
         == B.State(ContentsOf((m - Members(victims))[e.key := e.value]),
                    B.Written(u, e.key, e.value.accessCount, victims))
  {
    hide EachNeeded, ContentsOf, B.SoundStep, B.StepEvicting, Sum, SizesOf, B.Picks, B.Written;
    Good(m, u, victims, limit);
    InsertIsSound(m, u, SetOf(e), e.value, victims, limit, now);
  }

  lemma ContentsAfter(m: Model, key: Bytes, value: ValueEntry, victims: seq<Bytes>)
    ensures ContentsOf((m - Members(victims))[key := value]) == (ContentsOf(m) - Members(victims))[key := SlotOf(value)]
  {
  }

  lemma NoVictims(u: B.Usage, m: R.Contents, limit: nat)
    ensures B.Needed(m, [], limit) && B.Picks(u, m.Keys, [])
  {
  }

  lemma DeleteIsSound(m: Model, u: B.Usage, r: Wal.Record, limit: nat, now: nat)
    requires r.op == Wal.OpDelete
    ensures var s := B.State(ContentsOf(m), u);
      && B.SoundStep(s, B.Item(r, 0), [], limit, now)
      && B.StepEvicting(s, B.Item(r, 0), [], now) == B.State(ContentsOf(m - {r.key}), B.Removed(u, r.key))
  {
    hide B.Weight, B.Needed, B.Picks, B.Removed;
    NoVictims(u, ContentsOf(m), limit);
    assert ContentsOf(m - {r.key}) == ContentsOf(m) - {r.key};
  }

  lemma SkipIsSound(m: Model, u: B.Usage, r: Wal.Record, limit: nat, now: nat)
    requires r.op != Wal.OpSet && r.op != Wal.OpDelete
    requires r.op == Wal.OpExpire ==> r.key !in m || 0 < m[r.key].expiry <= now
    ensures var s := B.State(ContentsOf(m), u);
      B.SoundStep(s, B.Item(r, 0), [], limit, now) && B.StepEvicting(s, B.Item(r, 0), [], now) == s
  {
    hide B.Weight, B.Needed, B.Picks;
    NoVictims(u, ContentsOf(m), limit);
    NoVictims(B.Looked(u, r), ContentsOf(m), limit);
  }

  /** An expiry record reads the value, which touches it, and inserts it again with another expiry. */
  lemma ExpireIsSound(before: Model, u: B.Usage, m: Model, r: Wal.Record, read: ValueEntry, value: ValueEntry,
                      victims: seq<Bytes>, limit: nat, now: nat)
    requires r.op == Wal.OpExpire && r.key in before
    requires before[r.key].expiry == 0 || now < before[r.key].expiry
    requires u.Frequency? ==> u == B.Frequency(CountsOf(before))
    requires read == before[r.key].(
      accessCount := (before[r.key].accessCount + 1) % TwoTo64, lastAccess := read.lastAccess)
    requires m == before[r.key := read] && value == read.(expiry := r.ttl)
    requires GoodVictims(m, B.Read(u, r.key), victims, limit)
    ensures var s := B.State(ContentsOf(before), u);
      && B.SoundStep(s, B.Item(r, 0), victims, limit, now)
      && B.StepEvicting(s, B.Item(r, 0), victims, now)
         == B.State(ContentsOf((m - Members(victims))[r.key := value]),
                    B.Written(B.Read(u, r.key), r.key, value.accessCount, victims))
  {
    hide GoodVictims, B.Weight, B.Needed, B.Picks, B.Written;
    SameContents(before, r.key, read);
    VictimsSound(m, B.Read(u, r.key), victims, limit);
    ContentsAfter(m, r.key, value, victims);
    CountDoesNotMatter(B.Read(u, r.key), r.key, 0, value.accessCount, victims);
  }

  lemma CountDoesNotMatter(u: B.Usage, key: Bytes, a: nat, b: nat, victims: seq<Bytes>)
    ensures u.Recency? ==> B.Written(u, key, a, victims) == B.Written(u, key, b, victims)
  {
  }

  lemma NoMembers(m: Model, keys: seq<Bytes>)
    ensures m - Members(keys[..0]) == m
  {
  }

  /** The removals of these keys, one after the other. */
  function Removals(keys: seq<Bytes>): (ops: seq<L.Op>)
    ensures |ops| == |keys|
  {
    seq(|keys|, i requires 0 <= i < |keys| => L.Removed(keys[i]))
  }

  lemma NoRemovals(keys: seq<Bytes>)
    ensures Removals(keys[..0]) == []
  {
  }

  lemma OneMoreRemoval(keys: seq<Bytes>, i: nat)
    requires i < |keys|
    ensures Removals(keys[..i + 1]) == Removals(keys[..i]) + [L.Removed(keys[i])]
  {
  }

  lemma OneMoreGone(m: Model, keys: seq<Bytes>, i: nat)
    requires i < |keys|
    ensures m - Members(keys[..i]) - {keys[i]} == m - Members(keys[..i + 1])
  {
    assert keys[..i + 1] == keys[..i] + [keys[i]];
    MembersOfMore(keys[..i], keys[i]);
  }

  lemma AllGone(m: Model, keys: seq<Bytes>)
    ensures forall key :: key in m - Members(keys) <==> key in m && key !in keys
  {
  }

  // ----- Listing the entries

  ghost predicate ListsOnce(entries: seq<Entry>, m: Model) {
    && |entries| == |m|
    && (forall i, j :: 0 <= i < j < |entries| ==> entries[i].key != entries[j].key)
    && (forall i :: 0 <= i < |entries| ==> entries[i].key in m && m[entries[i].key] == entries[i].value)
    && (forall key :: key in m ==> exists i :: 0 <= i < |entries| && entries[i].key == key)
  }

  lemma OneMoreListed(entries: seq<Entry>, m: Model, key: Bytes, value: ValueEntry)
    requires ListsOnce(entries, m) && key !in m
    ensures ListsOnce(entries + [Entry(key, value)], m[key := value])
  {
    var more, m' := entries + [Entry(key, value)], m[key := value];
    PutSize(m, key, value);
    forall other | other in m' ensures exists i :: 0 <= i < |more| && more[i].key == other {
      if other == key {
        assert more[|entries|].key == other;
      } else {
        var i :| 0 <= i < |entries| && entries[i].key == other;
        assert more[i].key == other;
      }
    }
  }

  lemma AllListed(entries: seq<Entry>, m: Model)
    requires ListsOnce(entries, m)
    ensures |entries| < TwoTo64 ==> R.Enumerates(entries, ContentsOf(m))
  {
  }

  // ----- An update can evict what it is about to write

  /** A stored value that alone exceeds the limit is among the victims of the next insert, also of
      an insert of its own key, whose set is then logged before its deletion. */
  lemma OversizedIsEvicted(m: Model, victims: seq<Bytes>, key: Bytes, limit: nat)
    requires key in m && |m[key].value| > limit && Sum(SizesOf(m - Members(victims))) <= limit
    ensures key in victims
  {
    var left := m - Members(victims);
    if key in left {
      SumAtLeast(SizesOf(left), key);
    }
  }

  /** Writing an oversized value twice to a new table loses it from the log, under either policy. */
  method WriteTwice(
    hash: Hash, capacity: nat, limit: nat, leastRecent: bool, batchSize: nat, key: Bytes, value: ValueEntry)
    returns (table: Table)
    requires key != [] && |value.value| > limit
    ensures table.Valid() && table.wal != null && key in table.model
    ensures forall now :: key !in R.Replay(map[], table.Log(), now)
  {
    hide *;
    table := new Table(hash, capacity, limit, leastRecent, true, batchSize);
    var _, none := table.Insert(key, value);
    NothingEvicted(none);
    ghost var trace := table.trace;
    var _, evicted := table.Insert(key, value);
    OversizedIsEvicted(map[key := value], evicted, key, limit);
    table.Parts();
    forall now ensures key !in R.Replay(map[], table.Log(), now) {
      L.SelfEvictionLoses(trace, key, SlotOf(value), evicted, now);
    }
  }

  lemma NothingEvicted(victims: seq<Bytes>)
    ensures forall key: Bytes, value: ValueEntry :: (map[] - Members(victims))[key := value] == map[key := value]
  {
  }

  lemma EmptyKeyWasStored(m: Model, victims: seq<Bytes>)
    ensures [] in m - Members(victims) ==> [] in m
  {
  }

  lemma SameContents(m: Model, key: Bytes, value: ValueEntry)
    requires key in m && value.value == m[key].value && value.expiry == m[key].expiry
    ensures ContentsOf(m[key := value]) == ContentsOf(m)
  {
  }

  lemma Explained(m: Model, trace: seq<L.Op>, key: Bytes, value: ValueEntry, victims: seq<Bytes>, log: seq<Wal.Record>)
    requires ContentsOf(m) == L.Live(trace)
    ensures var op := L.Inserted(key, SlotOf(value), victims);
            && ContentsOf((m - Members(victims))[key := value]) == L.Live(trace + [op])
            && (log == R.RecordsOf(L.LogOf(trace)) ==>
                 log + [R.RecordOf(R.Put(key, value.value, value.expiry))] + R.RecordsOf(L.Deletes(victims))
                 == R.RecordsOf(L.LogOf(trace + [op])))
  {
    var op := L.Inserted(key, SlotOf(value), victims);
    L.OneMore(trace, op);
    assert R.RecordsOf(L.LoggedBy(op))
        == [R.RecordOf(R.Put(key, value.value, value.expiry))] + R.RecordsOf(L.Deletes(victims));
    hide L.Live, L.LogOf;
  }

  lemma ExplainedRemoval(m: Model, trace: seq<L.Op>, key: Bytes)
    requires ContentsOf(m) == L.Live(trace)
    ensures var op := L.Removed(key);
            && ContentsOf(m - {key}) == L.Live(trace + [op])
            && R.RecordsOf(L.LogOf(trace + [op])) == R.RecordsOf(L.LogOf(trace)) + [R.RecordOf(R.Del(key))]
  {
    L.OneMore(trace, L.Removed(key));
    hide L.Live, L.LogOf;
  }

  lemma PutSize(m: Model, key: Bytes, value: ValueEntry)
    ensures |m[key := value]| == if key in m then |m| else |m| + 1
  {
    assert m[key := value].Keys == m.Keys + {key};
  }

  lemma ProgressMore(start: Start, victims: seq<Bytes>, victim: Bytes, now: Model,
                     order: seq<Lru.Tracked>, order': seq<Lru.Tracked>, recency: bool, limit: nat)
    requires Progress(start, victims, now, order, recency, limit)
    requires victim in now && victim != [] && Sum(SizesOf(now)) > limit
    requires recency ==>
      order != [] && order[|order| - 1].key == victim && Unlisted(order, order', victim) && Lru.Total(order) > limit
    requires !recency ==> Lfu.Least(CountsOf(now), victim)
    ensures Progress(start, victims + [victim], now - {victim}, order', recency, limit)
  {
    hide Sum, SizesOf, CountsOf, Members, EachNeeded, LeastUsed, EvictingTail, Unlisted, Lfu.Least, Lru.Total;
    LeftOver(start.model, victims, victim);
    MoreVictims(start.model, victims, victim, limit);
    if recency {
      LastUnlisted(order, order', victim);
      TailGrows(start.listed, order, victims, limit);
    } else {
      MoreLeastUsed(start.model, victims, victim);
    }
  }

  lemma NothingStored(m: Model)
    ensures m == map[] ==> Sum(SizesOf(m)) == 0
  {
  }

  lemma LeftOver(m: Model, victims: seq<Bytes>, victim: Bytes)
    requires victim in m - Members(victims)
    ensures victim in m && victim !in victims
  {
  }

  lemma TailGrows(listed: seq<Lru.Tracked>, order: seq<Lru.Tracked>, victims: seq<Bytes>, limit: nat)
    requires order != [] && EvictingTail(listed, order, victims, limit)
    requires Lru.Total(order) > limit && order[|order| - 1].key != []
    ensures EvictingTail(listed, order[..|order| - 1], victims + [order[|order| - 1].key], limit)
  {
  }

  lemma MoreVictims(m: Model, victims: seq<Bytes>, victim: Bytes, limit: nat)
    requires EachNeeded(m, victims, limit) && victim in m && victim !in victims
    requires Sum(SizesOf(m - Members(victims))) > limit
    ensures EachNeeded(m, victims + [victim], limit)
    ensures m - Members(victims + [victim]) == m - Members(victims) - {victim}
  {
    hide Sum, SizesOf;
    var more := victims + [victim];
    assert more[..|victims|] == victims;
    forall i | 0 <= i < |victims| ensures victims[..i] == more[..i] {
    }
    hide Members;
    assert Members(more) == Members(victims) + {victim} by {
      MembersOfMore(victims, victim);
    }
  }

  lemma MembersOfMore(victims: seq<Bytes>, victim: Bytes)
    ensures Members(victims + [victim]) == Members(victims) + {victim}
  {
  }

  lemma MoreLeastUsed(m: Model, victims: seq<Bytes>, victim: Bytes)
    requires LeastUsed(m, victims) && Lfu.Least(CountsOf(m - Members(victims)), victim)
    ensures LeastUsed(m, victims + [victim])
  {
    var more, left := victims + [victim], m - Members(victims);
    forall i, key | 0 <= i < |more| && key in m && key != [] && key !in more[..i]
      ensures more[i] in m && m[more[i]].accessCount <= m[key].accessCount
    {
      if i < |victims| {
        assert more[..i] == victims[..i];
      } else {
        assert more[..i] == victims;
        assert key in left && CountsOf(left)[key] == m[key].accessCount;
        assert CountsOf(left)[victim] == m[victim].accessCount;
      }
    }
  }

  lemma MoreRecords(log: seq<Wal.Record>, victims: seq<Bytes>, victim: Bytes)
    ensures log + R.RecordsOf(L.Deletes(victims)) + [R.RecordOf(R.Del(victim))]
         == log + R.RecordsOf(L.Deletes(victims + [victim]))
  {
  }
}
