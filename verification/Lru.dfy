/** The least-recently-used policy: a recency list, most recent first, with an index into it. */
module Lru {
  import opened Codec
  import opened Lists
  import opened Sizes

  datatype Tracked = Tracked(key: Bytes, lastAccess: nat, size: nat)

  /** No key is listed twice. */
  ghost predicate DistinctKeys(order: seq<Tracked>) {
    forall i, j :: 0 <= i < j < |order| ==> order[i].key != order[j].key
  }

  function Total(order: seq<Tracked>): nat {
    if order == [] then 0 else Total(order[..|order| - 1]) + order[|order| - 1].size
  }

  lemma {:induction false} TotalSplits(a: seq<Tracked>, b: seq<Tracked>)
    ensures Total(a + b) == Total(a) + Total(b)
    decreases |b|
  {
    if b == [] {
      assert a + b == a;
    } else {
      assert (a + b)[..|a + b| - 1] == a + b[..|b| - 1];
      TotalSplits(a, b[..|b| - 1]);
    }
  }

  lemma {:induction false} TotalOmit(order: seq<Tracked>, i: nat)
    requires i < |order|
    ensures Total(order) == Total(Omit(order, i)) + order[i].size
    decreases |order|
  {
    var n := |order| - 1;
    if i == n {
      assert Omit(order, i) == order[..n];
    } else {
      assert Omit(order, i)[..n - 1] == Omit(order[..n], i);
      TotalOmit(order[..n], i);
    }
  }

  lemma TotalFront(t: Tracked, order: seq<Tracked>)
    ensures Total([t] + order) == t.size + Total(order)
  {
    TotalSplits([t], order);
    assert [t][..0] == [];
  }

  /** How much of the list eviction keeps: it drops from the back while the sizes exceed the limit,
      and stops where the back is the empty key, because an empty candidate means "none". */
  function Kept(order: seq<Tracked>, limit: nat): (k: nat)
    ensures k <= |order|
    decreases |order|
  {
    if order == [] || Total(order) <= limit || order[|order| - 1].key == [] then |order|
    else Kept(order[..|order| - 1], limit)
  }

  /** Everything dropped had to go; what is kept fits, or ends in the empty key. */
  lemma {:induction false} KeptIsLongest(order: seq<Tracked>, limit: nat)
    ensures var k := Kept(order, limit);
            Total(order[..k]) <= limit || (k > 0 && order[k - 1].key == [])
    ensures forall k :: Kept(order, limit) < k <= |order| ==> Total(order[..k]) > limit && order[k - 1].key != []
    decreases |order|
  {
    var kept, n := Kept(order, limit), |order| - 1;
    assert order[..|order|] == order;
    if kept < |order| {
      var front := order[..n];
      assert Kept(front, limit) == kept && Total(order) > limit && order[n].key != [];
      hide Kept, Total;
      KeptIsLongest(front, limit);
      assert front[..kept] == order[..kept];
      forall k | kept < k < |order| ensures Total(order[..k]) > limit && order[k - 1].key != [] {
        assert front[..k] == order[..k] && front[k - 1] == order[k - 1];
      }
    }
  }

  lemma OmitLast(order: seq<Tracked>)
    requires order != []
    ensures Omit(order, |order| - 1) == order[..|order| - 1]
  {
  }

  lemma {:induction false} TotalGrows(order: seq<Tracked>, i: nat, j: nat)
    requires i <= j <= |order|
    ensures Total(order[..i]) <= Total(order[..j])
  {
    assert order[..j] == order[..i] + order[i..j];
    TotalSplits(order[..i], order[i..j]);
  }

  /** Eviction reaches the limit exactly when the empty key, if tracked at all, fits together with
      everything used more recently than it. */
  lemma EvictionFits(order: seq<Tracked>, limit: nat)
    ensures Total(order[..Kept(order, limit)]) <= limit
       <==> forall j :: 0 <= j < |order| && order[j].key == [] ==> Total(order[..j + 1]) <= limit
  {
    var k := Kept(order, limit);
    hide Kept, Total;
    KeptIsLongest(order, limit);
    if Total(order[..k]) <= limit {
      forall j | 0 <= j < |order| && order[j].key == [] ensures Total(order[..j + 1]) <= limit {
        assert order[j + 1 - 1].key == [];
        TotalGrows(order, j + 1, k);
      }
    }
  }

  ghost function SizeMap(index: map<Bytes, Tracked>): map<Bytes, nat> {
    map key | key in index :: index[key].size
  }

  /** The index points at the entry of each key. */
  ghost predicate Indexes(index: map<Bytes, Tracked>, order: seq<Tracked>) {
    && (forall i :: 0 <= i < |order| ==> order[i].key in index && index[order[i].key] == order[i])
    && (forall key :: key in index ==> exists i :: 0 <= i < |order| && order[i].key == key)
  }

  /** The list runs from the latest touch to the earliest; `touched` numbers the last touch of every key. */
  ghost predicate ByRecency(order: seq<Tracked>, touched: map<Bytes, nat>, clock: nat) {
    && (forall i :: 0 <= i < |order| ==> order[i].key in touched && touched[order[i].key] < clock)
    && (forall i, j :: 0 <= i < j < |order| ==> touched[order[i].key] > touched[order[j].key])
  }

  ghost predicate Consistent(order: seq<Tracked>, index: map<Bytes, Tracked>, memory: nat) {
    DistinctKeys(order) && Indexes(index, order) && memory == Total(order) && memory == Sum(SizeMap(index))
  }

  class Policy {
    const limit: nat
    var memory: nat
    var order: seq<Tracked>
    var index: map<Bytes, Tracked>
    ghost var touched: map<Bytes, nat>
    ghost var clock: nat

    ghost predicate Valid()
      reads this
    {
      Consistent(order, index, memory) && ByRecency(order, touched, clock)
    }

    constructor (limit: nat)
      ensures Valid() && this.limit == limit && order == [] && memory == 0 && index == map[]
    {
      this.limit, memory, order, index, touched, clock := limit, 0, [], map[], map[], 0;
    }

    method OnAccess(key: Bytes, time: nat)
      requires Valid()
      modifies this`order, this`index, this`touched, this`clock
      ensures Valid() && SizeMap(index) == SizeMap(old(index))
      ensures key !in old(index) ==> order == old(order) && touched == old(touched)
      ensures key in old(index) ==>
        && (forall i :: 0 <= i < |old(order)| && old(order)[i].key == key ==>
              order == [old(index)[key].(lastAccess := time)] + Omit(old(order), i))
        && touched == old(touched)[key := old(clock)]
      ensures clock == if key in old(index) then old(clock) + 1 else old(clock)
    {
      hide Consistent, ByRecency, Omit, SizeMap;
      if key !in index {
        return;
      }
      var i := Find(order, index, memory, key);
      var t := index[key].(lastAccess := time);
      Retouched(order, index, memory, i, t);
      DropKeepsRecency(order, touched, clock, i);
      FrontIsLatest(Omit(order, i), touched, clock, t);
      order := [t] + Omit(order, i);
      index := index[key := t];
      touched := touched[key := clock];
      clock := clock + 1;
    }

    method OnInsert(key: Bytes, size: nat, time: nat)
      requires Valid() && key !in index
      modifies this
      ensures Valid() && order == [Tracked(key, time, size)] + old(order)
      ensures SizeMap(index) == SizeMap(old(index))[key := size] && memory == old(memory) + size
      ensures touched == old(touched)[key := old(clock)] && clock == old(clock) + 1
    {
      hide Consistent, ByRecency, Omit, SizeMap;
      var t := Tracked(key, time, size);
      Untracked(order, index, memory, key);
      Added(order, index, memory, t);
      FrontIsLatest(order, touched, clock, t);
      order := [t] + order;
      index := index[key := t];
      memory := memory + size;
      touched := touched[key := clock];
      clock := clock + 1;
    }

    /** The branch that would stop the counter from falling below zero is never taken. */
    method OnDelete(key: Bytes, size: nat)
      requires Valid() && (key in index ==> index[key].size == size)
      modifies this
      ensures Valid() && (key !in old(index) ==> order == old(order))
      ensures forall i :: 0 <= i < |old(order)| && old(order)[i].key == key ==> order == Omit(old(order), i)
      ensures SizeMap(index) == SizeMap(old(index)) - {key}
      ensures memory == old(memory) - if key in old(index) then size else 0
      ensures touched == old(touched) && clock == old(clock)
    {
      hide Consistent, ByRecency, Omit, SizeMap;
      if key !in index {
        Untracked(order, index, memory, key);
        return;
      }
      var i := Find(order, index, memory, key);
      Dropped(order, index, memory, i);
      DropKeepsRecency(order, touched, clock, i);
      order := Omit(order, i);
      index := index - {key};
      memory := Less(memory, size);
    }

    /** The empty string stands for "nothing to evict". */
    method Candidate() returns (key: Bytes)
      ensures key == if order == [] then [] else order[|order| - 1].key
    {
      key := [];
      if order != [] {
        key := order[|order| - 1].key;
      }
    }

    method ShouldEvict() returns (over: bool)
      ensures over == (memory > limit)
    {
      over := memory > limit;
    }
  }

  // ----- What one change of the list does

  /** The place the index keeps for a key. */
  method Find(order: seq<Tracked>, index: map<Bytes, Tracked>, ghost memory: nat, key: Bytes) returns (i: nat)
    requires Consistent(order, index, memory) && key in index
    ensures i < |order| && order[i].key == key && order[i] == index[key]
    ensures forall j :: 0 <= j < |order| && order[j].key == key ==> j == i
  {
    i :| 0 <= i < |order| && order[i].key == key;
  }

  lemma Untracked(order: seq<Tracked>, index: map<Bytes, Tracked>, memory: nat, key: Bytes)
    requires Consistent(order, index, memory) && key !in index
    ensures forall i :: 0 <= i < |order| ==> order[i].key != key
    ensures SizeMap(index) - {key} == SizeMap(index)
  {
    assert key !in SizeMap(index);
  }

  lemma FrontIsLatest(order: seq<Tracked>, touched: map<Bytes, nat>, clock: nat, t: Tracked)
    requires ByRecency(order, touched, clock)
    requires forall i :: 0 <= i < |order| ==> order[i].key != t.key
    ensures ByRecency([t] + order, touched[t.key := clock], clock + 1)
  {
  }

  lemma DropKeepsRecency(order: seq<Tracked>, touched: map<Bytes, nat>, clock: nat, i: nat)
    requires ByRecency(order, touched, clock) && i < |order|
    ensures ByRecency(Omit(order, i), touched, clock)
    ensures forall k :: 0 <= k < |order| - 1 ==> Omit(order, i)[k].key != order[i].key
  {
  }

  lemma Added(order: seq<Tracked>, index: map<Bytes, Tracked>, memory: nat, t: Tracked)
    requires Consistent(order, index, memory) && t.key !in index
    ensures Consistent([t] + order, index[t.key := t], memory + t.size)
    ensures SizeMap(index[t.key := t]) == SizeMap(index)[t.key := t.size]
  {
    assert SizeMap(index[t.key := t]) == SizeMap(index)[t.key := t.size];
    SumAdd(SizeMap(index), t.key, t.size);
    AddToFront(index, order, t);
    hide Total, Sum, DistinctKeys, Indexes;
    TotalFront(t, order);
  }

  lemma Dropped(order: seq<Tracked>, index: map<Bytes, Tracked>, memory: nat, i: nat)
    requires Consistent(order, index, memory) && i < |order|
    ensures order[i].key in index && index[order[i].key] == order[i] && order[i].size <= memory
    ensures Consistent(Omit(order, i), index - {order[i].key}, memory - order[i].size)
    ensures SizeMap(index - {order[i].key}) == SizeMap(index) - {order[i].key}
  {
    var key := order[i].key;
    assert SizeMap(index - {key}) == SizeMap(index) - {key};
    SumRemove(SizeMap(index), key);
    DropFrom(index, order, i);
    hide Total, Sum, DistinctKeys, Indexes;
    TotalOmit(order, i);
  }

  lemma SameSizes(index: map<Bytes, Tracked>, t: Tracked)
    requires t.key in index && index[t.key].size == t.size
    ensures SizeMap(index[t.key := t]) == SizeMap(index)
  {
  }

  lemma Retouched(order: seq<Tracked>, index: map<Bytes, Tracked>, memory: nat, i: nat, t: Tracked)
    requires Consistent(order, index, memory) && i < |order|
    requires t.key == order[i].key && t.size == order[i].size
    ensures Consistent([t] + Omit(order, i), index[t.key := t], memory)
    ensures SizeMap(index[t.key := t]) == SizeMap(index)
  {
    hide Consistent, SizeMap, Omit;
    Dropped(order, index, memory, i);
    SameSizes(index, t);
    Added(Omit(order, i), index - {t.key}, memory - t.size, t);
    assert (index - {t.key})[t.key := t] == index[t.key := t];
  }

  lemma AddToFront(index: map<Bytes, Tracked>, order: seq<Tracked>, t: Tracked)
    requires DistinctKeys(order) && Indexes(index, order) && t.key !in index
    ensures DistinctKeys([t] + order) && Indexes(index[t.key := t], [t] + order)
  {
    var order', index' := [t] + order, index[t.key := t];
    forall key | key in index' ensures exists k :: 0 <= k < |order'| && order'[k].key == key {
      if key == t.key {
        assert order'[0].key == key;
      } else {
        var k :| 0 <= k < |order| && order[k].key == key;
        assert order'[k + 1].key == key;
      }
    }
  }

  lemma DropKeepsDistinct(order: seq<Tracked>, i: nat)
    requires DistinctKeys(order) && i < |order|
    ensures DistinctKeys(Omit(order, i))
    ensures forall k :: 0 <= k < |order| - 1 ==> Omit(order, i)[k].key != order[i].key && Omit(order, i)[k] in order
  {
  }

  lemma DropFrom(index: map<Bytes, Tracked>, order: seq<Tracked>, i: nat)
    requires DistinctKeys(order) && Indexes(index, order) && i < |order|
    ensures DistinctKeys(Omit(order, i)) && Indexes(index - {order[i].key}, Omit(order, i))
  {
    hide DistinctKeys;
    DropKeepsDistinct(order, i);
    var rest, index' := Omit(order, i), index - {order[i].key};
    forall key | key in index' ensures exists k :: 0 <= k < |rest| && rest[k].key == key {
      var k :| 0 <= k < |order| && order[k].key == key;
      assert rest[if k < i then k else k - 1].key == key;
    }
  }
}
