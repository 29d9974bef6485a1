/** The least-frequently-used policy: a heap of access counts whose outdated entries are left in
    place and skipped when they come up. */
module Lfu {
  import opened Codec
  import opened Sizes

  datatype HeapEntry = HeapEntry(key: Bytes, count: nat, size: nat)

  /** An entry of the heap that still says what is known about its key. */
  predicate Current(e: HeapEntry, counts: map<Bytes, nat>) {
    e.key in counts && counts[e.key] == e.count
  }

  /** Every tracked key has an up-to-date heap entry, except `exempt` and the empty key. */
  ghost predicate Covers(heap: multiset<HeapEntry>, counts: map<Bytes, nat>, sizes: map<Bytes, nat>, exempt: Bytes) {
    && counts.Keys == sizes.Keys
    && forall key :: key in counts && key != exempt && key != [] ==>
         HeapEntry(key, counts[key], sizes[key]) in heap
  }

  /** What a scan over all tracked keys would call a least frequently used one. */
  ghost predicate Least(counts: map<Bytes, nat>, key: Bytes) {
    key in counts && forall other :: other in counts && other != [] ==> counts[key] <= counts[other]
  }

  /** The top of the heap is some entry of least count. */
  predicate Top(heap: multiset<HeapEntry>, top: HeapEntry) {
    forall e :: e in heap ==> top.count <= e.count
  }

  lemma {:induction false} SomeLeast(heap: multiset<HeapEntry>, e: HeapEntry)
    requires e in heap
    ensures exists top :: top in heap && Top(heap, top)
    decreases e.count
  {
    if !Top(heap, e) {
      var less :| less in heap && less.count < e.count;
      SomeLeast(heap, less);
    }
  }

  class Policy {
    const limit: nat
    var memory: nat
    var heap: multiset<HeapEntry>
    var counts: map<Bytes, nat>
    var sizes: map<Bytes, nat>

    ghost predicate Valid(exempt: Bytes)
      reads this
    {
      Covers(heap, counts, sizes, exempt) && memory == Sum(sizes)
    }

    constructor (limit: nat)
      ensures Valid([]) && this.limit == limit && memory == 0 && counts == map[] && sizes == map[]
    {
      this.limit, memory, heap, counts, sizes := limit, 0, multiset{}, map[], map[];
    }

    method OnAccess(key: Bytes, count: nat)
      requires Valid([])
      modifies this`counts, this`heap
      ensures Valid([])
      ensures counts == if key in old(counts) then old(counts)[key := count] else old(counts)
    {
      hide Sum;
      if key !in counts {
        return;
      }
      var size := sizes[key];
      counts := counts[key := count];
      heap := heap + multiset{HeapEntry(key, count, size)};
    }

    method OnInsert(key: Bytes, size: nat, count: nat)
      requires Valid([]) && key !in counts
      modifies this
      ensures Valid([]) && counts == old(counts)[key := count] && sizes == old(sizes)[key := size]
      ensures memory == old(memory) + size
    {
      SumAdd(sizes, key, size);
      hide Sum;
      counts := counts[key := count];
      sizes := sizes[key := size];
      heap := heap + multiset{HeapEntry(key, count, size)};
      memory := memory + size;
    }

    /** The branch that would stop the counter from falling below zero is never taken. */
    method OnDelete(key: Bytes, size: nat)
      requires Valid(key) && (key in sizes ==> sizes[key] == size)
      modifies this
      ensures Valid([]) && counts == old(counts) - {key} && sizes == old(sizes) - {key}
      ensures memory == old(memory) - if key in old(sizes) then size else 0
    {
      if key !in counts {
        assert counts - {key} == counts && sizes - {key} == sizes;
        return;
      }
      SumRemove(sizes, key);
      counts := counts - {key};
      sizes := sizes - {key};
      memory := Less(memory, size);
    }

    /** Whatever outdated entries the heap holds, a key it gives is one a full scan would give. The
        empty string means "none": either nothing but the empty key is tracked, or the empty key was
        itself the least used. */
    method Candidate() returns (key: Bytes)
      requires Valid([])
      modifies this`heap
      ensures Valid(key)
      ensures key != [] ==> Least(counts, key)
      ensures key == [] ==> (forall other :: other in counts ==> other == []) || Least(counts, [])
    {
      hide Sum;
      while heap != multiset{}
        invariant Valid([])
        decreases |heap|
      {
        ghost var any :| any in heap;
        SomeLeast(heap, any);
        var top :| top in heap && Top(heap, top);
        heap := heap - multiset{top};
        if Current(top, counts) {
          return top.key;
        }
      }
      return [];
    }

    method ShouldEvict() returns (over: bool)
      ensures over == (memory > limit)
    {
      over := memory > limit;
    }
  }

}
