/** Consistent hashing: a sorted ring of points, several for each shard, and what adding and
    removing a shard does to the routing of keys. Library sorting is unstable, so an operation that
    sorts may end in any sorted arrangement of the same points. */
module HashRing {
  import opened Codec
  import opened Lists

  datatype Point = Point(hash: U64, shard: int)

  ghost predicate Sorted(ring: seq<Point>) {
    forall i, j :: 0 <= i < j < |ring| ==> ring[i].hash <= ring[j].hash
  }

  /** The first index whose hash is not below `h`, or the length. */
  function Search(ring: seq<Point>, h: U64): (i: nat)
    ensures i <= |ring| && (i < |ring| ==> ring[i].hash >= h)
    ensures forall k :: 0 <= k < i ==> ring[k].hash < h
  {
    if ring == [] || ring[0].hash >= h then 0 else 1 + Search(ring[1..], h)
  }

  /** The point a hash is routed to: the first at or after it, around the end of the ring. */
  function Target(ring: seq<Point>, h: U64): (p: Point)
    requires ring != []
    ensures p in ring
  {
    if Search(ring, h) < |ring| then ring[Search(ring, h)] else ring[0]
  }

  function Lookup(ring: seq<Point>, h: U64): int {
    if ring == [] then 0 else Target(ring, h).shard
  }

  // ----- Lookup is clockwise

  /** How far `x` lies clockwise of `h`. */
  function Distance(h: U64, x: U64): nat {
    if x >= h then x - h else x + TwoTo64 - h
  }

  ghost predicate Nearest(ring: seq<Point>, h: U64, p: Point) {
    forall q :: q in ring ==> Distance(h, p.hash) <= Distance(h, q.hash)
  }

  /** No point of the ring is nearer, clockwise, than the one a hash is routed to. */
  lemma TargetIsNearest(ring: seq<Point>, h: U64, p: Point)
    requires Sorted(ring) && p in ring
    ensures Distance(h, Target(ring, h).hash) <= Distance(h, p.hash)
  {
    var k :| 0 <= k < |ring| && ring[k] == p;
    var i := Search(ring, h);
    hide Search;
    assert i <= k ==> i == k || ring[i].hash <= ring[k].hash;
    assert k > 0 ==> ring[0].hash <= ring[k].hash;
  }

  /** No two shards have a point at the same place. */
  ghost predicate NoClash(ring: seq<Point>) {
    forall p, q :: p in ring && q in ring && p.hash == q.hash ==> p.shard == q.shard
  }

  ghost predicate SamePoints(a: seq<Point>, b: seq<Point>) {
    multiset(a) == multiset(b)
  }

  lemma SameMembers(a: seq<Point>, b: seq<Point>, p: Point)
    requires SamePoints(a, b)
    ensures p in a <==> p in b
  {
    assert p in a <==> p in multiset(a);
    assert p in b <==> p in multiset(b);
  }

  /** Without clashes the routing depends on the points alone, not on how they came to be sorted. */
  lemma RoutingByPoints(a: seq<Point>, b: seq<Point>, h: U64)
    requires Sorted(a) && Sorted(b) && NoClash(a) && (forall p :: p in a <==> p in b)
    ensures Lookup(a, h) == Lookup(b, h)
  {
    assert a != [] ==> a[0] in b;
    assert b != [] ==> b[0] in a;
    if a != [] {
      hide Target;
      var p, q := Target(a, h), Target(b, h);
      TargetIsNearest(a, h, q);
      TargetIsNearest(b, h, p);
    }
  }

  // ----- Removing a shard

  function Filter(ring: seq<Point>, shard: int): seq<Point> {
    if ring == [] then []
    else
      var rest := Filter(ring[..|ring| - 1], shard);
      if ring[|ring| - 1].shard == shard then rest else rest + [ring[|ring| - 1]]
  }

  lemma {:induction false} FilterCount(ring: seq<Point>, shard: int, p: Point)
    ensures multiset(Filter(ring, shard))[p] == if p.shard == shard then 0 else multiset(ring)[p]
    decreases |ring|
  {
    if ring != [] {
      var n := |ring| - 1;
      FilterCount(ring[..n], shard, p);
      assert ring == ring[..n] + [ring[n]];
    }
  }

  lemma FilterMembers(ring: seq<Point>, shard: int, p: Point)
    ensures p in Filter(ring, shard) <==> p in ring && p.shard != shard
  {
    FilterCount(ring, shard, p);
    assert p in Filter(ring, shard) <==> p in multiset(Filter(ring, shard));
    assert p in ring <==> p in multiset(ring);
  }

  lemma {:induction false} FilterSorted(ring: seq<Point>, shard: int)
    requires Sorted(ring)
    ensures Sorted(Filter(ring, shard))
    decreases |ring|
  {
    if ring != [] {
      var n := |ring| - 1;
      var rest := Filter(ring[..n], shard);
      FilterSorted(ring[..n], shard);
      forall i | 0 <= i < |rest| ensures rest[i].hash <= ring[n].hash {
        FilterMembers(ring[..n], shard, rest[i]);
      }
    }
  }

  lemma {:induction false} FilterSplits(a: seq<Point>, b: seq<Point>, shard: int)
    ensures Filter(a + b, shard) == Filter(a, shard) + Filter(b, shard)
    decreases |b|
  {
    if b == [] {
      assert a + b == a;
    } else {
      assert (a + b)[..|a + b| - 1] == a + b[..|b| - 1];
      FilterSplits(a, b[..|b| - 1], shard);
    }
  }

  lemma FilterHead(ring: seq<Point>, shard: int)
    requires ring != [] && ring[0].shard != shard
    ensures Filter(ring, shard) != [] && Filter(ring, shard)[0] == ring[0]
  {
    assert ring == ring[..1] + ring[1..];
    FilterSplits(ring[..1], ring[1..], shard);
    assert ring[..1][..0] == [];
  }

  lemma AllBelow(ring: seq<Point>, shard: int, h: U64)
    requires forall k :: 0 <= k < |ring| ==> ring[k].hash < h
    ensures forall k :: 0 <= k < |Filter(ring, shard)| ==> Filter(ring, shard)[k].hash < h
  {
    var kept := Filter(ring, shard);
    hide Filter;
    forall k | 0 <= k < |kept| ensures kept[k].hash < h {
      FilterMembers(ring, shard, kept[k]);
    }
  }

  lemma TargetOfJoin(front: seq<Point>, back: seq<Point>, h: U64)
    requires forall k :: 0 <= k < |front| ==> front[k].hash < h
    requires back != [] && back[0].hash >= h
    ensures Target(front + back, h) == back[0]
  {
    assert (front + back)[|front|] == back[0];
    assert Search(front + back, h) == |front|;
  }

  lemma RemovalAhead(ring: seq<Point>, shard: int, h: U64, i: nat)
    requires i < |ring| && ring[i].hash >= h && ring[i].shard != shard
    requires forall k :: 0 <= k < i ==> ring[k].hash < h
    ensures Filter(ring, shard) != [] && Target(Filter(ring, shard), h) == ring[i]
  {
    hide Filter, Target;
    var front, back := ring[..i], ring[i..];
    assert ring == front + back;
    FilterSplits(front, back, shard);
    AllBelow(front, shard, h);
    FilterHead(back, shard);
    TargetOfJoin(Filter(front, shard), Filter(back, shard), h);
  }

  lemma RemovalAround(ring: seq<Point>, shard: int, h: U64)
    requires ring != [] && ring[0].shard != shard
    requires forall k :: 0 <= k < |ring| ==> ring[k].hash < h
    ensures Filter(ring, shard) != [] && Target(Filter(ring, shard), h) == ring[0]
  {
    hide Filter;
    AllBelow(ring, shard, h);
    FilterHead(ring, shard);
    assert Search(Filter(ring, shard), h) == |Filter(ring, shard)|;
  }

  /** Removing a shard moves no key of another shard, even where points clash. */
  lemma RemovalMovesOnlyItsOwn(ring: seq<Point>, shard: int, h: U64)
    requires Lookup(ring, h) != shard
    ensures Lookup(Filter(ring, shard), h) == Lookup(ring, h)
  {
    if ring != [] {
      var i := Search(ring, h);
      if i < |ring| {
        RemovalAhead(ring, shard, h, i);
      } else {
        RemovalAround(ring, shard, h);
      }
    }
  }

  // ----- Adding a shard

  /** A ring after a shard's points were added: its old points, the new ones, in sorted order. */
  ghost predicate Extended(ring: seq<Point>, added: seq<Point>, ring': seq<Point>) {
    Sorted(ring') && SamePoints(ring', ring + added)
  }

  lemma ExtendedMembers(ring: seq<Point>, added: seq<Point>, ring': seq<Point>, p: Point)
    requires Extended(ring, added, ring')
    ensures p in ring' <==> p in ring || p in added
  {
    SameMembers(ring', ring + added, p);
  }

  /** The shard is new to the ring, and all added points are its own. */
  ghost predicate Newcomer(ring: seq<Point>, added: seq<Point>, shard: int) {
    (forall p :: p in ring ==> p.shard != shard) && (forall p :: p in added ==> p.shard == shard)
  }

  lemma AdditionMovesOnlyToIt(ring: seq<Point>, added: seq<Point>, ring': seq<Point>, shard: int, h: U64)
    requires Sorted(ring) && Newcomer(ring, added, shard) && Extended(ring, added, ring') && NoClash(ring)
    ensures Lookup(ring', h) == Lookup(ring, h) || Lookup(ring', h) == shard
  {
    hide Target;
    if ring' != [] {
      var q := Target(ring', h);
      ExtendedMembers(ring, added, ring', q);
      if q in ring {
        var p := Target(ring, h);
        ExtendedMembers(ring, added, ring', p);
        TargetIsNearest(ring, h, q);
        TargetIsNearest(ring', h, p);
      }
    } else {
      assert |ring'| == |multiset(ring')| == |multiset(ring + added)| == |ring + added|;
    }
  }

  lemma RemovalUndoesAddition(ring: seq<Point>, added: seq<Point>, ring': seq<Point>, shard: int, h: U64)
    requires Sorted(ring) && Newcomer(ring, added, shard) && Extended(ring, added, ring') && NoClash(ring)
    ensures Lookup(Filter(ring', shard), h) == Lookup(ring, h)
  {
    FilterSorted(ring', shard);
    forall p ensures p in ring <==> p in Filter(ring', shard) {
      FilterMembers(ring', shard, p);
      ExtendedMembers(ring, added, ring', p);
    }
    RoutingByPoints(ring, Filter(ring', shard), h);
  }

  // ----- Sorting by insertion

  /** Puts a point in front of all points that are not below it. */
  function Slip(p: Point, ring: seq<Point>): seq<Point> {
    ring[..Search(ring, p.hash)] + [p] + ring[Search(ring, p.hash)..]
  }

  function Arrange(points: seq<Point>): seq<Point> {
    if points == [] then [] else Slip(points[0], Arrange(points[1..]))
  }

  lemma SlipKeeps(p: Point, ring: seq<Point>)
    requires Sorted(ring)
    ensures Sorted(Slip(p, ring)) && multiset(Slip(p, ring)) == multiset{p} + multiset(ring)
    ensures Target(Slip(p, ring), p.hash) == p
  {
    hide *;
    SlipSame(p, ring);
    SlipSorted(p, ring);
    SlipTarget(p, ring);
  }

  lemma SlipSame(p: Point, ring: seq<Point>)
    ensures multiset(Slip(p, ring)) == multiset{p} + multiset(ring) && Slip(p, ring) != []
  {
    var i := Search(ring, p.hash);
    hide Search;
    assert ring == ring[..i] + ring[i..];
  }

  lemma SlipTarget(p: Point, ring: seq<Point>)
    ensures Slip(p, ring) != [] && Target(Slip(p, ring), p.hash) == p
  {
    var i := Search(ring, p.hash);
    var front, back := ring[..i], ring[i..];
    hide Search, Target;
    TargetOfJoin(front, [p] + back, p.hash);
    assert front + ([p] + back) == Slip(p, ring);
  }

  lemma SlipSorted(p: Point, ring: seq<Point>)
    requires Sorted(ring)
    ensures Sorted(Slip(p, ring))
  {
    var i := Search(ring, p.hash);
    var front, back := ring[..i], ring[i..];
    assert forall k :: 0 <= k < |front| ==> front[k].hash < p.hash;
    assert forall k :: 0 <= k < |back| ==> back[k].hash >= p.hash;
    hide Search;
    SortedJoin(front, p, back);
  }

  lemma SortedJoin(front: seq<Point>, p: Point, back: seq<Point>)
    requires Sorted(front) && Sorted(back)
    requires forall k :: 0 <= k < |front| ==> front[k].hash < p.hash
    requires forall k :: 0 <= k < |back| ==> back[k].hash >= p.hash
    ensures Sorted(front + [p] + back)
  {
  }

  lemma {:induction false} ArrangeSorts(points: seq<Point>)
    ensures Sorted(Arrange(points)) && SamePoints(Arrange(points), points)
  {
    if points != [] {
      ArrangeSorts(points[1..]);
      SlipKeeps(points[0], Arrange(points[1..]));
      assert points == [points[0]] + points[1..];
    }
  }

  // ----- With a clash the promises can fail

  lemma TakeOut(points: seq<Point>, k: nat)
    requires k < |points|
    ensures multiset(points) == multiset{points[k]} + multiset(points[..k] + points[k + 1..])
  {
    assert points == points[..k] + [points[k]] + points[k + 1..];
  }

  /** Two shards with a point at the same place: sorting again may exchange them. */
  lemma ClashCanMove(ring: seq<Point>, added: seq<Point>, shard: int) returns (ring': seq<Point>, h: U64)
    requires Sorted(ring) && Newcomer(ring, added, shard) && !NoClash(ring)
    ensures Extended(ring, added, ring')
    ensures Lookup(ring', h) != Lookup(ring, h) && Lookup(ring', h) != shard
  {
    var p, q :| p in ring && q in ring && p.hash == q.hash && p.shard != q.shard;
    h := p.hash;
    var other := if Target(ring, h).shard == p.shard then q else p;
    var all := ring + added;
    var k :| 0 <= k < |ring| && ring[k] == other;
    assert all[k] == other;
    var rest := all[..k] + all[k + 1..];
    hide Target, Arrange, Slip;
    TakeOut(all, k);
    ArrangeSorts(rest);
    ring' := Slip(other, Arrange(rest));
    SlipKeeps(other, Arrange(rest));
  }

  /** Adding a shard moves keys only to it, however the ring is sorted again, exactly when no two
      shards of the ring share a place. */
  lemma AdditionExactly(ring: seq<Point>, added: seq<Point>, shard: int)
    requires Sorted(ring) && Newcomer(ring, added, shard)
    ensures NoClash(ring) <==> forall ring', h: U64 :: Extended(ring, added, ring') ==>
      Lookup(ring', h) == Lookup(ring, h) || Lookup(ring', h) == shard
  {
    hide Lookup, Extended, NoClash;
    if NoClash(ring) {
      forall ring', h: U64 | Extended(ring, added, ring')
        ensures Lookup(ring', h) == Lookup(ring, h) || Lookup(ring', h) == shard
      {
        AdditionMovesOnlyToIt(ring, added, ring', shard, h);
      }
    } else {
      var ring', h := ClashCanMove(ring, added, shard);
    }
  }

  /** Adding a shard and removing it again restores all routing under the same condition. */
  lemma UndoExactly(ring: seq<Point>, added: seq<Point>, shard: int)
    requires Sorted(ring) && Newcomer(ring, added, shard)
    ensures NoClash(ring) <==> forall ring', h: U64 :: Extended(ring, added, ring') ==>
      Lookup(Filter(ring', shard), h) == Lookup(ring, h)
  {
    hide Lookup, Extended, NoClash, Filter;
    if NoClash(ring) {
      forall ring', h: U64 | Extended(ring, added, ring')
        ensures Lookup(Filter(ring', shard), h) == Lookup(ring, h)
      {
        RemovalUndoesAddition(ring, added, ring', shard, h);
      }
    } else {
      var ring', h := ClashCanMove(ring, added, shard);
      RemovalMovesOnlyItsOwn(ring', shard, h);
    }
  }

  // ----- The ring object

  type PlaceOf = (int, nat) -> U64

  function PointsFor(shard: int, n: nat, at: PlaceOf): seq<Point> {
    seq(n, i requires 0 <= i < n => Point(at(shard, i), shard))
  }

  /** The virtual nodes of the point's shard that lie at the point. */
  ghost function NodesAt(p: Point, n: nat, at: PlaceOf): set<nat> {
    set i: nat | i < n && at(p.shard, i) == p.hash
  }

  /** The ring holds one point for each virtual node of each listed shard, and no others. */
  ghost predicate Exact(ring: seq<Point>, shards: seq<int>, n: nat, at: PlaceOf) {
    forall p: Point :: multiset(ring)[p] == if p.shard in shards then |NodesAt(p, n, at)| else 0
  }

  lemma {:induction false} PointsForCount(shard: int, n: nat, at: PlaceOf, p: Point)
    ensures multiset(PointsFor(shard, n, at))[p] == if p.shard == shard then |NodesAt(p, n, at)| else 0
    decreases n
  {
    if n > 0 {
      var k := n - 1;
      PointsForCount(shard, k, at, p);
      assert PointsFor(shard, n, at) == PointsFor(shard, k, at) + [Point(at(shard, k), shard)];
      if at(p.shard, k) == p.hash {
        assert NodesAt(p, n, at) == NodesAt(p, k, at) + {k};
      } else {
        assert NodesAt(p, n, at) == NodesAt(p, k, at);
      }
    }
  }

  lemma ExactMore(ring: seq<Point>, shards: seq<int>, n: nat, at: PlaceOf, shard: int)
    requires Exact(ring, shards, n, at) && shard !in shards
    ensures Exact(ring + PointsFor(shard, n, at), shards + [shard], n, at)
  {
    hide PointsFor, NodesAt;
    forall p: Point
      ensures multiset(PointsFor(shard, n, at))[p] == if p.shard == shard then |NodesAt(p, n, at)| else 0
    {
      PointsForCount(shard, n, at, p);
    }
  }

  /** Which points there are, and that each virtual node has its own. */
  lemma ExactMembers(ring: seq<Point>, shards: seq<int>, n: nat, at: PlaceOf, p: Point)
    requires Exact(ring, shards, n, at)
    ensures p in ring <==> p.shard in shards && exists i :: 0 <= i < n && at(p.shard, i) == p.hash
  {
    assert p in ring <==> multiset(ring)[p] > 0;
    var nodes := NodesAt(p, n, at);
    if i :| 0 <= i < n && at(p.shard, i) == p.hash {
      assert i in nodes;
    }
    if i :| i in nodes {
      assert 0 <= i < n && at(p.shard, i) == p.hash;
    }
  }

  /** Taking the points of a listed shard out of the ring takes out one for each virtual node. */
  lemma ExactSplits(ring: seq<Point>, shards: seq<int>, n: nat, at: PlaceOf, shard: int)
    requires Exact(ring, shards, n, at) && shard in shards
    ensures |ring| == |Filter(ring, shard)| + n
  {
    var kept, gone := Filter(ring, shard), PointsFor(shard, n, at);
    hide Filter, PointsFor, NodesAt;
    forall p: Point ensures multiset(ring)[p] == multiset(kept + gone)[p] {
      FilterCount(ring, shard, p);
      PointsForCount(shard, n, at, p);
    }
    assert multiset(ring) == multiset(kept + gone);
    assert |ring| == |multiset(ring)| == |multiset(kept + gone)| == |kept| + |gone|;
    assert |gone| == n by {
      PointsForLength(shard, n, at);
    }
  }

  lemma PointsForLength(shard: int, n: nat, at: PlaceOf)
    ensures |PointsFor(shard, n, at)| == n
  {
  }

  lemma ExactLess(ring: seq<Point>, shards: seq<int>, n: nat, at: PlaceOf, i: nat)
    requires Exact(ring, shards, n, at) && Distinct(shards) && i < |shards|
    ensures Exact(Filter(ring, shards[i]), Omit(shards, i), n, at) && Distinct(Omit(shards, i))
  {
    var shard, left := shards[i], Omit(shards, i);
    assert forall s :: s in left <==> s in shards && s != shard by {
      forall s | s in shards && s != shard ensures s in left {
        var k :| 0 <= k < |shards| && shards[k] == s;
        assert left[if k < i then k else k - 1] == s;
      }
    }
    hide Omit;
    forall p: Point ensures multiset(Filter(ring, shard))[p] == if p.shard == shard then 0 else multiset(ring)[p] {
      FilterCount(ring, shard, p);
    }
  }

  /** Rings of the same shards route alike, in whatever order the shards came and went. */
  lemma RoutingByShards(a: seq<Point>, b: seq<Point>, shardsA: seq<int>, shardsB: seq<int>, n: nat, at: PlaceOf, h: U64)
    requires Exact(a, shardsA, n, at) && Exact(b, shardsB, n, at) && (forall s :: s in shardsA <==> s in shardsB)
    requires Sorted(a) && Sorted(b) && NoClash(a)
    ensures Lookup(a, h) == Lookup(b, h)
  {
    forall p ensures p in a <==> p in b {
      assert p in a <==> multiset(a)[p] > 0;
      assert p in b <==> multiset(b)[p] > 0;
    }
    RoutingByPoints(a, b, h);
  }

  class Ring {
    const at: PlaceOf
    const hash: string -> U64
    const virtualNodes: nat
    var shards: seq<int>
    var ring: seq<Point>

    ghost predicate Valid()
      reads this
    {
      Sorted(ring) && forall p :: p in ring ==> p.shard in shards
    }

    ghost predicate Full()
      reads this
    {
      Distinct(shards) && Exact(ring, shards, virtualNodes, at) && |ring| == |shards| * virtualNodes
    }

    /** In a full ring a point is there if and only if it is the place of a virtual node of a listed shard. */
    lemma Points(p: Point)
      requires Full()
      ensures p in ring <==> p.shard in shards && exists i :: 0 <= i < virtualNodes && at(p.shard, i) == p.hash
    {
      hide Exact;
      ExactMembers(ring, shards, virtualNodes, at, p);
    }

    constructor (shards: seq<int>, virtualNodes: nat, at: PlaceOf, hash: string -> U64)
      ensures Valid() && this.shards == shards && this.at == at
      ensures this.hash == hash && this.virtualNodes == virtualNodes
      ensures Distinct(shards) ==> Full()
      ensures Distinct(shards) ==> forall p ::
        p in ring <==> p.shard in shards && exists i :: 0 <= i < virtualNodes && at(p.shard, i) == p.hash
    {
      this.shards, this.virtualNodes, this.at, this.hash := shards, virtualNodes, at, hash;
      ring := [];
      new;
      for i := 0 to |shards|
        invariant this.shards == shards
        invariant forall p :: p in ring ==> p.shard in shards
        invariant Distinct(shards) ==> Exact(ring, shards[..i], virtualNodes, at)
        invariant |ring| == i * virtualNodes
      {
        assert shards[..i + 1] == shards[..i] + [shards[i]];
        if Distinct(shards) {
          ExactMore(ring, shards[..i], virtualNodes, at, shards[i]);
        }
        PointsForLength(shards[i], virtualNodes, at);
        OneMoreShard(i, virtualNodes);
        AddShardToRing(shards[i]);
      }
      assert shards[..|shards|] == shards;
      Sort();
      if Distinct(shards) {
        forall p ensures
          p in ring <==> p.shard in shards && exists i :: 0 <= i < virtualNodes && at(p.shard, i) == p.hash
        {
          Points(p);
        }
      }
    }

    method AddShardToRing(shard: int)
      modifies this`ring
      ensures ring == old(ring) + PointsFor(shard, virtualNodes, at)
    {
      for i := 0 to virtualNodes
        invariant ring == old(ring) + PointsFor(shard, virtualNodes, at)[..i]
      {
        ring := ring + [Point(at(shard, i), shard)];
      }
    }

    /** Some sorted arrangement of the same points. */
    method Sort()
      modifies this`ring
      ensures Sorted(ring) && SamePoints(ring, old(ring)) && |ring| == |old(ring)|
      ensures forall p :: p in ring <==> p in old(ring)
      ensures forall shards :: Exact(old(ring), shards, virtualNodes, at) ==> Exact(ring, shards, virtualNodes, at)
    {
      ArrangeSorts(ring);
      ring := Arrange(ring);
      assert |ring| == |multiset(ring)| == |multiset(old(ring))| == |old(ring)|;
      forall p ensures p in ring <==> p in old(ring) {
        SameMembers(ring, old(ring), p);
      }
    }

    /** No virtual node of a listed shard lies nearer to `h`, clockwise, than `x`. */
    ghost predicate NearestNode(h: U64, x: U64)
      reads this
    {
      forall s, j :: s in shards && 0 <= j < virtualNodes ==> Distance(h, x) <= Distance(h, at(s, j))
    }

    lemma FullIsEmpty()
      requires Full()
      ensures ring == [] <==> shards == [] || virtualNodes == 0
    {
      hide Exact;
      if shards != [] && virtualNodes > 0 {
        Points(Point(at(shards[0], 0), shards[0]));
      }
    }

    lemma NearestOfAll(h: U64, p: Point)
      requires Full() && p in ring && Nearest(ring, h, p)
      ensures p.shard in shards && exists i :: 0 <= i < virtualNodes && NearestNode(h, at(p.shard, i))
    {
      hide Exact, Distance;
      Points(p);
      var i :| 0 <= i < virtualNodes && at(p.shard, i) == p.hash;
      forall s, j | s in shards && 0 <= j < virtualNodes ensures Distance(h, p.hash) <= Distance(h, at(s, j)) {
        Points(Point(at(s, j), s));
      }
      assert NearestNode(h, at(p.shard, i));
    }

    /** Binary search for the first point at or after the key's hash, around the end of the ring. */
    method GetShard(key: string) returns (shard: int)
      requires Valid()
      ensures shard == Lookup(ring, hash(key))
      ensures ring == [] ==> shard == 0
      ensures ring != [] ==> exists p :: p in ring && p.shard == shard && Nearest(ring, hash(key), p)
      ensures Full() && (shards == [] || virtualNodes == 0) ==> shard == 0
      ensures Full() && shards != [] && virtualNodes > 0 ==>
        shard in shards && exists i :: 0 <= i < virtualNodes && NearestNode(hash(key), at(shard, i))
    {
      if Full() {
        FullIsEmpty();
      }
      if |ring| == 0 {
        return 0;
      }
      var h := hash(key);
      var low, high := 0, |ring|;
      while low < high
        invariant 0 <= low <= high <= |ring|
        invariant low <= Search(ring, h) <= high
      {
        var mid := (low + high) / 2;
        if ring[mid].hash < h {
          assert forall k :: 0 <= k <= mid ==> ring[k].hash <= ring[mid].hash;
          low := mid + 1;
        } else {
          high := mid;
        }
      }
      ghost var p := Target(ring, h);
      forall q | q in ring ensures Distance(h, p.hash) <= Distance(h, q.hash) {
        TargetIsNearest(ring, h, q);
      }
      if Full() {
        NearestOfAll(h, p);
      }
      if low >= |ring| {
        low := 0;
      }
      return ring[low].shard;
    }

    method IsListed(shard: int) returns (listed: bool)
      ensures listed <==> shard in shards
    {
      for i := 0 to |shards|
        invariant shard !in shards[..i]
      {
        if shards[i] == shard {
          return true;
        }
      }
      assert shards[..|shards|] == shards;
      return false;
    }

    method AddShard(shard: int)
      requires Valid()
      modifies this
      ensures Valid() && (old(Full()) ==> Full())
      ensures shard in old(shards) ==> shards == old(shards) && ring == old(ring)
      ensures shard !in old(shards) ==>
        && shards == old(shards) + [shard]
        && Newcomer(old(ring), PointsFor(shard, virtualNodes, at), shard)
        && Extended(old(ring), PointsFor(shard, virtualNodes, at), ring)
        && |ring| == |old(ring)| + virtualNodes
        && forall p :: p in ring <==>
             p in old(ring) || (p.shard == shard && exists i :: 0 <= i < virtualNodes && at(shard, i) == p.hash)
      ensures NoClash(old(ring)) ==>
        forall h: U64 :: Lookup(ring, h) == Lookup(old(ring), h) || Lookup(ring, h) == shard
    {
      hide *;
      ValidIs();
      var listed := IsListed(shard);
      if listed {
        return;
      }
      FullIs();
      if Full() {
        ExactMore(ring, shards, virtualNodes, at, shard);
        NewShard(shards, shard);
      }
      PointsForLength(shard, virtualNodes, at);
      OneMoreShard(|shards|, virtualNodes);
      shards := shards + [shard];
      AddShardToRing(shard);
      Sort();
      FullIs();
      ShardAdded(old(ring), old(shards), virtualNodes, at, shard, ring);
      ValidIs();
    }

    lemma FullIs()
      ensures Full() <==> Distinct(shards) && Exact(ring, shards, virtualNodes, at) && |ring| == |shards| * virtualNodes
    {
    }

    lemma ValidIs()
      ensures Valid() <==> Sorted(ring) && forall p :: p in ring ==> p.shard in shards
    {
    }

    /** Removes the first listing of the shard and all its points. */
    method RemoveShard(shard: int)
      requires Valid()
      modifies this
      ensures Valid() && (old(Full()) ==> Full()) && ring == Filter(old(ring), shard)
      ensures shard !in old(shards) ==> shards == old(shards)
      ensures forall i :: 0 <= i < |old(shards)| && old(shards)[i] == shard && shard !in old(shards)[..i] ==>
        shards == Omit(old(shards), i)
      ensures forall h: U64 :: Lookup(old(ring), h) != shard ==> Lookup(ring, h) == Lookup(old(ring), h)
    {
      hide Lookup, Exact, Omit, Filter, Distinct;
      var found := 0;
      while found < |shards| && shards[found] != shard
        invariant found <= |shards| && shard !in shards[..found]
      {
        found := found + 1;
      }
      assert shards[..|shards|] == shards;
      if found < |shards| {
        if Full() {
          ExactLess(ring, shards, virtualNodes, at, found);
          ExactSplits(ring, shards, virtualNodes, at, shard);
          OneMoreShard(|shards| - 1, virtualNodes);
        }
        OmitLength(shards, found);
        OmitMembers(shards, found);
        shards := Omit(shards, found);
      } else if Full() {
        ExactAbsent(ring, shards, virtualNodes, at, shard);
      }
      var kept := WithoutShard(shard);
      FilterSorted(ring, shard);
      forall p | p in kept ensures p in ring && p.shard != shard {
        FilterMembers(ring, shard, p);
      }
      ring := kept;
      forall h: U64 | Lookup(old(ring), h) != shard ensures Lookup(ring, h) == Lookup(old(ring), h) {
        RemovalMovesOnlyItsOwn(old(ring), shard, h);
      }
    }

    method WithoutShard(shard: int) returns (kept: seq<Point>)
      ensures kept == Filter(ring, shard)
    {
      kept := [];
      for i := 0 to |ring|
        invariant kept == Filter(ring[..i], shard)
      {
        assert ring[..i + 1][..i] == ring[..i];
        if ring[i].shard != shard {
          kept := kept + [ring[i]];
        }
      }
      assert ring[..|ring|] == ring;
    }
  }

  lemma NewShard(shards: seq<int>, shard: int)
    requires Distinct(shards) && shard !in shards
    ensures Distinct(shards + [shard])
  {
  }

  /** What a sorted arrangement of a ring and the points of a new shard is. */
  lemma ShardAdded(ring: seq<Point>, shards: seq<int>, n: nat, at: PlaceOf, shard: int, ring': seq<Point>)
    requires Sorted(ring) && (forall p :: p in ring ==> p.shard in shards) && shard !in shards
    requires Sorted(ring') && SamePoints(ring', ring + PointsFor(shard, n, at))
    ensures Newcomer(ring, PointsFor(shard, n, at), shard) && Extended(ring, PointsFor(shard, n, at), ring')
    ensures forall p :: p in ring' <==>
      p in ring || (p.shard == shard && exists i :: 0 <= i < n && at(shard, i) == p.hash)
    ensures forall p :: p in ring' ==> p.shard in shards + [shard]
    ensures NoClash(ring) ==> forall h: U64 :: Lookup(ring', h) == Lookup(ring, h) || Lookup(ring', h) == shard
  {
    hide PointsFor, Sorted, SamePoints, Lookup, NoClash;
    var added := PointsFor(shard, n, at);
    NewPoints(shard, n, at);
    forall p ensures p in ring' <==> p in ring || p in added {
      ExtendedMembers(ring, added, ring', p);
    }
    if NoClash(ring) {
      forall h: U64 ensures Lookup(ring', h) == Lookup(ring, h) || Lookup(ring', h) == shard {
        AdditionMovesOnlyToIt(ring, added, ring', shard, h);
      }
    }
  }

  lemma OneMoreShard(k: nat, n: nat)
    ensures (k + 1) * n == k * n + n
  {
  }

  lemma OmitLength(shards: seq<int>, i: nat)
    requires i < |shards|
    ensures |Omit(shards, i)| == |shards| - 1
  {
  }

  lemma OmitMembers(shards: seq<int>, i: nat)
    requires i < |shards|
    ensures forall s :: s in shards && s != shards[i] ==> s in Omit(shards, i)
  {
    forall s | s in shards && s != shards[i] ensures s in Omit(shards, i) {
      var k :| 0 <= k < |shards| && shards[k] == s;
      assert Omit(shards, i)[if k < i then k else k - 1] == s;
    }
  }

  lemma FilterAbsent(ring: seq<Point>, shards: seq<int>, n: nat, at: PlaceOf, shard: int)
    requires Exact(ring, shards, n, at) && shard !in shards
    ensures |Filter(ring, shard)| == |ring|
  {
    var kept := Filter(ring, shard);
    hide Filter, NodesAt;
    forall p: Point ensures multiset(kept)[p] == multiset(ring)[p] {
      FilterCount(ring, shard, p);
    }
    assert multiset(kept) == multiset(ring);
    assert |kept| == |multiset(kept)| == |multiset(ring)|;
  }

  lemma ExactAbsent(ring: seq<Point>, shards: seq<int>, n: nat, at: PlaceOf, shard: int)
    requires Exact(ring, shards, n, at) && shard !in shards
    ensures Exact(Filter(ring, shard), shards, n, at) && |Filter(ring, shard)| == |ring|
  {
    FilterAbsent(ring, shards, n, at, shard);
    forall p: Point ensures multiset(Filter(ring, shard))[p] == if p.shard == shard then 0 else multiset(ring)[p] {
      FilterCount(ring, shard, p);
    }
  }

  lemma NewPoints(shard: int, n: nat, at: PlaceOf)
    ensures forall p :: p in PointsFor(shard, n, at) <==>
      p.shard == shard && exists i :: 0 <= i < n && at(shard, i) == p.hash
  {
    var points := PointsFor(shard, n, at);
    forall p: Point | p.shard == shard && exists i :: 0 <= i < n && at(shard, i) == p.hash ensures p in points {
      var i :| 0 <= i < n && at(shard, i) == p.hash;
      assert points[i] == p;
    }
  }
}
