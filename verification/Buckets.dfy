/** A chained hash table as a value: which map an array of buckets stands for. */
module Buckets {
  import opened Codec
  import opened Lists
  import opened Snapshot

  type Hash = Bytes -> nat

  datatype Pair = Pair(key: Bytes, value: ValueEntry, hash: nat)

  type Chain = seq<Pair>

  function Place(h: nat, n: nat): (b: nat)
    requires n > 0
    ensures b < n
  {
    h % n
  }

  ghost predicate Has(chain: Chain, key: Bytes) {
    exists i :: 0 <= i < |chain| && chain[i].key == key
  }

  ghost predicate DistinctKeys(chain: Chain) {
    forall i, j :: 0 <= i < j < |chain| ==> chain[i].key != chain[j].key
  }

  /** A pair lies in bucket `b` of `n` with a correct cached hash and the value of its key. */
  ghost predicate Fits(p: Pair, b: nat, n: nat, hash: Hash, m: map<Bytes, ValueEntry>)
    requires n > 0
  {
    p.hash == hash(p.key) && Place(p.hash, n) == b && p.key in m && m[p.key] == p.value
  }

  /** Bucket `b` of `n` holds each key that belongs there once, and nothing else. */
  ghost predicate ChainHolds(chain: Chain, b: nat, n: nat, hash: Hash, m: map<Bytes, ValueEntry>)
    requires n > 0
  {
    && (forall i :: 0 <= i < |chain| ==> Fits(chain[i], b, n, hash, m))
    && DistinctKeys(chain)
    && (forall key :: key in m && Place(hash(key), n) == b ==> Has(chain, key))
  }

  /** The buckets stand for the map. */
  ghost predicate Holds(buckets: seq<Chain>, hash: Hash, m: map<Bytes, ValueEntry>) {
    |buckets| > 0 && forall b :: 0 <= b < |buckets| ==> ChainHolds(buckets[b], b, |buckets|, hash, m)
  }

  // ----- One chain

  lemma ChainAdd(chain: Chain, b: nat, n: nat, hash: Hash, m: map<Bytes, ValueEntry>, p: Pair)
    requires n > 0 && ChainHolds(chain, b, n, hash, m)
    requires p.key !in m && p.hash == hash(p.key) && Place(p.hash, n) == b
    ensures ChainHolds(chain + [p], b, n, hash, m[p.key := p.value])
  {
    var chain', m' := chain + [p], m[p.key := p.value];
    assert forall i :: 0 <= i < |chain| ==> chain'[i] == chain[i] && Fits(chain[i], b, n, hash, m);
    hide Place;
    forall key | key in m' && Place(hash(key), n) == b ensures Has(chain', key) {
      if key == p.key {
        assert chain'[|chain|].key == key;
      } else {
        assert Has(chain, key);
        var i :| 0 <= i < |chain| && chain[i].key == key;
        assert chain'[i].key == key;
      }
    }
  }

  lemma ChainSet(chain: Chain, b: nat, n: nat, hash: Hash, m: map<Bytes, ValueEntry>, i: nat, p: Pair)
    requires n > 0 && ChainHolds(chain, b, n, hash, m) && i < |chain|
    requires p.key == chain[i].key && p.hash == hash(p.key)
    ensures ChainHolds(chain[i := p], b, n, hash, m[p.key := p.value])
  {
    var chain', m' := chain[i := p], m[p.key := p.value];
    hide Place;
    assert Fits(chain[i], b, n, hash, m);
    forall k | 0 <= k < |chain'| ensures Fits(chain'[k], b, n, hash, m') {
      assert Fits(chain[k], b, n, hash, m);
    }
    forall key | key in m' && Place(hash(key), n) == b ensures Has(chain', key) {
      assert Has(chain, key);
      var k :| 0 <= k < |chain| && chain[k].key == key;
      assert chain'[k].key == key;
    }
  }

  lemma ChainErase(chain: Chain, b: nat, n: nat, hash: Hash, m: map<Bytes, ValueEntry>, i: nat)
    requires n > 0 && ChainHolds(chain, b, n, hash, m) && i < |chain|
    ensures ChainHolds(Omit(chain, i), b, n, hash, m - {chain[i].key})
  {
    var chain', m' := Omit(chain, i), m - {chain[i].key};
    hide Place;
    forall k | 0 <= k < |chain'| ensures Fits(chain'[k], b, n, hash, m') {
      assert Fits(chain[if k < i then k else k + 1], b, n, hash, m);
    }
    forall key | key in m' && Place(hash(key), n) == b ensures Has(chain', key) {
      assert Has(chain, key);
      var k :| 0 <= k < |chain| && chain[k].key == key;
      assert chain'[if k < i then k else k - 1].key == key;
    }
  }

  /** A chain only depends on the keys that belong in it. */
  lemma ChainElsewhere(chain: Chain, b: nat, n: nat, hash: Hash, m: map<Bytes, ValueEntry>,
                       m': map<Bytes, ValueEntry>, key: Bytes)
    requires n > 0 && ChainHolds(chain, b, n, hash, m) && Place(hash(key), n) != b
    requires m - {key} == m' - {key}
    ensures ChainHolds(chain, b, n, hash, m')
  {
    hide Place;
    forall i | 0 <= i < |chain| ensures Fits(chain[i], b, n, hash, m') {
      assert Fits(chain[i], b, n, hash, m);
      assert chain[i].key in m - {key};
    }
    forall other | other in m' && Place(hash(other), n) == b ensures Has(chain, other) {
      assert other in m' - {key};
    }
  }

  // ----- The whole table

  lemma NoneHeld(n: nat, hash: Hash)
    requires n > 0
    ensures Holds(seq(n, _ => []), hash, map[])
  {
  }

  lemma OneChainChanged(buckets: seq<Chain>, hash: Hash, m: map<Bytes, ValueEntry>,
                        m': map<Bytes, ValueEntry>, key: Bytes, chain: Chain)
    requires Holds(buckets, hash, m) && m - {key} == m' - {key}
    requires ChainHolds(chain, Place(hash(key), |buckets|), |buckets|, hash, m')
    ensures Holds(buckets[Place(hash(key), |buckets|) := chain], hash, m')
  {
    hide ChainHolds;
    var n, b := |buckets|, Place(hash(key), |buckets|);
    hide Place;
    var buckets' := buckets[b := chain];
    forall c | 0 <= c < n ensures ChainHolds(buckets'[c], c, n, hash, m') {
      if c != b {
        ChainElsewhere(buckets[c], c, n, hash, m, m', key);
      }
    }
  }

  lemma Add(buckets: seq<Chain>, hash: Hash, m: map<Bytes, ValueEntry>, key: Bytes, value: ValueEntry)
    requires Holds(buckets, hash, m) && key !in m
    ensures var b := Place(hash(key), |buckets|);
            Holds(buckets[b := buckets[b] + [Pair(key, value, hash(key))]], hash, m[key := value])
  {
    hide ChainHolds;
    var b := Place(hash(key), |buckets|);
    hide Place;
    ChainAdd(buckets[b], b, |buckets|, hash, m, Pair(key, value, hash(key)));
    OneChainChanged(buckets, hash, m, m[key := value], key, buckets[b] + [Pair(key, value, hash(key))]);
  }

  lemma Set(buckets: seq<Chain>, hash: Hash, m: map<Bytes, ValueEntry>, i: nat, key: Bytes, value: ValueEntry)
    requires Holds(buckets, hash, m) && i < |buckets[Place(hash(key), |buckets|)]|
    requires buckets[Place(hash(key), |buckets|)][i].key == key
    ensures var b := Place(hash(key), |buckets|);
            Holds(buckets[b := buckets[b][i := Pair(key, value, hash(key))]], hash, m[key := value])
  {
    hide ChainHolds;
    var b := Place(hash(key), |buckets|);
    hide Place;
    ChainSet(buckets[b], b, |buckets|, hash, m, i, Pair(key, value, hash(key)));
    OneChainChanged(buckets, hash, m, m[key := value], key, buckets[b][i := Pair(key, value, hash(key))]);
  }

  lemma Erase(buckets: seq<Chain>, hash: Hash, m: map<Bytes, ValueEntry>, i: nat, key: Bytes)
    requires Holds(buckets, hash, m) && i < |buckets[Place(hash(key), |buckets|)]|
    requires buckets[Place(hash(key), |buckets|)][i].key == key
    ensures var b := Place(hash(key), |buckets|);
            Holds(buckets[b := Omit(buckets[b], i)], hash, m - {key})
  {
    hide ChainHolds;
    var b := Place(hash(key), |buckets|);
    hide Place;
    ChainErase(buckets[b], b, |buckets|, hash, m, i);
    OneChainChanged(buckets, hash, m, m - {key}, key, Omit(buckets[b], i));
  }

  /** Where a key is found, and that it is stored exactly when its chain has it. */
  lemma FoundAt(buckets: seq<Chain>, hash: Hash, m: map<Bytes, ValueEntry>, b: nat, i: nat)
    requires Holds(buckets, hash, m) && b < |buckets| && i < |buckets[b]|
    ensures var p := buckets[b][i];
            p.key in m && m[p.key] == p.value && p.hash == hash(p.key) && Place(p.hash, |buckets|) == b
  {
    hide Place;
    assert ChainHolds(buckets[b], b, |buckets|, hash, m);
    assert Fits(buckets[b][i], b, |buckets|, hash, m);
  }

  lemma NotFound(buckets: seq<Chain>, hash: Hash, m: map<Bytes, ValueEntry>, key: Bytes)
    requires Holds(buckets, hash, m)
    requires var chain := buckets[Place(hash(key), |buckets|)];
             forall i :: 0 <= i < |chain| ==> chain[i].key != key
    ensures key !in m
  {
    var b := Place(hash(key), |buckets|);
    hide Place;
    assert ChainHolds(buckets[b], b, |buckets|, hash, m);
    assert !Has(buckets[b], key);
  }

  // ----- Moving the pairs to a new array of buckets, chain by chain

  /** The part of the map moved so far: all buckets before `b`, and the front of bucket `b`. */
  ghost function Moved(m: map<Bytes, ValueEntry>, hash: Hash, n: nat, b: nat, front: Chain): map<Bytes, ValueEntry>
    requires n > 0
  {
    map key | key in m && (Place(hash(key), n) < b || Has(front, key)) :: m[key]
  }

  lemma MoveOne(m: map<Bytes, ValueEntry>, hash: Hash, n: nat, b: nat, chain: Chain, i: nat)
    requires n > 0 && ChainHolds(chain, b, n, hash, m) && i < |chain|
    ensures chain[i].hash == hash(chain[i].key) && chain[i].key !in Moved(m, hash, n, b, chain[..i])
    ensures Moved(m, hash, n, b, chain[..i + 1]) == Moved(m, hash, n, b, chain[..i])[chain[i].key := chain[i].value]
  {
    hide Place;
    assert Fits(chain[i], b, n, hash, m);
    assert chain[..i + 1] == chain[..i] + [chain[i]];
    forall key ensures Has(chain[..i + 1], key) <==> Has(chain[..i], key) || key == chain[i].key {
      HasMore(chain[..i], chain[i], key);
    }
    assert !Has(chain[..i], chain[i].key);
  }

  lemma HasMore(front: Chain, p: Pair, key: Bytes)
    ensures Has(front + [p], key) <==> Has(front, key) || key == p.key
  {
    var chain := front + [p];
    assert chain[|front|] == p;
    if Has(front, key) {
      var k :| 0 <= k < |front| && front[k].key == key;
      assert chain[k].key == key;
    }
  }

  lemma MovedChain(m: map<Bytes, ValueEntry>, hash: Hash, n: nat, b: nat, chain: Chain)
    requires n > 0 && ChainHolds(chain, b, n, hash, m)
    ensures Moved(m, hash, n, b, chain) == Moved(m, hash, n, b + 1, [])
  {
    forall key | key in m ensures Place(hash(key), n) == b <==> Has(chain, key) {
      if Has(chain, key) {
        var k :| 0 <= k < |chain| && chain[k].key == key;
        assert Fits(chain[k], b, n, hash, m);
      }
    }
    hide Place;
  }

  lemma MovedAll(m: map<Bytes, ValueEntry>, hash: Hash, n: nat)
    requires n > 0
    ensures Moved(m, hash, n, 0, []) == map[] && Moved(m, hash, n, n, []) == m
  {
  }
}
