/** Adding up the sizes of stored values. */
module Sizes {
  import opened Codec

  /** Subtraction that stops at zero. */
  function Less(memory: nat, size: nat): nat {
    if memory >= size then memory - size else 0
  }

  ghost function Sum(m: map<Bytes, nat>): nat
    decreases |m|
  {
    if m == map[] then 0
    else
      var key :| key in m;
      RemoveShrinks(m, key);
      m[key] + Sum(m - {key})
  }

  lemma RemoveShrinks<V>(m: map<Bytes, V>, key: Bytes)
    requires key in m
    ensures |m - {key}| == |m| - 1
  {
    assert (m - {key}).Keys == m.Keys - {key};
  }

  /** The sum does not depend on the order of adding. */
  lemma {:induction false} SumRemove(m: map<Bytes, nat>, key: Bytes)
    requires key in m
    ensures Sum(m) == m[key] + Sum(m - {key})
    decreases |m|
  {
    var first :| first in m && Sum(m) == m[first] + Sum(m - {first});
    if first != key {
      RemoveShrinks(m, first);
      RemoveShrinks(m, key);
      SumRemove(m - {first}, key);
      SumRemove(m - {key}, first);
      assert m - {first} - {key} == m - {key} - {first};
    }
  }

  lemma SumAdd(m: map<Bytes, nat>, key: Bytes, size: nat)
    requires key !in m
    ensures Sum(m[key := size]) == Sum(m) + size
  {
    SumRemove(m[key := size], key);
    assert m[key := size] - {key} == m;
  }

  lemma SumAtLeast(m: map<Bytes, nat>, key: Bytes)
    requires key in m
    ensures m[key] <= Sum(m)
  {
    SumRemove(m, key);
  }
}
