/** What the log of an evicting table says. A set is logged before the evictions it causes, so an
    insert that evicts its own key leaves a log that ends in that key's deletion. */
module TableLog {
  import opened Codec
  import opened Lists
  import opened Recovery

  /** An operation of the table that changes its contents, with the keys it evicted. */
  datatype Op = Inserted(key: Bytes, slot: Slot, victims: seq<Bytes>) | Removed(key: Bytes)

  function Deletes(victims: seq<Bytes>): (ws: seq<Write>)
    ensures |ws| == |victims|
  {
    seq(|victims|, i requires 0 <= i < |victims| => Del(victims[i]))
  }

  function LoggedBy(op: Op): seq<Write> {
    match op
    case Inserted(key, slot, victims) => [Put(key, slot.value, slot.expiry)] + Deletes(victims)
    case Removed(key) => [Del(key)]
  }

  function LogOf(trace: seq<Op>): seq<Write> {
    if trace == [] then [] else LogOf(trace[..|trace| - 1]) + LoggedBy(trace[|trace| - 1])
  }

  function Step(m: Contents, op: Op): Contents {
    match op
    case Inserted(key, slot, victims) => (m - Members(victims))[key := slot]
    case Removed(key) => m - {key}
  }

  /** What the table holds after its operations. */
  function Live(trace: seq<Op>): Contents {
    if trace == [] then map[] else Step(Live(trace[..|trace| - 1]), trace[|trace| - 1])
  }

  lemma OneMore(trace: seq<Op>, op: Op)
    ensures Live(trace + [op]) == Step(Live(trace), op)
    ensures RecordsOf(LogOf(trace + [op])) == RecordsOf(LogOf(trace)) + RecordsOf(LoggedBy(op))
  {
    assert (trace + [op])[..|trace|] == trace;
  }

  predicate EvictsItself(op: Op) {
    op.Inserted? && op.key in op.victims
  }

  predicate Concerns(op: Op, key: Bytes) {
    op.key == key || (op.Inserted? && key in op.victims)
  }

  /** The last operation that concerns the key is an insert that evicted it first. */
  ghost predicate Lost(trace: seq<Op>, key: Bytes) {
    exists i :: 0 <= i < |trace| && LostAt(trace, i, key)
  }

  ghost predicate LostAt(trace: seq<Op>, i: nat, key: Bytes)
    requires i < |trace|
  {
    && EvictsItself(trace[i]) && trace[i].key == key
    && forall j :: i < j < |trace| ==> !Concerns(trace[j], key)
  }

  lemma {:induction false} DeletesRemove(m: Contents, victims: seq<Bytes>)
    ensures After(m, Deletes(victims)) == m - Members(victims)
    decreases |victims|
  {
    if victims != [] {
      var n := |victims| - 1;
      assert Deletes(victims)[..n] == Deletes(victims[..n]);
      DeletesRemove(m, victims[..n]);
      assert victims == victims[..n] + [victims[n]];
      assert m - Members(victims) == m - Members(victims[..n]) - {victims[n]};
    }
  }

  lemma LoggedInsert(m: Contents, key: Bytes, slot: Slot, victims: seq<Bytes>)
    ensures After(m, LoggedBy(Inserted(key, slot, victims))) == m[key := slot] - Members(victims)
  {
    var put := [Put(key, slot.value, slot.expiry)];
    AfterSplits(m, put, Deletes(victims));
    assert After(m, put) == m[key := slot] by {
      assert put[..0] == [];
    }
    DeletesRemove(m[key := slot], victims);
  }

  lemma LostStep(trace: seq<Op>, key: Bytes)
    requires trace != []
    ensures var op := trace[|trace| - 1];
            Lost(trace, key) <==> (if Concerns(op, key) then EvictsItself(op) && op.key == key
                                   else Lost(trace[..|trace| - 1], key))
  {
    var n := |trace| - 1;
    var front, op := trace[..n], trace[n];
    if Concerns(op, key) {
      if EvictsItself(op) && op.key == key {
        assert LostAt(trace, n, key);
      }
    } else {
      if Lost(front, key) {
        var i :| 0 <= i < n && LostAt(front, i, key);
        assert forall j :: i < j < n ==> trace[j] == front[j];
        assert LostAt(trace, i, key);
      }
      if Lost(trace, key) {
        var i :| 0 <= i < |trace| && LostAt(trace, i, key);
        assert i < n;
        assert LostAt(front, i, key);
      }
    }
  }

  /** Key by key: replaying the log of any operations gives what the table holds, except that it
      does not have the keys that were lost, which the table does hold. */
  lemma {:induction false} ReplayAt(trace: seq<Op>, key: Bytes)
    ensures var m := After(map[], LogOf(trace));
            if Lost(trace, key) then key in Live(trace) && key !in m else SameAt(m, Live(trace), key)
    decreases |trace|
  {
    if trace != [] {
      var n := |trace| - 1;
      var front, op := trace[..n], trace[n];
      var m := After(map[], LogOf(front));
      LostStep(trace, key);
      ReplayAt(front, key);
      AfterSplits(map[], LogOf(front), LoggedBy(op));
      assert op.Removed? ==> After(m, LoggedBy(op)) == m - {op.key};
      if op.Inserted? {
        LoggedInsert(m, op.key, op.slot, op.victims);
      }
    }
  }

  /** The log rebuilds the table exactly when no key is lost. */
  lemma ReplayRebuildsExactly(trace: seq<Op>, now: nat)
    ensures Replay(map[], RecordsOf(LogOf(trace)), now) == Live(trace) <==> forall key :: !Lost(trace, key)
  {
    hide Live, LogOf, Lost, After;
    var m := After(map[], LogOf(trace));
    ReplayIsWriting(map[], LogOf(trace), now);
    forall key ensures if Lost(trace, key) then key in Live(trace) && key !in m else SameAt(m, Live(trace), key) {
      ReplayAt(trace, key);
    }
    if forall key :: !Lost(trace, key) {
      ContentsEqual(m, Live(trace));
    }
  }

  /** No insert that evicts itself: nothing is lost, whatever else was evicted. */
  lemma NoSelfEviction(trace: seq<Op>, now: nat)
    requires forall i :: 0 <= i < |trace| ==> !EvictsItself(trace[i])
    ensures Replay(map[], RecordsOf(LogOf(trace)), now) == Live(trace)
  {
    ReplayRebuildsExactly(trace, now);
  }

  /** An insert that evicts its own key loses it at once, whatever came before. */
  lemma SelfEvictionLoses(trace: seq<Op>, key: Bytes, slot: Slot, victims: seq<Bytes>, now: nat)
    requires key in victims
    ensures var trace' := trace + [Inserted(key, slot, victims)];
            key in Live(trace') && key !in Replay(map[], RecordsOf(LogOf(trace')), now)
  {
    var trace' := trace + [Inserted(key, slot, victims)];
    assert LostAt(trace', |trace|, key);
    ReplayAt(trace', key);
    ReplayIsWriting(map[], LogOf(trace'), now);
  }
}
