/** A damaged entry count: a larger one is always rejected, a smaller one only if the checksums of the
    two bodies differ, and for all entries the last word can be such that they do not. */
module SnapshotCount {
  import opened Crc64
  import opened Crc64Reach
  import opened Codec
  import opened Snapshot

  /** The snapshot of the entries with another count in its header. */
  function Recounted(es: seq<Entry>, count: nat): Bytes {
    SnapshotBytes(es)[..16] + Encode(count, 8) + EncodeEntries(es)
  }

  /** What the checksum of a snapshot covers. */
  function Covered(es: seq<Entry>): Bytes {
    Encode(Magic, 8) + Body(es)
  }

  lemma CoveredIs(es: seq<Entry>)
    ensures Covered(es) == Encode(Magic, 8) + Body(es) && |Covered(es)| >= 16
    ensures Body(es) == Encode(|es|, 8) + EncodeEntries(es)
  {
    hide Encode, EncodeEntries;
  }

  lemma NoBytes(count: nat)
    requires count > 0
    ensures !ParseEntries([], count).complete
  {
  }

  /** Reading as many entries as there are, fewer or more. */
  lemma {:induction false} ParseCount(es: seq<Entry>, count: nat)
    ensures var p := ParseEntries(EncodeEntries(es), count);
            && p.complete == (count <= |es|)
            && (p.complete ==> p.entries == ClippedAll(es[..count]) && p.size == |EncodeEntries(es[..count])|)
            && (p.complete ==> EncodeEntries(es[..count]) <= EncodeEntries(es))
    decreases |es|
  {
    hide EncodeEntry, ParseEntry, Clipped;
    if count == 0 {
      assert ClippedAll(es[..0]) == [];
    } else if es == [] {
      NoBytes(count);
    } else {
      var size, tail, bs := |EncodeEntry(es[0])|, EncodeEntries(es[1..]), EncodeEntries(es);
      ParseEncoded(es[0], tail, |bs|);
      assert bs[..|bs|] == bs && bs[size..] == tail;
      ParseCount(es[1..], count - 1);
      if count <= |es| {
        assert es[..count][1..] == es[1..][..count - 1];
        assert ClippedAll(es[..count]) == [Clipped(es[0])] + ClippedAll(es[1..][..count - 1]);
      }
    }
  }

  lemma RecountedLayout(es: seq<Entry>, count: nat)
    requires count < TwoTo64
    ensures var f := Recounted(es, count);
            && |f| == 24 + |EncodeEntries(es)| && f[..8] == Encode(Magic, 8) && Decode(f[..8]) == Magic
            && f[8..16] == Encode(Checksum(Covered(es)), 8) && Decode(f[8..16]) == Checksum(Covered(es))
            && f[16..24] == Encode(count, 8) && Decode(f[16..24]) == count && f[24..] == EncodeEntries(es)
  {
    hide Encode, Decode, EncodeEntries, Checksum, SnapshotBytes, Body;
    HeaderLayout(es);
    RoundTrip64(Magic);
    RoundTrip64(count);
    RoundTrip64(Checksum(Covered(es)));
    var g, f := SnapshotBytes(es), Recounted(es, count);
    assert f[..8] == g[..8] && f[8..16] == g[8..16];
  }

  /** A snapshot with a wrong count is accepted if and only if the count is too small and the
      checksum of the entries it leaves is that of all of them. */
  lemma CountDamageExactly(es: seq<Entry>, count: nat)
    requires |es| < TwoTo64 && count < TwoTo64
    ensures Load(Recounted(es, count)).ok <==> count <= |es| && Checksum(Covered(es[..count])) == Checksum(Covered(es))
    ensures count <= |es| ==> Load(Recounted(es, count)).inserted == ClippedAll(es[..count])
  {
    hide Encode, Decode, EncodeEntries, Checksum, SnapshotBytes, Body, Recounted, Covered, ParseEntries, ClippedAll;
    var f := Recounted(es, count);
    RecountedLayout(es, count);
    ParseCount(es, count);
    if count <= |es| {
      var part := EncodeEntries(es[..count]);
      CoveredIs(es[..count]);
      assert f[16..24 + |part|] == f[16..24] + f[24..][..|part|];
      assert f[24..][..|part|] == part;
    }
  }

  // ----- The last word decides

  function WithLast(e: Entry, w: U64): Entry {
    e.(value := e.value.(lastAccess := w))
  }

  /** The entries with another time of last access in the last of them. */
  function LastSet(es: seq<Entry>, w: U64): (r: seq<Entry>)
    requires es != []
    ensures |r| == |es| && r[..|es| - 1] == es[..|es| - 1]
  {
    es[|es| - 1 := WithLast(es[|es| - 1], w)]
  }

  function Front(e: Entry): Bytes {
    var key, value := Clip(e.key), Clip(e.value.value);
    Encode(|key|, 4) + key + Encode(|value|, 4) + value + Encode(e.value.expiry, 8) + Encode(e.value.accessCount, 8)
  }

  lemma EntryEnds(e: Entry, w: U64)
    ensures EncodeEntry(WithLast(e, w)) == Front(e) + Encode(w, 8)
  {
    hide Encode, Clip;
  }

  /** All that the checksum covers before the last word. */
  function Before(es: seq<Entry>): Bytes
    requires es != []
  {
    var n := |es| - 1;
    Encode(Magic, 8) + Encode(|es|, 8) + EncodeEntries(es[..n]) + Front(es[n])
  }

  lemma LastWord(es: seq<Entry>, w: U64)
    requires es != []
    ensures Covered(LastSet(es, w)) == Before(es) + Encode(w, 8)
  {
    hide Encode, EncodeEntries, EncodeEntry, Front, Body, Covered, WithLast;
    var n := |es| - 1;
    var last := WithLast(es[n], w);
    EntryEnds(es[n], w);
    CoveredIs(LastSet(es, w));
    assert LastSet(es, w) == es[..n] + [last];
    OneMoreEntry([], es[..n], last);
    assert [] + EncodeEntries(es[..n] + [last]) == EncodeEntries(es[..n] + [last]);
  }

  /** The last word that gives the entries the checksum of the first `count` of them. */
  function HidingWord(es: seq<Entry>, count: nat): U64
    requires count < |es|
  {
    Word(Steer(Serial(Start, Before(es)), Serial(Start, Covered(es[..count]))))
  }

  lemma SameChecksum(es: seq<Entry>, count: nat)
    requires count < |es|
    ensures var es' := LastSet(es, HidingWord(es, count)); Checksum(Covered(es')) == Checksum(Covered(es[..count]))
  {
    hide Encode, Decode, Covered, Before, Serial, Steer, LastSet;
    var target, c := Serial(Start, Covered(es[..count])), Serial(Start, Before(es));
    var ds := Steer(c, target);
    CoveredIs(es[..count]);
    TopBitClears(Start, Covered(es[..count]));
    EightBytesReach(c, target);
    EncodeDecode(ds);
    LastWord(es, HidingWord(es, count));
    SerialSplits(Start, Before(es), ds);
  }

  /** Whatever the entries and the wrong, smaller count, there is a time of last access for the last
      entry with which the snapshot with that count is accepted and all later entries are gone. In a
      snapshot of up to 255 entries the damage is in a single byte. */
  lemma CountDamageCanPass(es: seq<Entry>, count: nat)
    requires count < |es| < TwoTo64
    ensures var es' := LastSet(es, HidingWord(es, count));
            && Load(Recounted(es', count)) == LoadResult(true, ClippedAll(es[..count]))
            && Load(SnapshotBytes(es')) == LoadResult(true, ClippedAll(es'))
    ensures |es| < 256 ==> Encode(count, 8)[1..] == Encode(|es|, 8)[1..]
  {
    hide Encode, Decode, Covered, Recounted, Checksum, SnapshotBytes, ClippedAll, Load, HidingWord, EncodeEntries;
    var es' := LastSet(es, HidingWord(es, count));
    assert es'[..count] == es'[..|es| - 1][..count] == es[..count];
    CountDamageExactly(es', count);
    SameChecksum(es, count);
    LoadWritten(es');
    if |es| < 256 {
      OneByteCounts(count, |es|);
    }
  }

  lemma OneByteCounts(m: nat, n: nat)
    requires m < 256 && n < 256
    ensures Encode(m, 8)[1..] == Encode(n, 8)[1..]
  {
    hide ToByte;
    assert m / 256 == 0 && n / 256 == 0;
    assert Encode(m, 8)[1..] == Encode(0, 7) == Encode(n, 8)[1..];
  }
}
