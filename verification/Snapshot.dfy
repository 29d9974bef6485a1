/** The snapshot file: magic number, checksum, entry count and entries. */
module Snapshot {
  import opened Crc64
  import opened Codec

  datatype ValueEntry = ValueEntry(value: Bytes, accessCount: U64, lastAccess: U64, expiry: U64)

  datatype Entry = Entry(key: Bytes, value: ValueEntry)

  const Magic: nat := 0x4B56_534E_4150_3031

  function Clipped(e: Entry): Entry {
    Entry(Clip(e.key), e.value.(value := Clip(e.value.value)))
  }

  function ClippedAll(es: seq<Entry>): (cs: seq<Entry>)
    ensures |cs| == |es|
  {
    seq(|es|, i requires 0 <= i < |es| => Clipped(es[i]))
  }

  function EncodeEntry(e: Entry): (bs: Bytes)
    ensures |bs| == 32 + |Clip(e.key)| + |Clip(e.value.value)|
  {
    var key, value := Clip(e.key), Clip(e.value.value);
    Encode(|key|, 4) + key + Encode(|value|, 4) + value
    + Encode(e.value.expiry, 8) + Encode(e.value.accessCount, 8) + Encode(e.value.lastAccess, 8)
  }

  function EncodeEntries(es: seq<Entry>): Bytes {
    if es == [] then [] else EncodeEntry(es[0]) + EncodeEntries(es[1..])
  }

  /** Everything after the checksum field. */
  function Body(es: seq<Entry>): Bytes {
    Encode(|es|, 8) + EncodeEntries(es)
  }

  function Checksum(data: Bytes): (n: nat)
    ensures n < TwoTo64
  {
    Serial(Start, data) as nat
  }

  function SnapshotBytes(es: seq<Entry>): Bytes {
    Encode(Magic, 8) + Encode(Checksum(Encode(Magic, 8) + Body(es)), 8) + Body(es)
  }

  function Word(bs: Bytes): U64
    requires |bs| == 8
  {
    DecodeFits(bs);
    Pow256Values();
    Decode(bs)
  }

  datatype Parsed = Short | Got(entry: Entry, size: nat)

  function ParseEntry(bs: Bytes): (p: Parsed)
    ensures p.Got? ==> 32 <= p.size <= |bs|
  {
    if |bs| < 4 then Short
    else
      var k := Decode(bs[..4]);
      if |bs| < 8 + k then Short
      else
        var v := Decode(bs[4 + k..8 + k]);
        if |bs| < 32 + k + v then Short
        else
          var m := 8 + k + v;
          Got(Entry(bs[4..4 + k],
                    ValueEntry(bs[8 + k..m], Word(bs[m + 8..m + 16]), Word(bs[m + 16..m + 24]), Word(bs[m..m + 8]))),
              m + 24)
  }

  /** The entries read, how many bytes they took and whether all `count` of them were there. */
  datatype ParsedAll = ParsedAll(entries: seq<Entry>, size: nat, complete: bool)

  function ParseEntries(bs: Bytes, count: nat): (p: ParsedAll)
    ensures p.size <= |bs|
    decreases count
  {
    if count == 0 then ParsedAll([], 0, true)
    else
      match ParseEntry(bs)
      case Short => ParsedAll([], 0, false)
      case Got(entry, size) =>
        var rest := ParseEntries(bs[size..], count - 1);
        ParsedAll([entry] + rest.entries, size + rest.size, rest.complete)
  }

  /** Loading inserts entries as it reads them; `ok` is the final verdict. A file without a full
      header is rejected. */
  datatype LoadResult = LoadResult(ok: bool, inserted: seq<Entry>)

  function Load(file: Bytes): LoadResult {
    if |file| < 24 || Decode(file[..8]) != Magic then LoadResult(false, [])
    else
      var p := ParseEntries(file[24..], Decode(file[16..24]));
      if !p.complete then LoadResult(false, p.entries)
      else LoadResult(Checksum(file[..8] + file[16..24 + p.size]) == Decode(file[8..16]), p.entries)
  }

  // ----- Round trip

  lemma EntryLayout(e: Entry, tail: Bytes)
    ensures var bs := EncodeEntry(e) + tail;
            var k, v := |Clip(e.key)|, |Clip(e.value.value)|;
            var m := 8 + k + v;
            && bs[..4] == Encode(k, 4) && bs[4..4 + k] == Clip(e.key)
            && bs[4 + k..8 + k] == Encode(v, 4) && bs[8 + k..m] == Clip(e.value.value)
            && bs[m..m + 8] == Encode(e.value.expiry, 8)
            && bs[m + 8..m + 16] == Encode(e.value.accessCount, 8)
            && bs[m + 16..m + 24] == Encode(e.value.lastAccess, 8)
  {
    hide Encode;
    var key, value := Clip(e.key), Clip(e.value.value);
    var p1 := Encode(|key|, 4);
    var p2 := p1 + key;
    var p3 := p2 + Encode(|value|, 4);
    var p4 := p3 + value;
    var p5 := p4 + Encode(e.value.expiry, 8);
    var p6 := p5 + Encode(e.value.accessCount, 8);
    var p7 := p6 + Encode(e.value.lastAccess, 8);
    var bs := p7 + tail;
    assert bs == EncodeEntry(e) + tail;
    FieldAt(p6, Encode(e.value.lastAccess, 8), bs);
    FieldAt(p5, Encode(e.value.accessCount, 8), bs);
    FieldAt(p4, Encode(e.value.expiry, 8), bs);
    FieldAt(p3, value, bs);
    FieldAt(p2, Encode(|value|, 4), bs);
    FieldAt(p1, key, bs);
  }

  lemma ParseEncoded(e: Entry, tail: Bytes, n: nat)
    requires n <= |EncodeEntry(e) + tail|
    ensures ParseEntry((EncodeEntry(e) + tail)[..n])
         == if n < |EncodeEntry(e)| then Short else Got(Clipped(e), |EncodeEntry(e)|)
  {
    hide Encode, Decode, EncodeEntry, Clip;
    var full := EncodeEntry(e) + tail;
    var bs := full[..n];
    var k, v := |Clip(e.key)|, |Clip(e.value.value)|;
    var m := 8 + k + v;
    EntryLayout(e, tail);
    RoundTrip32(k);
    RoundTrip32(v);
    RoundTrip64(e.value.expiry);
    RoundTrip64(e.value.accessCount);
    RoundTrip64(e.value.lastAccess);
    if n >= 4 {
      assert bs[..4] == full[..4];
      if n >= 8 + k {
        assert bs[4 + k..8 + k] == full[4 + k..8 + k];
        if n >= m + 24 {
          assert bs[4..4 + k] == full[4..4 + k] && bs[8 + k..m] == full[8 + k..m];
          assert bs[m..m + 8] == full[m..m + 8] && bs[m + 8..m + 16] == full[m + 8..m + 16];
          assert bs[m + 16..m + 24] == full[m + 16..m + 24];
        }
      }
    }
  }

  /** Reading the entries of a snapshot cut off anywhere: all of them come back if nothing is
      missing, and a missing byte is noticed. */
  lemma {:induction false} ParseAllEncoded(es: seq<Entry>, n: nat)
    requires n <= |EncodeEntries(es)|
    ensures var p := ParseEntries(EncodeEntries(es)[..n], |es|);
            && p.complete == (n == |EncodeEntries(es)|)
            && (p.complete ==> p.entries == ClippedAll(es) && p.size == n)
    decreases |es|
  {
    hide EncodeEntry, ParseEntry, Clipped;
    if es != [] {
      var size, tail := |EncodeEntry(es[0])|, EncodeEntries(es[1..]);
      var bs := EncodeEntries(es)[..n];
      ParseEncoded(es[0], tail, n);
      if n >= size {
        assert bs[size..] == tail[..n - size];
        ParseAllEncoded(es[1..], n - size);
        assert ClippedAll(es) == [Clipped(es[0])] + ClippedAll(es[1..]);
      }
    }
  }

  lemma HeaderLayout(es: seq<Entry>)
    ensures var f := SnapshotBytes(es);
            && |f| == 24 + |EncodeEntries(es)|
            && f[..8] == Encode(Magic, 8) && f[8..16] == Encode(Checksum(Encode(Magic, 8) + Body(es)), 8)
            && f[16..24] == Encode(|es|, 8) && f[24..] == EncodeEntries(es) && f[16..] == Body(es)
  {
    hide Encode, EncodeEntries, Checksum;
  }

  lemma HeaderValues(es: seq<Entry>)
    requires |es| < TwoTo64
    ensures Decode(Encode(Magic, 8)) == Magic && Decode(Encode(|es|, 8)) == |es|
    ensures var sum := Checksum(Encode(Magic, 8) + Body(es)); Decode(Encode(sum, 8)) == sum
  {
    hide Encode, Decode, Checksum;
    RoundTrip64(Magic);
    RoundTrip64(|es|);
    RoundTrip64(Checksum(Encode(Magic, 8) + Body(es)));
  }

  /** A snapshot loads, its checksum verifies, and the entries come back in order with each
      string cut to its 32-bit length. */
  lemma LoadWritten(es: seq<Entry>)
    requires |es| < TwoTo64
    ensures Load(SnapshotBytes(es)) == LoadResult(true, ClippedAll(es))
  {
    hide Encode, Decode, Checksum, Body, EncodeEntries, ParseEntries;
    var f := SnapshotBytes(es);
    HeaderLayout(es);
    HeaderValues(es);
    ParseAllEncoded(es, |EncodeEntries(es)|);
    assert EncodeEntries(es)[..|EncodeEntries(es)|] == EncodeEntries(es);
    assert f[16..24 + |EncodeEntries(es)|] == f[16..];
  }

  /** A snapshot file that lost its end, but not its header, is rejected. */
  lemma TruncatedIsRejected(es: seq<Entry>, n: nat)
    requires |es| < TwoTo64 && 24 <= n < |SnapshotBytes(es)|
    ensures !Load(SnapshotBytes(es)[..n]).ok
  {
    hide Encode, Decode, Checksum, Body, EncodeEntries, ParseEntries, SnapshotBytes;
    var f := SnapshotBytes(es);
    HeaderLayout(es);
    HeaderValues(es);
    ParseAllEncoded(es, n - 24);
    assert f[..n][24..] == EncodeEntries(es)[..n - 24];
    assert f[..n][..8] == f[..8] && f[..n][16..24] == f[16..24];
  }

  /** Damage confined to seven consecutive bytes after the checksum field never passes as a
      complete snapshot: if the damaged file is accepted, the reader stopped before its end. */
  lemma DamageIsNoticed(es: seq<Entry>, before: Bytes, w: Bytes, w': Bytes, after: Bytes)
    requires |es| < TwoTo64 && Body(es) == before + w + after
    requires |w| == |w'| <= 7 && w != w'
    ensures var f := SnapshotBytes(es)[..16] + before + w' + after;
            && |f| == |SnapshotBytes(es)|
            && (Load(f).ok ==> 24 + ParseEntries(f[24..], Decode(f[16..24])).size < |f|)
  {
    hide Encode, Decode, Body, EncodeEntries, ParseEntries, SnapshotBytes, Serial;
    var g := SnapshotBytes(es);
    HeaderLayout(es);
    var f := g[..16] + before + w' + after;
    HeaderValues(es);
    BodyHasCount(es);
    assert f == g[..16] + (before + w' + after);
    var p := ParseEntries(f[24..], Decode(f[16..24]));
    if 24 + p.size == |f| {
      var magic := Encode(Magic, 8);
      assert f[..8] == g[..8] && f[8..16] == g[8..16];
      assert f[16..24 + p.size] == before + w' + after;
      assert magic + (before + w + after) == (magic + before) + w + after;
      assert magic + (before + w' + after) == (magic + before) + w' + after;
      ShortCorruptionDetected(Start, magic + before, w, w', after);
      ChecksumsDiffer((magic + before) + w + after, (magic + before) + w' + after);
    }
  }

  /** Damage within seven consecutive bytes that leaves a well-formed list of entries, as any damage
      outside the count and the lengths does, is rejected. */
  lemma DamagedEntriesAreRejected(es: seq<Entry>, es': seq<Entry>, before: Bytes, w: Bytes, w': Bytes, after: Bytes)
    requires |es| < TwoTo64 && |es'| < TwoTo64 && |w| == |w'| <= 7 && w != w'
    requires Body(es) == before + w + after && Body(es') == before + w' + after
    ensures !Load(SnapshotBytes(es)[..16] + Body(es')).ok
  {
    hide Encode, Decode, Body, EncodeEntries, ParseEntries, SnapshotBytes, Load;
    HeaderLayout(es);
    HeaderLayout(es');
    var head := SnapshotBytes(es)[..16];
    HeaderValues(es');
    DamageIsNoticed(es, before, w, w', after);
    var f := head + Body(es');
    assert f == head + before + w' + after;
    var g := SnapshotBytes(es');
    assert f[16..24] == g[16..][..8] == g[16..24] && f[24..] == g[16..][8..] == g[24..];
    var n := |EncodeEntries(es')|;
    assert EncodeEntries(es')[..n] == EncodeEntries(es');
    ParseAllEncoded(es', n);
  }

  lemma BodyHasCount(es: seq<Entry>)
    ensures |Body(es)| >= 8
  {
    hide Encode, EncodeEntries;
  }

  lemma ChecksumsDiffer(a: Bytes, b: Bytes)
    requires Serial(Start, a) != Serial(Start, b)
    ensures Checksum(a) != Checksum(b)
  {
    hide Serial;
    RegisterFromNat(Serial(Start, a));
    RegisterFromNat(Serial(Start, b));
  }

  lemma RegisterFromNat(c: bv64)
    ensures (c as nat) as bv64 == c
  {
  }

  /** Damage to the stored checksum itself is always noticed. */
  lemma DamagedChecksumIsRejected(es: seq<Entry>, sum: Bytes)
    requires |es| < TwoTo64 && |sum| == 8
    requires sum != SnapshotBytes(es)[8..16]
    ensures var g := SnapshotBytes(es); !Load(g[..8] + sum + g[16..]).ok
  {
    hide Encode, Decode, Body, EncodeEntries, ParseEntries, SnapshotBytes, Checksum;
    var g := SnapshotBytes(es);
    HeaderLayout(es);
    var f := g[..8] + sum + g[16..];
    HeaderValues(es);
    ParseAllEncoded(es, |EncodeEntries(es)|);
    assert EncodeEntries(es)[..|EncodeEntries(es)|] == EncodeEntries(es);
    assert f[24..] == g[24..] && f[16..24] == g[16..24] && f[8..16] == sum && f[..8] == g[..8];
    assert f[16..24 + |EncodeEntries(es)|] == g[16..];
    if Decode(sum) == Decode(g[8..16]) {
      DecodeIsInjective(sum, g[8..16]);
    }
  }

  /** Whatever the bytes are, an entry read off them is the one they encode. */
  lemma ParseInverts(bs: Bytes)
    ensures ParseEntry(bs).Got? ==> EncodeEntry(ParseEntry(bs).entry) == bs[..ParseEntry(bs).size]
  {
    hide Encode, Decode;
    var p := ParseEntry(bs);
    if p.Got? {
      var k := Decode(bs[..4]);
      var v := Decode(bs[4 + k..8 + k]);
      var m := 8 + k + v;
      LengthFits(bs[..4]);
      LengthFits(bs[4 + k..8 + k]);
      EncodeDecode(bs[..4]);
      EncodeDecode(bs[4 + k..8 + k]);
      EncodeDecode(bs[m..m + 8]);
      EncodeDecode(bs[m + 8..m + 16]);
      EncodeDecode(bs[m + 16..m + 24]);
      ClipIsExact(p.entry.key);
      ClipIsExact(p.entry.value.value);
      assert bs[..m + 24] == bs[..4] + bs[4..4 + k] + bs[4 + k..8 + k] + bs[8 + k..m]
        + bs[m..m + 8] + bs[m + 8..m + 16] + bs[m + 16..m + 24];
    }
  }

  /** For every list of bytes and every count: the entries read are those the bytes begin with, and fewer
      than asked for are read only if what follows is no whole entry. */
  lemma {:induction false} ReadsPrefix(bs: Bytes, count: nat)
    ensures var p := ParseEntries(bs, count);
      && EncodeEntries(p.entries) <= bs && |p.entries| <= count && (p.complete <==> |p.entries| == count)
      && (p.complete ==> p.size == |EncodeEntries(p.entries)|)
      && (!p.complete ==> ParseEntry(bs[|EncodeEntries(p.entries)|..]).Short?)
    decreases count
  {
    hide EncodeEntry, ParseEntry;
    if count > 0 {
      match ParseEntry(bs)
      case Short =>
        assert bs[0..] == bs;
      case Got(e, size) =>
        ParseInverts(bs);
        ReadsPrefix(bs[size..], count - 1);
        var rest := ParseEntries(bs[size..], count - 1);
        var es := ParseEntries(bs, count).entries;
        assert es[0] == e && es[1..] == rest.entries;
        assert EncodeEntries(es) == bs[..size] + EncodeEntries(rest.entries);
        assert bs == bs[..size] + bs[size..];
        assert bs[size..][|EncodeEntries(rest.entries)|..] == bs[|EncodeEntries(es)|..];
    }
  }

  /** Entries that are written as they are: not too many, and no string too long. */
  ghost predicate Storable(es: seq<Entry>) {
    |es| < TwoTo64 && forall i :: 0 <= i < |es| ==> |es[i].key| < TwoTo32 && |es[i].value.value| < TwoTo32
  }

  lemma StorableIsExact(es: seq<Entry>)
    requires Storable(es)
    ensures ClippedAll(es) == es
  {
    forall i | 0 <= i < |es| ensures Clipped(es[i]) == es[i] {
      ClipIsExact(es[i].key);
      ClipIsExact(es[i].value.value);
    }
  }

  lemma {:induction false} ParseFirst(es: seq<Entry>, tail: Bytes)
    ensures ParseEntries(EncodeEntries(es) + tail, |es|) == ParsedAll(ClippedAll(es), |EncodeEntries(es)|, true)
    decreases |es|
  {
    hide EncodeEntry, ParseEntry, Clipped;
    if es != [] {
      var rest := EncodeEntries(es[1..]) + tail;
      var bs := EncodeEntries(es) + tail;
      assert bs == EncodeEntry(es[0]) + rest && bs[..|bs|] == bs;
      ParseEncoded(es[0], rest, |bs|);
      assert bs[|EncodeEntry(es[0])|..] == rest;
      ParseFirst(es[1..], tail);
      assert ClippedAll(es) == [Clipped(es[0])] + ClippedAll(es[1..]);
    }
  }

  /** A file that begins with a snapshot is read as that snapshot. */
  lemma AcceptsSnapshot(es: seq<Entry>, file: Bytes)
    requires Storable(es) && SnapshotBytes(es) <= file
    ensures Load(file) == LoadResult(true, es)
  {
    hide Encode, Decode, Checksum, Body, EncodeEntries, ParseEntries, ClippedAll, Storable, SnapshotBytes;
    var f := SnapshotBytes(es);
    var tail := file[|f|..];
    assert file == f + tail;
    StorableFew(es);
    HeaderLayout(es);
    HeaderValues(es);
    ParseFirst(es, tail);
    StorableIsExact(es);
    assert file[24..] == EncodeEntries(es) + tail && file[..8] == f[..8] && file[8..16] == f[8..16];
    assert file[16..24] == f[16..24] && file[16..24 + |EncodeEntries(es)|] == f[16..];
  }

  lemma StorableFew(es: seq<Entry>)
    requires Storable(es)
    ensures |es| < TwoTo64
  {
  }

  lemma {:induction false} ParsedIsStorable(bs: Bytes, count: nat)
    ensures forall e :: e in ParseEntries(bs, count).entries ==> |e.key| < TwoTo32 && |e.value.value| < TwoTo32
    decreases count
  {
    hide ParseEntry;
    if count > 0 && ParseEntry(bs).Got? {
      EntryIsShort(bs);
      ParsedIsStorable(bs[ParseEntry(bs).size..], count - 1);
    }
  }

  lemma EntryIsShort(bs: Bytes)
    requires ParseEntry(bs).Got?
    ensures var e := ParseEntry(bs).entry; |e.key| < TwoTo32 && |e.value.value| < TwoTo32
  {
    hide Decode;
    var k := Decode(bs[..4]);
    LengthFits(bs[..4]);
    LengthFits(bs[4 + k..8 + k]);
  }

  /** A file that is accepted begins with the snapshot of the entries read from it. */
  lemma AcceptedIsSnapshot(file: Bytes)
    requires Load(file).ok
    ensures Storable(Load(file).inserted) && SnapshotBytes(Load(file).inserted) <= file
  {
    hide Encode, Decode, Checksum, EncodeEntries, ParseEntries;
    var count := Decode(file[16..24]);
    var p := ParseEntries(file[24..], count);
    var es := p.entries;
    DecodeFits(file[16..24]);
    Pow256Values();
    ReadsPrefix(file[24..], count);
    ParsedIsStorable(file[24..], count);
    EncodeDecode(file[..8]);
    EncodeDecode(file[8..16]);
    EncodeDecode(file[16..24]);
    assert file[16..24 + p.size] == file[16..24] + file[24..][..p.size];
    assert Body(es) == file[16..24 + p.size];
    assert file[..24 + p.size] == file[..8] + file[8..16] + file[16..24 + p.size];
  }

  /** For every file: it is accepted if and only if it begins with the snapshot of some entries, and then
      those are the entries read. */
  lemma AcceptedExactly(file: Bytes)
    ensures Load(file).ok <==> exists es :: Storable(es) && SnapshotBytes(es) <= file
    ensures forall es :: Storable(es) && SnapshotBytes(es) <= file ==> Load(file).inserted == es
  {
    hide Load, Storable, SnapshotBytes;
    forall es | Storable(es) && SnapshotBytes(es) <= file ensures Load(file) == LoadResult(true, es) {
      AcceptsSnapshot(es, file);
    }
    if Load(file).ok {
      AcceptedIsSnapshot(file);
    }
  }

  // ----- The writer and the reader

  lemma {:induction false} EncodeEntriesSplits(a: seq<Entry>, b: seq<Entry>)
    ensures EncodeEntries(a + b) == EncodeEntries(a) + EncodeEntries(b)
    decreases |a|
  {
    hide EncodeEntry;
    if a == [] {
      assert a + b == b;
    } else {
      assert (a + b)[1..] == a[1..] + b;
      EncodeEntriesSplits(a[1..], b);
    }
  }

  lemma OneMoreEntry(head: Bytes, es: seq<Entry>, e: Entry)
    ensures head + EncodeEntries(es + [e]) == head + EncodeEntries(es) + EncodeEntry(e)
  {
    hide EncodeEntry;
    EncodeEntriesSplits(es, [e]);
    assert EncodeEntries([e]) == EncodeEntry(e) + EncodeEntries([]) == EncodeEntry(e);
  }

  lemma EntryParts(e: Entry)
    ensures var key, value := Clip(e.key), Clip(e.value.value);
            EncodeEntry(e) == (Encode(|key|, 4) + key + (Encode(|value|, 4) + value))
              + (Encode(e.value.expiry, 8) + Encode(e.value.accessCount, 8) + Encode(e.value.lastAccess, 8))
  {
    hide Encode;
    var key, value := Clip(e.key), Clip(e.value.value);
    var p := Encode(|key|, 4) + key + Encode(|value|, 4) + value;
    assert p == Encode(|key|, 4) + key + (Encode(|value|, 4) + value);
  }

  /** Writes the file front to back with a placeholder for the checksum, keeping the checksum of
      what it has `covered`, and goes back to fill the checksum in. */
  class Writer {
    var file: Bytes
    const crc: Crc
    ghost var covered: Bytes

    ghost predicate Valid()
      reads this, crc, crc.table
    {
      crc.Valid() && crc.crc == Serial(Start, covered)
    }

    constructor ()
      ensures Valid() && file == [] && covered == [] && fresh(crc)
    {
      crc := new Crc();
      file, covered := [], [];
      new;
      SerialNone(Start);
    }

    method Put(bs: Bytes)
      requires Valid()
      modifies this, crc`crc
      ensures Valid() && file == old(file) + bs && covered == old(covered) + bs
    {
      hide Serial, IsTable;
      SerialSplits(Start, covered, bs);
      file := file + bs;
      crc.Update(bs);
      covered := covered + bs;
    }

    /** A string: its length, then its bytes. */
    method PutString(str: Bytes)
      requires Valid()
      modifies this, crc`crc
      ensures Valid()
      ensures var bs := Encode(|str|, 4) + str; file == old(file) + bs && covered == old(covered) + bs
    {
      hide Encode, IsTable, Serial;
      Put(Encode(|str|, 4));
      Put(str);
    }

    method PutWords(a: U64, b: U64, c: U64)
      requires Valid()
      modifies this, crc`crc
      ensures Valid()
      ensures var bs := Encode(a, 8) + Encode(b, 8) + Encode(c, 8);
              file == old(file) + bs && covered == old(covered) + bs
    {
      hide Encode, IsTable, Serial;
      Put(Encode(a, 8));
      Put(Encode(b, 8));
      Put(Encode(c, 8));
    }

    method WriteEntry(e: Entry)
      requires Valid()
      modifies this, crc`crc
      ensures Valid() && file == old(file) + EncodeEntry(e) && covered == old(covered) + EncodeEntry(e)
    {
      EntryParts(e);
      hide Encode, IsTable, Serial, Clip, EncodeEntry;
      ghost var f, c := file, covered;
      ghost var p1 := Encode(|Clip(e.key)|, 4) + Clip(e.key);
      ghost var p2 := Encode(|Clip(e.value.value)|, 4) + Clip(e.value.value);
      PutString(Clip(e.key));
      PutString(Clip(e.value.value));
      assert file == f + (p1 + p2) && covered == c + (p1 + p2);
      PutWords(e.value.expiry, e.value.accessCount, e.value.lastAccess);
    }

    method Write(es: seq<Entry>)
      requires Valid() && file == []
      modifies this, crc`crc
      ensures Valid() && file == SnapshotBytes(es)
    {
      hide Encode, IsTable, Serial, EncodeEntry, EncodeEntries;
      crc.Reset();
      covered := [];
      SerialNone(Start);
      ghost var magic, count := Encode(Magic, 8), Encode(|es|, 8);
      Put(Encode(Magic, 8));
      file := file + Encode(0, 8);
      Put(Encode(|es|, 8));
      NoEntries();
      ghost var head := magic + Encode(0, 8);
      assert file == head + (count + EncodeEntries([]));
      for i := 0 to |es|
        invariant Valid()
        invariant file == head + (count + EncodeEntries(es[..i]))
        invariant covered == magic + (count + EncodeEntries(es[..i]))
      {
        WriteEntry(es[i]);
        OneMoreEntry(count, es[..i], es[i]);
        assert es[..i + 1] == es[..i] + [es[i]];
      }
      assert es[..|es|] == es;
      var sum := crc.crc as nat;
      file := file[..8] + Encode(sum, 8) + file[16..];
    }
  }

  lemma NoEntries()
    ensures EncodeEntries([]) == []
  {
  }

  lemma ParseOne(bs: Bytes, count: nat)
    requires count > 0
    ensures match ParseEntry(bs)
      case Short => ParseEntries(bs, count) == ParsedAll([], 0, false)
      case Got(entry, size) =>
        var rest := ParseEntries(bs[size..], count - 1);
        ParseEntries(bs, count) == ParsedAll([entry] + rest.entries, size + rest.size, rest.complete)
  {
    hide ParseEntry;
  }

  lemma ParseNone(bs: Bytes)
    ensures ParseEntries(bs, 0) == ParsedAll([], 0, true)
  {
  }

  /** Reads forward through the file, keeping the checksum of what it has `covered`. */
  class Reader {
    const file: Bytes
    var pos: nat
    const crc: Crc
    ghost var covered: Bytes

    ghost predicate Valid()
      reads this, crc, crc.table
    {
      pos <= |file| && crc.Valid() && crc.crc == Serial(Start, covered)
    }

    constructor (file: Bytes)
      ensures Valid() && this.file == file && pos == 0 && covered == [] && fresh(crc)
    {
      this.file, pos := file, 0;
      crc := new Crc();
      covered := [];
      new;
      SerialNone(Start);
    }

    method Take(n: nat) returns (ok: bool, bs: Bytes)
      requires Valid()
      modifies this`pos, this`covered, crc`crc
      ensures Valid() && ok == (old(pos) + n <= |file|)
      ensures ok ==> bs == file[old(pos)..old(pos) + n] && pos == old(pos) + n && covered == old(covered) + bs
    {
      hide Serial, IsTable;
      ok := pos + n <= |file|;
      bs := [];
      if ok {
        bs := file[pos..pos + n];
        pos := pos + n;
        SerialSplits(Start, covered, bs);
        crc.Update(bs);
        covered := covered + bs;
      } else {
        pos := |file|;
      }
    }

    method TakeString() returns (ok: bool, str: Bytes)
      requires Valid() && pos <= |file|
      modifies this`pos, this`covered, crc`crc
      ensures Valid() && pos <= |file|
      ensures var rest := file[old(pos)..];
              ok == (|rest| >= 4 && |rest| >= 4 + Decode(rest[..4]))
      ensures ok ==>
        var rest := file[old(pos)..];
        var n := Decode(rest[..4]);
        && str == rest[4..4 + n] && |str| == n && pos == old(pos) + 4 + n
        && covered == old(covered) + file[old(pos)..pos]
    {
      hide Serial, IsTable, Decode;
      ghost var rest := file[pos..];
      var field;
      ok, field := Take(4);
      str := [];
      if !ok {
        return;
      }
      assert field == rest[..4];
      ok, str := Take(Decode(field));
    }

    method TakeWords() returns (ok: bool, a: U64, b: U64, c: U64)
      requires Valid() && pos <= |file|
      modifies this`pos, this`covered, crc`crc
      ensures Valid() && pos <= |file| && ok == (|file| - old(pos) >= 24)
      ensures ok ==>
        var rest := file[old(pos)..];
        && pos == old(pos) + 24 && covered == old(covered) + file[old(pos)..pos]
        && a == Word(rest[..8]) && b == Word(rest[8..16]) && c == Word(rest[16..24])
    {
      hide Serial, IsTable, Word;
      ghost var rest := file[pos..];
      var x, y, z;
      a, b, c := 0, 0, 0;
      ok, x := Take(8);
      if !ok {
        return;
      }
      ok, y := Take(8);
      if !ok {
        return;
      }
      ok, z := Take(8);
      if !ok {
        return;
      }
      assert x == rest[..8] && y == rest[8..16] && z == rest[16..24];
      a, b, c := Word(x), Word(y), Word(z);
    }

    method ReadEntry() returns (ok: bool, e: Entry)
      requires Valid() && pos <= |file|
      modifies this`pos, this`covered, crc`crc
      ensures Valid() && pos <= |file|
      ensures match ParseEntry(file[old(pos)..])
              case Short => !ok
              case Got(entry, size) =>
                && ok && e == entry && pos == old(pos) + size
                && covered == old(covered) + file[old(pos)..old(pos) + size]
    {
      hide Valid, Decode, Word;
      ghost var start, rest := pos, file[pos..];
      e := Entry([], ValueEntry([], 0, 0, 0));
      var key, value, expiry, accessCount, lastAccess;
      ok, key := TakeString();
      if !ok {
        return;
      }
      ghost var k := |key|;
      assert file[pos..] == rest[4 + k..];
      assert |rest| >= 8 + k ==> rest[4 + k..][..4] == rest[4 + k..8 + k];
      ok, value := TakeString();
      if !ok {
        return;
      }
      ghost var m := 8 + k + |value|;
      assert value == rest[8 + k..m] && file[pos..] == rest[m..];
      assert covered == old(covered) + file[start..pos];
      ok, expiry, accessCount, lastAccess := TakeWords();
      if !ok {
        return;
      }
      assert rest[m..][..8] == rest[m..m + 8];
      SuffixSlice(rest, m, 8, 16);
      SuffixSlice(rest, m, 16, 24);
      assert covered == old(covered) + file[start..pos];
      e := Entry(key, ValueEntry(value, accessCount, lastAccess, expiry));
    }

    method ReadEntries(count: nat) returns (complete: bool, inserted: seq<Entry>)
      requires Valid() && pos <= |file|
      modifies this`pos, this`covered, crc`crc
      ensures Valid() && pos <= |file|
      ensures var p := ParseEntries(file[old(pos)..], count);
              && complete == p.complete && inserted == p.entries
              && (complete ==> pos == old(pos) + p.size && covered == old(covered) + file[old(pos)..pos])
    {
      hide Valid, ParseEntry, ParseEntries;
      inserted := [];
      ghost var all, first := ParseEntries(file[pos..], count), pos;
      for i := 0 to count
        invariant Valid() && first <= pos <= |file|
        invariant covered == old(covered) + file[first..pos]
        invariant var rest := ParseEntries(file[pos..], count - i);
                  all == ParsedAll(inserted + rest.entries, pos - first + rest.size, rest.complete)
      {
        ghost var start := pos;
        ParseOne(file[pos..], count - i);
        var ok, e := ReadEntry();
        if !ok {
          return false, inserted;
        }
        assert file[start..][pos - start..] == file[pos..];
        assert file[first..pos] == file[first..start] + file[start..pos];
        inserted := inserted + [e];
      }
      ParseNone(file[pos..]);
      complete := true;
    }

    /** Loading: the entries inserted on the way and the verdict. */
    method LoadAll() returns (ok: bool, inserted: seq<Entry>)
      requires Valid() && pos == 0 && covered == []
      modifies this`pos, this`covered, crc`crc
      ensures LoadResult(ok, inserted) == Load(file)
    {
      hide Serial, IsTable, Decode, ParseEntries;
      ok, inserted := false, [];
      if |file| < 24 {
        return;
      }
      var magic, countField;
      ok, magic := Take(8);
      if Decode(magic) != Magic {
        return false, [];
      }
      var stored := Decode(file[8..16]);
      pos := 16;
      ok, countField := Take(8);
      assert covered == file[..8] + file[16..24];
      ok, inserted := ReadEntries(Decode(countField));
      if ok {
        assert covered == file[..8] + (file[16..24] + file[24..pos]);
        assert file[16..24] + file[24..pos] == file[16..pos];
        ok := crc.crc as nat == stored;
      }
    }
  }
}
