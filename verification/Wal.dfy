/** The write-ahead log: its record format, what a reader makes of a log cut off anywhere, and the
    batching writer. */
module Wal {
  import opened Crc64
  import opened Codec

  const OpSet: Byte := 1
  const OpDelete: Byte := 2
  const OpExpire: Byte := 3

  /** `ttl` is the eight raw bytes of the time-to-live field, read as an unsigned number. */
  datatype Record = Record(op: Byte, key: Bytes, value: Bytes, ttl: U64)

  function Clipped(r: Record): Record {
    r.(key := Clip(r.key), value := Clip(r.value))
  }

  function ClippedAll(rs: seq<Record>): (cs: seq<Record>)
    ensures |cs| == |rs|
  {
    seq(|rs|, i requires 0 <= i < |rs| => Clipped(rs[i]))
  }

  function EncodeRecord(r: Record): (bs: Bytes)
    ensures |bs| == 17 + |Clip(r.key)| + |Clip(r.value)|
  {
    var key, value := Clip(r.key), Clip(r.value);
    [r.op] + Encode(|key|, 4) + key + Encode(|value|, 4) + value + Encode(r.ttl, 8)
  }

  function EncodeAll(rs: seq<Record>): Bytes {
    if rs == [] then [] else EncodeRecord(rs[0]) + EncodeAll(rs[1..])
  }

  datatype Parsed = Stop | Got(record: Record, size: nat)

  /** Reads one record off the front; a field that is cut short stops the reader. */
  function ParseRecord(bs: Bytes): (p: Parsed)
    ensures p.Got? ==> 17 <= p.size <= |bs|
  {
    if |bs| < 5 then Stop
    else
      var keyLen := Decode(bs[1..5]);
      if |bs| < 9 + keyLen then Stop
      else
        var valueLen := Decode(bs[5 + keyLen..9 + keyLen]);
        if |bs| < 17 + keyLen + valueLen then Stop
        else
          var ttl := bs[9 + keyLen + valueLen..17 + keyLen + valueLen];
          Got(Record(bs[0], bs[5..5 + keyLen], bs[9 + keyLen..9 + keyLen + valueLen], Ttl(ttl)),
              17 + keyLen + valueLen)
  }

  function Ttl(bs: Bytes): U64
    requires |bs| == 8
  {
    DecodeFits(bs);
    Pow256Values();
    Decode(bs)
  }

  function ReadAll(bs: Bytes): seq<Record>
    decreases |bs|
  {
    match ParseRecord(bs)
    case Stop => []
    case Got(record, size) => [record] + ReadAll(bs[size..])
  }

  lemma ReadOne(file: Bytes, pos: nat)
    requires pos <= |file|
    ensures match ParseRecord(file[pos..])
            case Stop => ReadAll(file[pos..]) == []
            case Got(record, size) =>
              pos + size <= |file| && size > 0 && ReadAll(file[pos..]) == [record] + ReadAll(file[pos + size..])
  {
    hide ParseRecord;
    assert forall size: nat :: pos + size <= |file| ==> file[pos..][size..] == file[pos + size..];
  }

  /** How many records of `rs` lie wholly within the first `n` bytes of their encoding. */
  function Whole(rs: seq<Record>, n: nat): (w: nat)
    ensures w <= |rs|
    decreases |rs|
  {
    if rs == [] || n < |EncodeRecord(rs[0])| then 0 else 1 + Whole(rs[1..], n - |EncodeRecord(rs[0])|)
  }

  lemma {:induction false} EncodeAllSplits(a: seq<Record>, b: seq<Record>)
    ensures EncodeAll(a + b) == EncodeAll(a) + EncodeAll(b)
    decreases |a|
  {
    hide EncodeRecord;
    if a == [] {
      assert a + b == b;
    } else {
      assert (a + b)[1..] == a[1..] + b;
      EncodeAllSplits(a[1..], b);
    }
  }

  /** ... that is, the most records whose encoding fits into `n` bytes. */
  lemma {:induction false} WholeIsMost(rs: seq<Record>, n: nat)
    ensures |EncodeAll(rs[..Whole(rs, n)])| <= n
    ensures Whole(rs, n) < |rs| ==> n < |EncodeAll(rs[..Whole(rs, n) + 1])|
    decreases |rs|
  {
    hide EncodeRecord;
    if rs != [] {
      var size := |EncodeRecord(rs[0])|;
      assert rs[..1][1..] == [];
      if n >= size {
        var w := Whole(rs[1..], n - size);
        WholeIsMost(rs[1..], n - size);
        assert rs[..w + 1][1..] == rs[1..][..w];
        if w + 1 < |rs| {
          assert rs[..w + 2][1..] == rs[1..][..w + 1];
        }
      }
    }
  }

  /** The layout of a record followed by anything. */
  lemma RecordLayout(r: Record, tail: Bytes)
    ensures var bs := EncodeRecord(r) + tail;
            var k, v := |Clip(r.key)|, |Clip(r.value)|;
            && bs[0] == r.op && bs[1..5] == Encode(k, 4) && bs[5..5 + k] == Clip(r.key)
            && bs[5 + k..9 + k] == Encode(v, 4) && bs[9 + k..9 + k + v] == Clip(r.value)
            && bs[9 + k + v..17 + k + v] == Encode(r.ttl, 8)
  {
    hide Encode;
    var key, value := Clip(r.key), Clip(r.value);
    var a, b, c := Encode(|key|, 4), Encode(|value|, 4), Encode(r.ttl, 8);
    var p1 := [r.op];
    var p2 := p1 + a;
    var p3 := p2 + key;
    var p4 := p3 + b;
    var p5 := p4 + value;
    var p6 := p5 + c;
    var bs := p6 + tail;
    assert bs == EncodeRecord(r) + tail;
    FieldAt(p5, c, bs);
    FieldAt(p4, value, bs);
    FieldAt(p3, b, bs);
    FieldAt(p2, key, bs);
    FieldAt(p1, a, bs);
  }

  /** Reading a record back gives the record that was written, with each string cut to its
      32-bit length; a record cut off anywhere is not read at all. */
  lemma ParseEncoded(r: Record, tail: Bytes, n: nat)
    requires n <= |EncodeRecord(r) + tail|
    ensures ParseRecord((EncodeRecord(r) + tail)[..n])
         == if n < |EncodeRecord(r)| then Stop else Got(Clipped(r), |EncodeRecord(r)|)
  {
    hide Encode, Decode, EncodeRecord, Clip;
    var full := EncodeRecord(r) + tail;
    var bs := full[..n];
    var k, v := |Clip(r.key)|, |Clip(r.value)|;
    RecordLayout(r, tail);
    RoundTrip32(k);
    RoundTrip32(v);
    RoundTrip64(r.ttl);
    if n >= 5 {
      PrefixSlice(full, n, 1, 5);
      if n >= 9 + k {
        PrefixSlice(full, n, 5 + k, 9 + k);
        if n >= 17 + k + v {
          PrefixSlice(full, n, 5, 5 + k);
          PrefixSlice(full, n, 9 + k, 9 + k + v);
          PrefixSlice(full, n, 9 + k + v, 17 + k + v);
        }
      }
    }
  }

  /** Torn writes: from any prefix of a log the reader recovers exactly the records that lie
      wholly inside it, in order, and then stops. */
  lemma {:induction false} TornLog(rs: seq<Record>, n: nat)
    requires n <= |EncodeAll(rs)|
    ensures ReadAll(EncodeAll(rs)[..n]) == ClippedAll(rs[..Whole(rs, n)])
    decreases |rs|
  {
    hide EncodeRecord, ParseRecord, Clip;
    if rs == [] {
      assert EncodeAll(rs)[..n] == [];
      NothingToParse();
    } else {
      var size, tail := |EncodeRecord(rs[0])|, EncodeAll(rs[1..]);
      var bs := EncodeAll(rs)[..n];
      ParseEncoded(rs[0], tail, n);
      if n >= size {
        assert bs[size..] == tail[..n - size];
        TornLog(rs[1..], n - size);
        var w := Whole(rs[1..], n - size);
        assert rs[..w + 1] == [rs[0]] + rs[1..][..w];
        assert ClippedAll(rs[..w + 1]) == [Clipped(rs[0])] + ClippedAll(rs[1..][..w]);
      }
    }
  }

  lemma NothingToParse()
    ensures ParseRecord([]) == Stop
  {
  }

  lemma {:induction false} WholeOfAll(rs: seq<Record>)
    ensures Whole(rs, |EncodeAll(rs)|) == |rs|
    decreases |rs|
  {
    hide EncodeRecord;
    if rs != [] {
      WholeOfAll(rs[1..]);
    }
  }

  ghost predicate Fits(rs: seq<Record>) {
    forall i :: 0 <= i < |rs| ==> |rs[i].key| < TwoTo32 && |rs[i].value| < TwoTo32
  }

  /** A complete log reads back unchanged exactly when every key and value is shorter than 2^32 bytes. */
  lemma LogRoundTrip(rs: seq<Record>)
    ensures ReadAll(EncodeAll(rs)) == rs <==> Fits(rs)
  {
    hide EncodeRecord, ReadAll;
    var n := |EncodeAll(rs)|;
    assert EncodeAll(rs)[..n] == EncodeAll(rs);
    TornLog(rs, n);
    var w := Whole(rs, n);
    WholeOfAll(rs);
    assert rs[..w] == rs;
    forall i | 0 <= i < |rs| ensures Clipped(rs[i]) == rs[i] <==> |rs[i].key| < TwoTo32 && |rs[i].value| < TwoTo32 {
      ClipIsExact(rs[i].key);
      ClipIsExact(rs[i].value);
    }
    if Fits(rs) {
      assert ClippedAll(rs) == rs;
    } else {
      var i :| 0 <= i < |rs| && !(|rs[i].key| < TwoTo32 && |rs[i].value| < TwoTo32);
      assert ClippedAll(rs)[i] != rs[i];
    }
  }

  // ----- Any bytes at all

  /** Whatever the bytes are, a record read off them is the one they encode. */
  lemma ParseInverts(bs: Bytes)
    ensures ParseRecord(bs).Got? ==> EncodeRecord(ParseRecord(bs).record) == bs[..ParseRecord(bs).size]
  {
    hide Encode, Decode;
    var p := ParseRecord(bs);
    if p.Got? {
      var k := Decode(bs[1..5]);
      var v := Decode(bs[5 + k..9 + k]);
      var m := 9 + k + v;
      LengthFits(bs[1..5]);
      LengthFits(bs[5 + k..9 + k]);
      EncodeDecode(bs[1..5]);
      EncodeDecode(bs[5 + k..9 + k]);
      EncodeDecode(bs[m..m + 8]);
      ClipIsExact(p.record.key);
      ClipIsExact(p.record.value);
      assert bs[..m + 8] == [bs[0]] + bs[1..5] + bs[5..5 + k] + bs[5 + k..9 + k] + bs[9 + k..m] + bs[m..m + 8];
    }
  }

  /** For every file the reader gives records that the file begins with, and stops where what follows is
      no whole record. */
  lemma {:induction false} ReadsPrefix(bs: Bytes)
    ensures var read := EncodeAll(ReadAll(bs)); read <= bs && ParseRecord(bs[|read|..]).Stop?
    decreases |bs|
  {
    hide EncodeRecord, ParseRecord;
    match ParseRecord(bs)
    case Stop =>
      assert bs[0..] == bs;
    case Got(r, size) =>
      ParseInverts(bs);
      ReadsPrefix(bs[size..]);
      var rest := EncodeAll(ReadAll(bs[size..]));
      assert ReadAll(bs)[0] == r && ReadAll(bs)[1..] == ReadAll(bs[size..]);
      assert EncodeAll(ReadAll(bs)) == bs[..size] + rest;
      assert bs == bs[..size] + bs[size..];
      assert bs[size..][|rest|..] == bs[size + |rest|..];
  }

  // ----- The writer

  /** A log as far as its future depends on it: the file, the records still to be written and the
      number of them at which they are. */
  datatype LogState = LogState(file: Bytes, pending: seq<Record>, batch: nat)

  /** One more record. */
  function Logged(s: LogState, r: Record): LogState {
    var pending := s.pending + [r];
    if |pending| >= s.batch then LogState(s.file + EncodeAll(pending), [], s.batch)
    else LogState(s.file, pending, s.batch)
  }

  /** Everything written out. */
  function Drained(s: LogState): LogState {
    LogState(s.file + EncodeAll(s.pending), [], s.batch)
  }

  function LoggedAll(s: LogState, rs: seq<Record>): LogState {
    if rs == [] then s else Logged(LoggedAll(s, rs[..|rs| - 1]), rs[|rs| - 1])
  }

  lemma {:induction false} LoggedAllSplits(s: LogState, a: seq<Record>, b: seq<Record>)
    ensures LoggedAll(s, a + b) == LoggedAll(LoggedAll(s, a), b)
    decreases |b|
  {
    hide Logged;
    if b == [] {
      assert a + b == a;
    } else {
      var n := |b| - 1;
      assert (a + b)[..|a + b| - 1] == a + b[..n];
      LoggedAllSplits(s, a, b[..n]);
    }
  }

  lemma LoggedOne(s: LogState, rs: seq<Record>, r: Record)
    ensures LoggedAll(s, rs + [r]) == Logged(LoggedAll(s, rs), r)
  {
    hide Logged;
    assert (rs + [r])[..|rs|] == rs;
  }

  /** The log at some moment and how many records had been given to it by then. */
  datatype Mark = Mark(state: LogState, at: nat)

  lemma LoggedNone(s: LogState)
    ensures LoggedAll(s, []) == s
  {
  }

  /** The batch size of a log that is opened without naming one. */
  const DefaultBatch: nat := 100

  /** The batching writer. `appended` is everything ever given to it: first what truncations have
      `dropped`, then the `durable` records in the file, then those in the buffer. The file held `base`
      when it was opened or truncated. Since the `mark` there were only appends. */
  class Writer {
    var file: Bytes
    var buffer: seq<Record>
    var batchSize: nat
    var fileSize: nat
    ghost var base: Bytes
    ghost var dropped: seq<Record>
    ghost var durable: seq<Record>
    ghost var appended: seq<Record>
    ghost var uncounted: nat
    ghost var mark: Mark

    ghost function State(): LogState
      reads this`file, this`buffer, this`batchSize
    {
      LogState(file, buffer, batchSize)
    }

    ghost predicate Written()
      reads this
    {
      && file == base + EncodeAll(durable)
      && appended == dropped + durable + buffer
      && fileSize + uncounted == |file|
    }

    ghost predicate Valid()
      reads this
    {
      && Written()
      && (buffer == [] || |buffer| < batchSize)
      && mark.at <= |appended| && State() == LoggedAll(mark.state, appended[mark.at..])
    }

    constructor (existing: Bytes, batchSize: nat)
      ensures Valid() && base == existing && file == existing && buffer == [] && appended == []
      ensures this.batchSize == batchSize && uncounted == 0
    {
      file, fileSize, buffer := existing, |existing|, [];
      this.batchSize := batchSize;
      base, dropped, durable, appended, uncounted := existing, [], [], [], 0;
      mark := Mark(LogState(existing, [], batchSize), 0);
    }

    /** Records become durable in the order they were appended, whatever the batch size. */
    method Append(r: Record)
      requires Valid()
      modifies this
      ensures Valid() && appended == old(appended) + [r] && State() == Logged(old(State()), r)
      ensures mark == old(mark) && dropped == old(dropped)
      ensures old(durable) <= durable
      ensures dropped + durable == if |old(buffer)| + 1 >= batchSize then appended else old(dropped + durable)
    {
      hide EncodeAll, EncodeRecord, LoggedAll;
      LoggedOne(mark.state, appended[mark.at..], r);
      assert (appended + [r])[mark.at..] == appended[mark.at..] + [r];
      buffer := buffer + [r];
      appended := appended + [r];
      if |buffer| >= batchSize {
        WriteOut();
      }
    }

    method Flush()
      requires Valid()
      modifies this
      ensures Valid() && appended == old(appended) && dropped + durable == appended && buffer == []
      ensures State() == Drained(old(State()))
      ensures dropped == old(dropped) && old(durable) <= durable
    {
      hide EncodeAll, EncodeRecord;
      if buffer == [] {
        NothingEncoded();
      } else {
        WriteOut();
      }
      SetMark();
    }

    /** Opening the log again, with another batch size. The size of the file is taken before the old
        writer is closed, so what that still flushes is not counted. */
    method Reopen(batchSize: nat)
      requires Valid()
      modifies this
      ensures Valid() && appended == old(appended) && dropped + durable == appended && buffer == []
      ensures State() == Drained(old(State())).(batch := batchSize)
      ensures dropped == old(dropped) && old(durable) <= durable
      ensures fileSize == |old(file)|
    {
      hide EncodeAll, EncodeRecord, LoggedAll;
      var size := |file|;
      Flush();
      this.batchSize := batchSize;
      fileSize, uncounted := size, |file| - size;
      SetMark();
    }

    /** Closing the writer, emptying the file and opening it again without naming a batch size. */
    method Truncate()
      requires Valid()
      modifies this
      ensures Valid() && appended == dropped == old(appended) && State() == LogState([], [], DefaultBatch)
      ensures fileSize == 0
    {
      hide EncodeRecord, LoggedAll;
      Flush();
      file, fileSize, uncounted, batchSize := [], 0, 0, DefaultBatch;
      base, dropped, durable := [], appended, [];
      SetMark();
    }

    ghost method SetMark()
      requires Written() && buffer == []
      modifies this`mark
      ensures Valid()
    {
      mark := Mark(State(), |appended|);
      LoggedNone(mark.state);
      assert appended[mark.at..] == [];
    }

    method WriteOut()
      requires Written()
      modifies this`file, this`buffer, this`fileSize, this`durable
      ensures Written() && dropped + durable == appended && old(durable) <= durable && buffer == []
      ensures file == old(file) + EncodeAll(old(buffer))
    {
      hide EncodeAll, EncodeRecord;
      ghost var start := durable;
      for i := 0 to |buffer|
        invariant buffer == old(buffer) && durable == start + buffer[..i]
        invariant file == base + EncodeAll(durable) && fileSize + uncounted == |file|
      {
        WriteRecord(buffer[i]);
        assert buffer[..i + 1] == buffer[..i] + [buffer[i]];
      }
      assert buffer[..|buffer|] == buffer;
      EncodeAllSplits(start, buffer);
      assert appended == dropped + durable;
      buffer := [];
    }

    method WriteRecord(r: Record)
      requires file == base + EncodeAll(durable) && fileSize + uncounted == |file|
      modifies this`file, this`fileSize, this`durable
      ensures durable == old(durable) + [r]
      ensures file == base + EncodeAll(durable) && fileSize + uncounted == |file|
    {
      hide EncodeRecord, EncodeAll, Clip;
      var out := FieldsOf(r);
      OneMore(base, durable, r);
      file := file + out;
      fileSize := fileSize + (1 + 4 + |Clip(r.key)| + 4 + |Clip(r.value)| + 8);
      durable := durable + [r];
    }

    /** The bytes of a record, field by field. */
    static method FieldsOf(r: Record) returns (out: Bytes)
      ensures out == EncodeRecord(r)
    {
      hide Encode;
      var key, value := Clip(r.key), Clip(r.value);
      out := [r.op];
      out := out + Encode(|key|, 4);
      out := out + key;
      out := out + Encode(|value|, 4);
      if |value| > 0 {
        out := out + value;
      } else {
        assert out + value == out;
      }
      out := out + Encode(r.ttl, 8);
    }
  }

  lemma NothingEncoded()
    ensures EncodeAll([]) == []
  {
  }

  lemma OneMore(base: Bytes, rs: seq<Record>, r: Record)
    ensures base + EncodeAll(rs + [r]) == base + EncodeAll(rs) + EncodeRecord(r)
  {
    hide EncodeRecord;
    EncodeAllSplits(rs, [r]);
    assert EncodeAll([r]) == EncodeRecord(r) + EncodeAll([]) == EncodeRecord(r);
  }

  lemma SuffixSlices(bs: Bytes, n: nat)
    requires n <= |bs|
    ensures |bs| >= n + 4 ==> bs[n..][..4] == bs[n..n + 4]
  {
  }

  /** The reader: a stream position that only moves forward. */
  class Reader {
    const file: Bytes
    var pos: nat
    var good: bool
    var recordsRead: nat

    ghost predicate Valid()
      reads this`pos, this`good
    {
      pos <= |file| && (!good ==> pos == |file|)
    }

    constructor (file: Bytes)
      ensures Valid() && this.file == file && pos == 0 && good && recordsRead == 0
    {
      this.file, pos, good, recordsRead := file, 0, true, 0;
    }

    /** Reads `n` bytes, or what is left and fails. */
    method Take(n: nat) returns (ok: bool, bs: Bytes)
      requires Valid()
      modifies this`pos, this`good
      ensures Valid() && pos <= |file| && ok == (old(pos) + n <= |file|)
      ensures ok ==> bs == file[old(pos)..old(pos) + n] && pos == old(pos) + n && good == old(good)
      ensures !ok ==> !good
    {
      ok := pos + n <= |file|;
      if ok {
        bs := file[pos..pos + n];
        pos := pos + n;
      } else {
        bs := file[pos..];
        pos, good := |file|, false;
      }
    }

    /** Reads a length and that many bytes. */
    method TakeString() returns (ok: bool, str: Bytes)
      requires Valid() && pos <= |file|
      modifies this`pos, this`good
      ensures Valid() && pos <= |file| && (ok ==> good == old(good)) && (!ok ==> !good)
      ensures var rest := file[old(pos)..];
              ok == (|rest| >= 4 && |rest| >= 4 + Decode(rest[..4]))
      ensures ok ==>
        var rest := file[old(pos)..];
        var n := Decode(rest[..4]);
        str == rest[4..4 + n] && |str| == n && pos == old(pos) + 4 + n
    {
      hide Decode;
      ghost var rest := file[pos..];
      var field;
      ok, field := Take(4);
      str := [];
      if !ok {
        return;
      }
      assert field == rest[..4];
      ok, str := Take(Decode(field));
    }

    method ReadNext() returns (got: bool, r: Record)
      requires Valid() && pos <= |file|
      modifies this
      ensures Valid() && pos <= |file|
      ensures old(good) ==> match ParseRecord(file[old(pos)..])
                            case Stop => !got && !good
                            case Got(record, size) => got && r == record && pos == old(pos) + size && good
      ensures !old(good) ==> !got && !good
      ensures recordsRead == old(recordsRead) + if got then 1 else 0
    {
      hide Decode, Ttl, Valid;
      got, r := false, Record(OpSet, [], [], 0);
      if !good {
        return;
      }
      ghost var start := pos;
      ghost var rest := file[pos..];
      var ok, op := Take(1);
      if !ok {
        return;
      }
      assert op[0] == rest[0] && file[pos..] == rest[1..];
      var key, value, ttl;
      ok, key := TakeString();
      SuffixSlices(rest, 1);
      if !ok {
        return;
      }
      ghost var k := |key|;
      assert key == rest[5..5 + k] && file[pos..] == rest[5 + k..];
      ok, value := TakeString();
      SuffixSlices(rest, 5 + k);
      if !ok {
        return;
      }
      ghost var m := 9 + k + |value|;
      assert value == rest[9 + k..m] && file[pos..] == rest[m..];
      ghost var last := pos;
      ok, ttl := Take(8);
      if !ok {
        return;
      }
      SuffixSlice(file, last, 0, 8);
      SuffixSlice(rest, m, 0, 8);
      got, r := true, Record(op[0], key, value, Ttl(ttl));
      recordsRead := recordsRead + 1;
    }
  }
}
