/** Little-endian integers, as the storage files hold them. */
module Codec {
  import opened Crc64

  type Bytes = seq<Byte>

  const TwoTo32: nat := 0x1_0000_0000
  const TwoTo64: nat := 0x1_0000_0000_0000_0000

  type U64 = n: nat | n < TwoTo64

  function Nibble(n: nat): Byte
    requires n < 16
  {
    n as Byte
  }

  /** The byte with value `n`, put together from its two halves. */
  function ToByte(n: nat): Byte
    requires n < 256
  {
    (Nibble(n / 16) << 4) + Nibble(n % 16)
  }

  function FromByte(b: Byte): (n: nat)
    ensures n < 256
  {
    b as nat
  }

  lemma NibbleValue(n: nat)
    requires n < 16
    ensures FromByte(Nibble(n)) == n && Nibble(n) < 16
  {
  }

  lemma JoinNibbles(high: Byte, low: Byte)
    requires high < 16 && low < 16
    ensures FromByte((high << 4) + low) == 16 * FromByte(high) + FromByte(low)
  {
  }

  lemma ByteRoundTrip(n: nat)
    requires n < 256
    ensures FromByte(ToByte(n)) == n
  {
    hide FromByte, Nibble;
    NibbleValue(n / 16);
    NibbleValue(n % 16);
    JoinNibbles(Nibble(n / 16), Nibble(n % 16));
  }

  lemma FromByteIsInjective(b: Byte, c: Byte)
    requires FromByte(b) == FromByte(c)
    ensures b == c
  {
    assert (b as nat) as Byte == b && (c as nat) as Byte == c;
  }

  function Encode(n: nat, width: nat): (bs: Bytes)
    ensures |bs| == width
    decreases width
  {
    if width == 0 then [] else [ToByte(n % 256)] + Encode(n / 256, width - 1)
  }

  function Decode(bs: Bytes): nat {
    if bs == [] then 0 else FromByte(bs[0]) + 256 * Decode(bs[1..])
  }

  function Pow256(width: nat): nat {
    if width == 0 then 1 else 256 * Pow256(width - 1)
  }

  lemma {:induction false} DecodeEncode(n: nat, width: nat)
    requires n < Pow256(width)
    ensures Decode(Encode(n, width)) == n
    decreases width
  {
    hide ToByte, FromByte;
    if width > 0 {
      var bs := Encode(n, width);
      ByteRoundTrip(n % 256);
      assert bs[1..] == Encode(n / 256, width - 1);
      DecodeEncode(n / 256, width - 1);
    }
  }

  lemma {:induction false} DecodeIsInjective(a: Bytes, b: Bytes)
    requires |a| == |b| && Decode(a) == Decode(b)
    ensures a == b
    decreases |a|
  {
    hide ToByte, FromByte;
    if a != [] {
      FromByteIsInjective(a[0], b[0]);
      DecodeIsInjective(a[1..], b[1..]);
      assert a == [a[0]] + a[1..] && b == [b[0]] + b[1..];
    }
  }

  lemma Pow256Values()
    ensures Pow256(4) == TwoTo32 && Pow256(8) == TwoTo64
  {
    assert Pow256(2) == 0x10000;
    assert Pow256(4) == 256 * (256 * Pow256(2));
    assert Pow256(6) == 256 * (256 * Pow256(4));
  }

  lemma RoundTrip32(n: nat)
    requires n < TwoTo32
    ensures Decode(Encode(n, 4)) == n
  {
    hide Encode, Decode, Pow256;
    Pow256Values();
    DecodeEncode(n, 4);
  }

  lemma RoundTrip64(n: nat)
    requires n < TwoTo64
    ensures Decode(Encode(n, 8)) == n
  {
    hide Encode, Decode, Pow256;
    Pow256Values();
    DecodeEncode(n, 8);
  }

  lemma {:induction false} DecodeFits(bs: Bytes)
    ensures Decode(bs) < Pow256(|bs|)
    decreases |bs|
  {
    hide FromByte;
    if bs != [] {
      DecodeFits(bs[1..]);
    }
  }

  lemma LengthFits(bs: Bytes)
    requires |bs| == 4
    ensures Decode(bs) < TwoTo32
  {
    hide Decode, Pow256;
    DecodeFits(bs);
    Pow256Values();
  }

  lemma EncodeDecode(bs: Bytes)
    ensures Encode(Decode(bs), |bs|) == bs
  {
    hide Encode, Decode, Pow256;
    DecodeFits(bs);
    DecodeEncode(Decode(bs), |bs|);
    DecodeIsInjective(Encode(Decode(bs), |bs|), bs);
  }

  lemma DivideTwice(n: nat, p: nat)
    requires p > 0
    ensures n / 256 / p == n / (256 * p)
  {
    var q, r := n / (256 * p), n % (256 * p);
    assert n == 256 * (p * q) + r;
    assert n / 256 == p * q + r / 256;
    assert r / 256 < p;
    Quotient(n / 256, p, q, r / 256);
  }

  lemma Quotient(n: nat, p: nat, q: nat, r: nat)
    requires n == p * q + r && r < p
    ensures n / p == q
  {
    var d := n / p - q;
    assert p * d + n % p == r;
    assert d >= 1 ==> p * d >= p;
    assert d <= -1 ==> p * d + p <= 0;
  }

  lemma Pow256IsPositive(width: nat)
    ensures Pow256(width) > 0
  {
  }

  /** The lowest byte comes first: byte `i` is digit `i` of the number in base 256. */
  lemma {:induction false} LowestFirst(n: nat, width: nat, i: nat)
    requires i < width
    ensures Pow256(i) > 0 && FromByte(Encode(n, width)[i]) == n / Pow256(i) % 256
    decreases width
  {
    hide ToByte, FromByte;
    Pow256IsPositive(i);
    if i == 0 {
      ByteRoundTrip(n % 256);
      assert n / Pow256(0) == n;
    } else {
      LowestFirst(n / 256, width - 1, i - 1);
      DivideTwice(n, Pow256(i - 1));
    }
  }

  /** A string's length is written in 32 bits and that many of its bytes follow. */
  function Clip(s: Bytes): (r: Bytes)
    ensures |r| < TwoTo32
  {
    s[..|s| % TwoTo32]
  }

  lemma ClipIsExact(s: Bytes)
    ensures Clip(s) == s <==> |s| < TwoTo32
  {
  }

  lemma FieldAt(before: Bytes, field: Bytes, bs: Bytes)
    requires before + field <= bs
    ensures bs[|before|..|before| + |field|] == field && before <= bs
  {
    assert forall i :: 0 <= i < |before + field| ==> bs[i] == (before + field)[i];
  }

  /** A slice of a prefix, and a slice of what follows. */
  lemma PrefixSlice(bs: Bytes, n: nat, i: nat, j: nat)
    requires i <= j <= n <= |bs|
    ensures bs[..n][i..j] == bs[i..j]
  {
  }

  lemma SuffixSlice(bs: Bytes, n: nat, i: nat, j: nat)
    requires i <= j <= |bs| - n
    ensures bs[n..][i..j] == bs[n + i..n + j]
  {
  }
}
