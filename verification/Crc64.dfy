/** The checksum of snapshots: a table-driven 64-bit register, the bit-serial register it
    computes, and exactly which short corruptions it cannot see. */
module Crc64 {

  type Byte = bv8

  const Poly: bv64 := 0x42F0E1EBA9EA3693
  const Start: bv64 := 0xFFFFFFFFFFFFFFFF
  const TopBit: bv64 := 0x8000000000000000

  /** The only nonzero register value that a step sends to zero: the top bit of the polynomial
      is clear, so a step is not injective. */
  const Blind: bv64 := 0x85E1C3D753D46D27

  function Xor(x: bv64, y: bv64): bv64 {
    x ^ y
  }

  function XorByte(x: Byte, y: Byte): Byte {
    x ^ y
  }

  function Wide(b: Byte): bv64 {
    b as bv64
  }

  function Half(c: bv64): bv64 {
    c >> 1
  }

  /** One bit-serial step. */
  function Step(c: bv64): bv64 {
    if c & 1 == 1 then (c >> 1) ^ Poly else c >> 1
  }

  function Step8(c: bv64): bv64 {
    Step(Step(Step(Step(Step(Step(Step(Step(c))))))))
  }

  /** The register after a stream of bytes, bit by bit. */
  function Serial(c: bv64, data: seq<Byte>): bv64
    decreases |data|
  {
    if data == [] then c else Serial(Step8(Xor(c, Wide(data[0]))), data[1..])
  }

  // ----- Exclusive or

  lemma XorBits(x: bv64, y: bv64)
    ensures Xor(x, y) == x ^ y
  {
  }

  lemma AssociateBits(a: bv64, b: bv64, c: bv64, ab: bv64, bc: bv64)
    requires ab == a ^ b && bc == b ^ c
    ensures ab ^ c == a ^ bc
  {
  }

  lemma XorAssociates(a: bv64, b: bv64, c: bv64)
    ensures Xor(Xor(a, b), c) == Xor(a, Xor(b, c))
  {
    XorBits(a, b);
    XorBits(b, c);
    XorBits(Xor(a, b), c);
    XorBits(a, Xor(b, c));
    hide Xor;
    AssociateBits(a, b, c, Xor(a, b), Xor(b, c));
  }

  lemma XorCommutes(a: bv64, b: bv64)
    ensures Xor(a, b) == Xor(b, a)
  {
  }

  lemma XorUnits(a: bv64)
    ensures Xor(0, a) == a && Xor(a, 0) == a && Xor(a, a) == 0
  {
  }

  lemma XorRegroups(a: bv64, b: bv64, c: bv64, d: bv64)
    ensures Xor(Xor(a, b), Xor(c, d)) == Xor(Xor(a, c), Xor(b, d))
  {
    hide Xor;
    XorAssociates(a, b, Xor(c, d));
    XorAssociates(b, c, d);
    XorCommutes(b, c);
    XorAssociates(c, b, d);
    XorAssociates(a, c, Xor(b, d));
  }

  lemma XorZero(a: bv64, b: bv64)
    ensures Xor(a, b) == 0 <==> a == b
    ensures Xor(0, a) == a && Xor(a, 0) == a
  {
    hide Xor;
    XorUnits(a);
    XorUnits(b);
    XorAssociates(a, b, b);
  }

  lemma XorOfBytes(a: Byte, b: Byte)
    ensures Wide(XorByte(a, b)) == Xor(Wide(a), Wide(b))
    ensures XorByte(a, b) == 0 <==> a == b
    ensures XorByte(XorByte(a, b), a) == b
  {
  }

  // ----- The table

  function Mask(c: bv64): bv64 {
    if c & 1 == 1 then Poly else 0
  }

  lemma StepIsShiftAndMask(c: bv64)
    ensures Step(c) == Xor(Half(c), Mask(c))
  {
    XorUnits(Half(c));
    XorBits(Half(c), Poly);
    hide Xor;
  }

  lemma ShiftBits(x: bv64, y: bv64, xy: bv64, a: bv64, b: bv64)
    requires xy == x ^ y && a == x >> 1 && b == y >> 1
    ensures xy >> 1 == a ^ b
  {
  }

  lemma HalfBits(x: bv64)
    ensures Half(x) == x >> 1
  {
  }

  lemma HalfOfXor(x: bv64, y: bv64)
    ensures Half(Xor(x, y)) == Xor(Half(x), Half(y))
  {
    hide Xor, Half;
    ShiftBits(x, y, Xor(x, y), Half(x), Half(y)) by {
      XorBits(x, y);
      HalfBits(x);
      HalfBits(y);
    }
    XorBits(Half(x), Half(y));
    HalfBits(Xor(x, y));
  }

  lemma MaskOfXor(x: bv64, y: bv64)
    ensures Mask(Xor(x, y)) == Xor(Mask(x), Mask(y))
  {
  }

  lemma StepLinear(x: bv64, y: bv64)
    ensures Step(Xor(x, y)) == Xor(Step(x), Step(y))
  {
    hide Xor, Half, Step, Mask;
    StepIsShiftAndMask(x);
    StepIsShiftAndMask(y);
    StepIsShiftAndMask(Xor(x, y));
    HalfOfXor(x, y);
    MaskOfXor(x, y);
    XorRegroups(Half(x), Half(y), Mask(x), Mask(y));
  }

  lemma Step8Linear(x: bv64, y: bv64)
    ensures Step8(Xor(x, y)) == Xor(Step8(x), Step8(y))
  {
    hide Step, Xor;
    var x1, y1 := Step(x), Step(y);
    var x2, y2 := Step(x1), Step(y1);
    var x3, y3 := Step(x2), Step(y2);
    var x4, y4 := Step(x3), Step(y3);
    var x5, y5 := Step(x4), Step(y4);
    var x6, y6 := Step(x5), Step(y5);
    var x7, y7 := Step(x6), Step(y6);
    StepLinear(x, y);
    StepLinear(x1, y1);
    StepLinear(x2, y2);
    StepLinear(x3, y3);
    StepLinear(x4, y4);
    StepLinear(x5, y5);
    StepLinear(x6, y6);
    StepLinear(x7, y7);
  }

  function High(x: bv64): bv64 {
    x & 0xFFFFFFFFFFFFFF00
  }

  function Low(x: bv64): Byte {
    (x & 0xFF) as Byte
  }

  function Drop8(x: bv64): bv64 {
    x >> 8
  }

  lemma Step8OnHighBits(x: bv64)
    ensures Step8(High(x)) == Drop8(x)
  {
  }

  lemma SplitByte(x: bv64)
    ensures x == Xor(High(x), Wide(Low(x)))
  {
  }

  lemma DropIgnoresLow(c: bv64, b: Byte)
    ensures Drop8(Xor(c, Wide(b))) == Drop8(c)
  {
  }

  /** What eight steps make of the byte `j`. */
  function TableEntry(j: nat): bv64
    requires j < 256
  {
    Step8(Wide(j as Byte))
  }

  ghost predicate IsTable(table: seq<bv64>) {
    |table| == 256 && forall j :: 0 <= j < 256 ==> table[j] == TableEntry(j)
  }

  lemma TableHolds(table: seq<bv64>, k: Byte)
    requires IsTable(table)
    ensures table[k as int] == Step8(Wide(k))
  {
    hide Step8, Wide;
    assert (k as int) as Byte == k;
    assert table[k as int] == TableEntry(k as int);
  }

  /** Looking a byte up in the table does the work of eight bit-serial steps, in every state. */
  lemma TableStepIsSerial(table: seq<bv64>, c: bv64, b: Byte)
    requires IsTable(table)
    ensures Xor(Drop8(c), table[Low(Xor(c, Wide(b))) as int]) == Step8(Xor(c, Wide(b)))
  {
    hide Step8, Xor, Wide, High, Low, Drop8;
    var x := Xor(c, Wide(b));
    SplitByte(x);
    DropIgnoresLow(c, b);
    Step8OnHighBits(x);
    TableHolds(table, Low(x));
    Step8Linear(High(x), Wide(Low(x)));
  }

  lemma {:induction false} SerialSplits(c: bv64, s: seq<Byte>, t: seq<Byte>)
    ensures Serial(c, s + t) == Serial(Serial(c, s), t)
    decreases |s|
  {
    hide Step8, Xor, Wide;
    if s == [] {
      assert s + t == t;
    } else {
      assert (s + t)[1..] == s[1..] + t;
      SerialSplits(Step8(Xor(c, Wide(s[0]))), s[1..], t);
    }
  }

  lemma SerialOne(c: bv64, b: Byte)
    ensures Serial(c, [b]) == Step8(Xor(c, Wide(b)))
  {
    hide Step8, Xor, Wide;
  }

  class Crc {
    var table: array<bv64>
    var crc: bv64

    ghost predicate Valid()
      reads this, table
    {
      IsTable(table[..])
    }

    constructor ()
      ensures Valid() && fresh(table) && crc == Start
    {
      crc := Start;
      table := new bv64[256];
      new;
      InitTable();
    }

    method InitTable()
      requires table.Length == 256
      modifies table
      ensures IsTable(table[..])
    {
      hide Step8, Wide;
      for i := 0 to 256
        invariant forall j :: 0 <= j < i ==> table[j] == TableEntry(j)
      {
        var c := EightSteps(Wide(i as Byte));
        table[i] := c;
      }
    }

    static method EightSteps(i: bv64) returns (c: bv64)
      ensures c == Step8(i)
    {
      c := i;
      EightIterations(i);
      for j := 0 to 8
        invariant Iterate(c, 8 - j) == Step8(i)
      {
        if c & 1 == 1 {
          c := (c >> 1) ^ Poly;
        } else {
          c := c >> 1;
        }
      }
    }

    method Update(data: seq<Byte>)
      requires Valid()
      modifies this`crc
      ensures Valid() && crc == Serial(old(crc), data)
    {
      hide Step8, Serial, Xor, Wide, Low, Drop8;
      SerialNone(crc);
      for i := 0 to |data|
        invariant crc == Serial(old(crc), data[..i])
      {
        var idx := Low(Xor(crc, Wide(data[i])));
        TableStepIsSerial(table[..], crc, data[i]);
        SerialOne(crc, data[i]);
        SerialSplits(old(crc), data[..i], [data[i]]);
        assert data[..i + 1] == data[..i] + [data[i]];
        crc := Xor(Drop8(crc), table[idx as int]);
      }
      assert data[..|data|] == data;
    }

    method Reset()
      modifies this`crc
      ensures crc == Start
    {
      crc := Start;
    }
  }

  lemma SerialNone(c: bv64)
    ensures Serial(c, []) == c
  {
  }

  ghost function Iterate(c: bv64, n: nat): bv64
    decreases n
  {
    if n == 0 then c else Iterate(Step(c), n - 1)
  }

  lemma EightIterations(c: bv64)
    ensures Iterate(c, 8) == Step8(c)
  {
    hide Step;
    assert Iterate(c, 8) == Iterate(Step(Step(c)), 6);
    assert Iterate(Step(Step(c)), 6) == Iterate(Step(Step(Step(Step(c)))), 4);
    var d := Step(Step(Step(Step(c))));
    assert Iterate(d, 4) == Iterate(Step(Step(d)), 2);
  }

  // ----- What the checksum can see

  /** The byte-wise difference of two streams. */
  function Differences(s: seq<Byte>, t: seq<Byte>): (ds: seq<Byte>)
    requires |s| == |t|
    ensures |ds| == |s|
  {
    seq(|s|, i requires 0 <= i < |s| => XorByte(s[i], t[i]))
  }

  /** The registers of two streams differ by the register of their difference. */
  lemma {:induction false} RegistersDiffer(c: bv64, d: bv64, s: seq<Byte>, t: seq<Byte>)
    requires |s| == |t|
    ensures Xor(Serial(c, s), Serial(d, t)) == Serial(Xor(c, d), Differences(s, t))
    decreases |s|
  {
    hide Step8, Xor, Wide, XorByte;
    if s != [] {
      var a, b := Wide(s[0]), Wide(t[0]);
      var ds := Differences(s, t);
      assert ds[1..] == Differences(s[1..], t[1..]);
      assert ds[0] == XorByte(s[0], t[0]);
      XorOfBytes(s[0], t[0]);
      XorRegroups(c, a, d, b);
      Step8Linear(Xor(c, a), Xor(d, b));
      RegistersDiffer(Step8(Xor(c, a)), Step8(Xor(d, b)), s[1..], t[1..]);
    }
  }

  const Limits: seq<bv64> := [
    0x1, 0x100, 0x10000, 0x1000000, 0x100000000, 0x10000000000, 0x1000000000000, 0x100000000000000]

  function Shift8(x: bv64): bv64 {
    x << 8
  }

  /** Up to eight bytes as one register value, the first byte lowest. */
  function Pack(ds: seq<Byte>): bv64 {
    if ds == [] then 0 else Xor(Wide(ds[0]), Shift8(Pack(ds[1..])))
  }

  lemma PackOneFits(n: nat, b: Byte, rest: bv64)
    requires n < 7 && rest < Limits[n]
    ensures Xor(Wide(b), Shift8(rest)) < Limits[n + 1]
  {
    if n == 0 {
    } else if n == 1 {
    } else if n == 2 {
    } else if n == 3 {
    } else if n == 4 {
    } else if n == 5 {
    } else {
    }
  }

  lemma {:induction false} PackFits(ds: seq<Byte>)
    requires |ds| <= 7
    ensures Pack(ds) < Limits[|ds|]
  {
    hide Xor, Wide, Shift8;
    if ds != [] {
      PackFits(ds[1..]);
      PackOneFits(|ds| - 1, ds[0], Pack(ds[1..]));
    }
  }

  lemma PackIsSmall(ds: seq<Byte>)
    requires |ds| <= 7
    ensures Pack(ds) < 0x100000000000000 && Pack(ds) & TopBit == 0
  {
    hide Pack;
    PackFits(ds);
  }

  lemma PackOneZero(b: Byte, rest: bv64)
    requires rest < 0x100000000000000
    ensures Xor(Wide(b), Shift8(rest)) == 0 <==> b == 0 && rest == 0
  {
  }

  ghost predicate AllZero(ds: seq<Byte>) {
    forall i :: 0 <= i < |ds| ==> ds[i] == 0
  }

  lemma {:induction false} PackZero(ds: seq<Byte>)
    requires |ds| <= 8
    ensures Pack(ds) == 0 <==> AllZero(ds)
  {
    hide Xor, Wide, Shift8;
    if ds != [] {
      PackIsSmall(ds[1..]);
      PackZero(ds[1..]);
      PackOneZero(ds[0], Pack(ds[1..]));
      AllZeroSplits(ds);
    }
  }

  lemma AllZeroSplits(ds: seq<Byte>)
    requires ds != []
    ensures AllZero(ds) <==> ds[0] == 0 && AllZero(ds[1..])
  {
    if ds[0] == 0 && AllZero(ds[1..]) {
      assert forall i :: 1 <= i < |ds| ==> ds[i] == ds[1..][i - 1];
    }
  }

  function Repeat8(c: bv64, n: nat): bv64
    decreases n
  {
    if n == 0 then c else Repeat8(Step8(c), n - 1)
  }

  lemma Step8Undoes(x: bv64)
    requires x < 0x100000000000000
    ensures Step8(Shift8(x)) == x
  {
  }

  /** Feeding up to eight bytes into the register is packing them and stepping the result. */
  lemma {:induction false} SerialIsPacked(c: bv64, ds: seq<Byte>)
    requires |ds| <= 8
    ensures Serial(c, ds) == Repeat8(Xor(c, Pack(ds)), |ds|)
    decreases |ds|
  {
    XorZero(c, 0);
    hide Step8, Xor, Wide, Shift8;
    if ds != [] {
      var b, rest := Wide(ds[0]), Pack(ds[1..]);
      PackIsSmall(ds[1..]);
      Step8Undoes(rest);
      Step8Linear(Xor(c, b), Shift8(rest));
      XorAssociates(c, b, Shift8(rest));
      SerialIsPacked(Step8(Xor(c, b)), ds[1..]);
    }
  }

  lemma Step8Kernel(x: bv64)
    ensures Step8(x) & TopBit == 0
    ensures Step8(x) == 0 <==> x == 0 || x == Blind
  {
  }

  lemma BlindHasTopBit()
    ensures Blind & TopBit != 0 && Blind != 0
  {
  }

  lemma {:induction false} Repeat8Kernel(x: bv64, n: nat)
    ensures x & TopBit == 0 ==> (Repeat8(x, n) == 0 <==> x == 0)
    ensures n > 0 ==> (Repeat8(x, n) == 0 <==> x == 0 || x == Blind)
    ensures n > 0 || x & TopBit == 0 ==> Repeat8(x, n) & TopBit == 0
    decreases n
  {
    hide Step8;
    BlindHasTopBit();
    if n > 0 {
      Step8Kernel(x);
      Repeat8Kernel(Step8(x), n - 1);
    }
  }

  lemma {:induction false} ZeroBytesOnlyStep(c: bv64, ds: seq<Byte>)
    requires AllZero(ds)
    ensures Serial(c, ds) == Repeat8(c, |ds|)
    decreases |ds|
  {
    XorZero(c, 0);
    assert Wide(0) == 0;
    hide Step8, Xor, Wide;
    if ds != [] {
      ZeroBytesOnlyStep(Step8(c), ds[1..]);
    }
  }

  lemma DifferencesZero(s: seq<Byte>, t: seq<Byte>)
    requires |s| == |t|
    ensures AllZero(Differences(s, t)) <==> s == t
  {
    hide XorByte;
    forall i | 0 <= i < |s| ensures Differences(s, t)[i] == 0 <==> s[i] == t[i] {
      XorOfBytes(s[i], t[i]);
    }
  }

  /** What the registers differ by after a window of up to eight bytes. */
  lemma WindowDifference(d: bv64, w: seq<Byte>, w': seq<Byte>)
    requires |w| == |w'| <= 8
    ensures var x := Xor(Serial(d, w), Serial(d, w'));
            && x & TopBit == 0
            && (x == 0 <==> w == w' || (|w| == 8 && Pack(Differences(w, w')) == Blind))
  {
    hide Step8, Xor, Wide, Serial, Repeat8, Pack, AllZero;
    var ds := Differences(w, w');
    assert |ds| == |w|;
    XorZero(d, d);
    XorZero(Pack(ds), 0);
    RegistersDiffer(d, d, w, w');
    SerialIsPacked(0, ds);
    PackZero(ds);
    DifferencesZero(w, w');
    KernelOfWindow(Pack(ds), |ds|, Repeat8(Pack(ds), |ds|)) by {
      Repeat8Kernel(Pack(ds), |ds|);
      if |ds| <= 7 {
        PackIsSmall(ds);
      }
    }
  }

  /** The kernel of the steps, for what up to eight bytes pack to. */
  lemma KernelOfWindow(x: bv64, n: nat, r: bv64)
    requires n <= 7 ==> x & TopBit == 0
    requires x & TopBit == 0 ==> (r == 0 <==> x == 0)
    requires n > 0 ==> (r == 0 <==> x == 0 || x == Blind)
    requires n > 0 || x & TopBit == 0 ==> r & TopBit == 0
    ensures r & TopBit == 0 && (r == 0 <==> x == 0 || (n >= 8 && x == Blind))
  {
    BlindHasTopBit();
  }

  /** Two streams that differ at most in a window of eight bytes have the same checksum if and
      only if the windows are equal or differ by exactly one eight-byte pattern. */
  lemma WindowCollides(c: bv64, before: seq<Byte>, w: seq<Byte>, w': seq<Byte>, after: seq<Byte>)
    requires |w| == |w'| <= 8
    ensures Serial(c, before + w + after) == Serial(c, before + w' + after)
       <==> w == w' || (|w| == 8 && Pack(Differences(w, w')) == Blind)
  {
    hide Step8, Xor, Wide, Serial, Repeat8, Pack, AllZero, Differences;
    var d := Serial(c, before);
    SerialSplits(c, before + w, after);
    SerialSplits(c, before + w', after);
    SerialSplits(c, before, w);
    SerialSplits(c, before, w');
    var x, y := Serial(d, w), Serial(d, w');
    var zeros := Differences(after, after);
    WindowDifference(d, w, w');
    RegistersDiffer(x, y, after, after);
    DifferencesZero(after, after);
    ZeroBytesOnlyStep(Xor(x, y), zeros);
    Repeat8Kernel(Xor(x, y), |zeros|);
    XorZero(Serial(x, after), Serial(y, after));
  }

  /** Every corruption confined to seven consecutive bytes changes the checksum. */
  lemma ShortCorruptionDetected(c: bv64, before: seq<Byte>, w: seq<Byte>, w': seq<Byte>, after: seq<Byte>)
    requires |w| == |w'| <= 7 && w != w'
    ensures Serial(c, before + w + after) != Serial(c, before + w' + after)
  {
    hide Serial, Pack, Differences;
    WindowCollides(c, before, w, w', after);
  }

  const BlindBytes: seq<Byte> := [0x27, 0x6D, 0xD4, 0x53, 0xD7, 0xC3, 0xE1, 0x85]

  /** The bound is tight: flipping one eight-byte pattern goes unseen in every stream. */
  lemma EightBytesCanHide(c: bv64, before: seq<Byte>, w: seq<Byte>, after: seq<Byte>)
    requires |w| == 8
    ensures var w' := Differences(w, BlindBytes);
            w' != w && Serial(c, before + w' + after) == Serial(c, before + w + after)
  {
    hide Serial, Pack, XorByte;
    var w' := Differences(w, BlindBytes);
    forall i | 0 <= i < 8 ensures Differences(w', w)[i] == BlindBytes[i] {
      XorOfBytes(w[i], BlindBytes[i]);
    }
    assert Differences(w', w) == BlindBytes;
    BlindPacks();
    WindowCollides(c, before, w', w, after);
    DifferencesZero(w', w);
    assert BlindBytes[0] != 0;
  }

  lemma BlindPacks()
    ensures Pack(BlindBytes) == Blind
  {
    assert Pack(BlindBytes[7..]) == 0x85;
    assert BlindBytes[6..][1..] == BlindBytes[7..];
    assert Pack(BlindBytes[6..]) == 0x85E1;
    assert BlindBytes[5..][1..] == BlindBytes[6..];
    assert Pack(BlindBytes[5..]) == 0x85E1C3;
    assert BlindBytes[4..][1..] == BlindBytes[5..];
    assert Pack(BlindBytes[4..]) == 0x85E1C3D7;
    assert BlindBytes[3..][1..] == BlindBytes[4..];
    assert Pack(BlindBytes[3..]) == 0x85E1C3D753;
    assert BlindBytes[2..][1..] == BlindBytes[3..];
    assert Pack(BlindBytes[2..]) == 0x85E1C3D753D4;
    assert BlindBytes[1..][1..] == BlindBytes[2..];
    assert Pack(BlindBytes[1..]) == 0x85E1C3D753D46D;
  }
}
