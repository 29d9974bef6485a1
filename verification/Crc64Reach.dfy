/** Which register values can be reached: from every register, eight bytes lead to any value with a
    clear top bit, and after at least one byte there are no others. */
module Crc64Reach {
  import opened Crc64

  function Double(x: bv64): bv64 {
    x << 1
  }

  function DoubleAndOne(x: bv64): bv64 {
    (x << 1) | 1
  }

  predicate SecondBit(r: bv64) {
    r & 0x4000000000000000 != 0
  }

  /** The step back: the second highest bit tells whether the polynomial was added. */
  function Unstep(r: bv64): bv64 {
    if SecondBit(r) then DoubleAndOne(Xor(r, Poly)) else Double(r)
  }

  lemma DoubleHalves(x: bv64)
    requires x & TopBit == 0
    ensures Half(Double(x)) == x && Half(DoubleAndOne(x)) == x
    ensures Mask(Double(x)) == 0 && Mask(DoubleAndOne(x)) == Poly
  {
  }

  lemma TopBitAfterDoubling(r: bv64)
    requires r & TopBit == 0
    ensures !SecondBit(r) ==> Double(r) & TopBit == 0
    ensures SecondBit(r) ==> Xor(r, Poly) & TopBit == 0 && DoubleAndOne(Xor(r, Poly)) & TopBit == 0
  {
  }

  lemma UnstepInverts(r: bv64)
    requires r & TopBit == 0
    ensures Step(Unstep(r)) == r && Unstep(r) & TopBit == 0
  {
    hide Step, Xor, Half, Mask, Double, DoubleAndOne, SecondBit;
    TopBitAfterDoubling(r);
    StepIsShiftAndMask(Unstep(r));
    if SecondBit(r) {
      DoubleHalves(Xor(r, Poly));
      XorAssociates(r, Poly, Poly);
      XorUnits(Poly);
    } else {
      DoubleHalves(r);
    }
    XorUnits(r);
  }

  function Unstep8(r: bv64): bv64 {
    Unstep(Unstep(Unstep(Unstep(Unstep(Unstep(Unstep(Unstep(r))))))))
  }

  lemma Unstep8Inverts(r: bv64)
    requires r & TopBit == 0
    ensures Step8(Unstep8(r)) == r && Unstep8(r) & TopBit == 0
  {
    hide Step, Unstep;
    var r1 := Unstep(r);
    UnstepInverts(r);
    var r2 := Unstep(r1);
    UnstepInverts(r1);
    var r3 := Unstep(r2);
    UnstepInverts(r2);
    var r4 := Unstep(r3);
    UnstepInverts(r3);
    var r5 := Unstep(r4);
    UnstepInverts(r4);
    var r6 := Unstep(r5);
    UnstepInverts(r5);
    var r7 := Unstep(r6);
    UnstepInverts(r6);
    UnstepInverts(r7);
  }

  function Back(r: bv64, n: nat): bv64 {
    if n == 0 then r else Unstep8(Back(r, n - 1))
  }

  lemma {:induction false} BackInverts(r: bv64, n: nat)
    requires r & TopBit == 0
    ensures Repeat8(Back(r, n), n) == r && Back(r, n) & TopBit == 0
    decreases n
  {
    hide Step8, Unstep8;
    if n > 0 {
      BackInverts(r, n - 1);
      Unstep8Inverts(Back(r, n - 1));
    }
  }

  /** A register value as bytes, the lowest first. */
  function Unpack(x: bv64, n: nat): (ds: seq<Byte>)
    ensures |ds| == n
  {
    if n == 0 then [] else [Low(x)] + Unpack(Drop8(x), n - 1)
  }

  /** Whether `n` bytes hold the value. */
  predicate Within(x: bv64, n: nat)
    requires n <= 7
  {
    x < Limits[n]
  }

  lemma PackOne(x: bv64)
    ensures Xor(Wide(Low(x)), Shift8(Drop8(x))) == x && Within(Drop8(x), 7)
  {
  }

  lemma DropFits(x: bv64, n: nat)
    requires n < 7 && Within(x, n + 1)
    ensures Within(Drop8(x), n)
  {
    if n == 0 {
    } else if n == 1 {
    } else if n == 2 {
    } else if n == 3 {
    } else if n == 4 {
    } else if n == 5 {
    } else {
    }
  }

  lemma FirstLimit(x: bv64)
    requires Within(x, 0)
    ensures x == 0
  {
  }

  lemma {:induction false} PackUnpack(x: bv64, n: nat)
    requires n <= 7 && Within(x, n)
    ensures Pack(Unpack(x, n)) == x
    decreases n
  {
    hide Xor, Wide, Low, Shift8, Drop8, Within;
    if n == 0 {
      FirstLimit(x);
    } else {
      DropFits(x, n - 1);
      PackOne(x);
      PackUnpack(Drop8(x), n - 1);
      assert Unpack(x, n)[1..] == Unpack(Drop8(x), n - 1);
    }
  }

  lemma PackUnpack8(x: bv64)
    ensures Pack(Unpack(x, 8)) == x
  {
    hide Xor, Wide, Low, Shift8, Drop8, Within;
    PackOne(x);
    PackUnpack(Drop8(x), 7);
    assert Unpack(x, 8)[1..] == Unpack(Drop8(x), 7);
  }

  /** The eight bytes that lead from one register to another. */
  function Steer(c: bv64, target: bv64): (ds: seq<Byte>)
    ensures |ds| == 8
  {
    Unpack(Xor(c, Back(target, 8)), 8)
  }

  lemma EightBytesReach(c: bv64, target: bv64)
    requires target & TopBit == 0
    ensures Serial(c, Steer(c, target)) == target
  {
    hide Xor, Back, Unpack, Pack, Repeat8, Serial;
    var x := Back(target, 8);
    BackInverts(target, 8);
    PackUnpack8(Xor(c, x));
    SerialIsPacked(c, Steer(c, target));
    XorAssociates(c, c, x);
    XorUnits(c);
    XorUnits(x);
  }

  lemma {:induction false} TopBitClears(c: bv64, data: seq<Byte>)
    requires data != []
    ensures Serial(c, data) & TopBit == 0
    decreases |data|
  {
    hide Step8, Xor, Wide;
    Step8Kernel(Xor(c, Wide(data[0])));
    if |data| > 1 {
      TopBitClears(Step8(Xor(c, Wide(data[0]))), data[1..]);
    }
  }

  /** Eight bytes lead from any register to exactly the values whose top bit is clear. */
  lemma ReachableExactly(c: bv64, target: bv64)
    ensures (exists ds: seq<Byte> :: |ds| == 8 && Serial(c, ds) == target) <==> target & TopBit == 0
  {
    hide Serial, Steer;
    if target & TopBit == 0 {
      EightBytesReach(c, target);
    }
    forall ds: seq<Byte> | |ds| == 8 ensures Serial(c, ds) & TopBit == 0 {
      TopBitClears(c, ds);
    }
  }
}
