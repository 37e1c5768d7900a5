/** The Modbus RTU check, CRC-16 with polynomial 0xA001: as the source computes
    it, and as what each single bit does to the register. */
module Crc {
  import opened Prelude

  const INIT: bv16 := 0xFFFF
  const POLY: bv16 := 0xA001

  /** One bit of the shift register. */
  function Half(c: bv16): bv16 {
    if c & 1 == 1 then (c >> 1) ^ 0xA001 else c >> 1
  }

  function Shift(c: bv16, n: nat): bv16
    decreases n
  {
    if n == 0 then c else Shift(Half(c), n - 1)
  }

  /** One byte: added into the low end, then shifted through. */
  function NextByte(c: bv16, b: bv8): bv16 {
    Shift(c ^ (b as bv16), 8)
  }

  function CrcFrom(c: bv16, data: seq<bv8>): bv16
    decreases |data|
  {
    if data == [] then c else CrcFrom(NextByte(c, data[0]), data[1..])
  }

  function CrcOf(data: seq<bv8>): bv16 {
    CrcFrom(INIT, data)
  }

  /** The inner loop: eight bits of one byte. */
  method ShiftByte(start: bv16) returns (crc: bv16)
    ensures crc == Shift(start, 8)
  {
    crc := start;
    for k := 0 to 8
      invariant Shift(crc, 8 - k) == Shift(start, 8)
    {
      crc := if crc & 1 == 1 then (crc >> 1) ^ 0xA001 else crc >> 1;
    }
  }

  /** The outer loop: the bytes one after the other. */
  method Crc16(data: seq<bv8>) returns (crc: bv16)
    ensures crc == CrcOf(data)
  {
    crc := INIT;
    for i := 0 to |data|
      invariant CrcFrom(crc, data[i..]) == CrcOf(data)
    {
      assert data[i..][0] == data[i] && data[i..][1..] == data[i + 1..];
      crc := ShiftByte(crc ^ (data[i] as bv16));
    }
    assert data[|data|..] == [];
  }

  // ---- known answers ----

  lemma EightHalves(c0: bv16, c1: bv16, c2: bv16, c3: bv16, c4: bv16, c5: bv16, c6: bv16, c7: bv16, c8: bv16)
    requires Half(c0) == c1 && Half(c1) == c2 && Half(c2) == c3 && Half(c3) == c4
    requires Half(c4) == c5 && Half(c5) == c6 && Half(c6) == c7 && Half(c7) == c8
    ensures Shift(c0, 8) == c8
  {
    assert Shift(c8, 0) == c8 && Shift(c7, 1) == c8 && Shift(c6, 2) == c8 && Shift(c5, 3) == c8 && Shift(c4, 4) == c8;
  }

  /** A zero byte leaves 0x40BF. */
  lemma CrcOfZero()
    ensures CrcOf([0]) == 0x40BF && Shift(0xFFFF, 8) == 0x40BF
  {
    EightHalves(0xffff, 0xdffe, 0x6fff, 0x97fe, 0x4bff, 0x85fe, 0x42ff, 0x817e, 0x40bf);
    CrcOfOne(0, 0x40BF);
  }

  lemma CrcOfOne(b: bv8, c: bv16)
    requires NextByte(0xFFFF, b) == c
    ensures CrcOf([b]) == c
  {
    assert [b][1..] == [];
    assert CrcFrom(c, []) == c;
  }

  /** The frame of the serial line specification's example: 02 07 has the CRC 0x1241. */
  lemma CrcOfTheExample()
    ensures CrcOf([2, 7]) == 0x1241
  {
    EightHalves(0xfffd, 0xdfff, 0xcffe, 0x67ff, 0x93fe, 0x49ff, 0x84fe, 0x427f, 0x813e);
    EightHalves(0x8139, 0xe09d, 0xd04f, 0xc826, 0x6413, 0x9208, 0x4904, 0x2482, 0x1241);
    assert NextByte(0xFFFF, 2) == 0x813e && NextByte(0x813e, 7) == 0x1241;
    CrcOfTwo(2, 7, 0x813e, 0x1241);
  }

  lemma CrcOfTwo(a: bv8, b: bv8, c: bv16, d: bv16)
    requires NextByte(0xFFFF, a) == c && NextByte(c, b) == d
    ensures CrcOf([a, b]) == d
  {
    assert [a, b][1..] == [b] && [b][1..] == [];
    assert CrcFrom(d, []) == d && CrcFrom(c, [b]) == d;
  }

  // ---- single bits of a word ----

  predicate Bit(c: bv16, i: nat)
    decreases i
  {
    if i == 0 then c & 1 == 1 else Bit(c >> 1, i - 1)
  }

  /** `x` has no bit at `n` or above. */
  predicate Small(x: bv16, n: nat)
    decreases n
  {
    if n == 0 then x == 0 else Small(x >> 1, n - 1)
  }

  predicate MaskOf(m: bv16, n: nat)
    decreases n
  {
    if n == 0 then m == 0 else m & 1 == 1 && MaskOf(m >> 1, n - 1)
  }

  lemma Masks()
    ensures MaskOf(0xFF, 8) && MaskOf(0xFFFF, 16)
  {
    assert MaskOf(0, 0) && MaskOf(1, 1) && MaskOf(3, 2) && MaskOf(7, 3) && MaskOf(0xF, 4);
    assert MaskOf(0x1F, 5) && MaskOf(0x3F, 6) && MaskOf(0x7F, 7);
    assert MaskOf(0x1FF, 9) && MaskOf(0x3FF, 10) && MaskOf(0x7FF, 11) && MaskOf(0xFFF, 12);
    assert MaskOf(0x1FFF, 13) && MaskOf(0x3FFF, 14) && MaskOf(0x7FFF, 15);
  }

  lemma ShiftBelow(x: bv16, m: bv16)
    requires x <= m
    ensures x >> 1 <= m >> 1
  {
  }

  lemma {:induction false} SmallBelow(x: bv16, m: bv16, n: nat)
    requires x <= m && MaskOf(m, n)
    ensures Small(x, n)
    decreases n
  {
    if n > 0 {
      ShiftBelow(x, m);
      SmallBelow(x >> 1, m >> 1, n - 1);
    }
  }

  lemma {:induction false} SmallBits(x: bv16, n: nat, i: nat)
    requires Small(x, n) && i >= n
    ensures !Bit(x, i)
    decreases i
  {
    if n > 0 {
      SmallBits(x >> 1, n - 1, i - 1);
    } else if i > 0 {
      assert x >> 1 == 0;
      SmallBits(x >> 1, 0, i - 1);
    }
  }

  lemma {:induction false} MaskBit(m: bv16, n: nat, i: nat)
    requires MaskOf(m, n) && i < n
    ensures Bit(m, i)
    decreases n
  {
    if i > 0 {
      MaskBit(m >> 1, n - 1, i - 1);
    }
  }

  /** Every word is 16 bits. */
  lemma WordEnds(c: bv16, i: nat)
    requires i >= 16
    ensures !Bit(c, i)
  {
    Masks();
    SmallBelow(c, 0xFFFF, 16);
    SmallBits(c, 16, i);
  }

  predicate SameBits(x: bv16, y: bv16, n: nat)
    decreases n
  {
    n == 0 || ((x & 1 == 1) == (y & 1 == 1) && SameBits(x >> 1, y >> 1, n - 1))
  }

  lemma Rejoin(x: bv16, y: bv16)
    requires x >> 1 == y >> 1 && (x & 1 == 1) == (y & 1 == 1)
    ensures x == y
  {
  }

  lemma {:induction false} SameBitsEqual(x: bv16, y: bv16, n: nat)
    requires Small(x, n) && Small(y, n) && SameBits(x, y, n)
    ensures x == y
    decreases n
  {
    if n > 0 {
      SameBitsEqual(x >> 1, y >> 1, n - 1);
      Rejoin(x, y);
    }
  }

  lemma {:induction false} BitsSame(x: bv16, y: bv16, n: nat)
    requires forall i: nat :: i < n ==> Bit(x, i) == Bit(y, i)
    ensures SameBits(x, y, n)
    decreases n
  {
    if n > 0 {
      assert Bit(x, 0) == Bit(y, 0);
      var u, v := x >> 1, y >> 1;
      forall i: nat | i < n - 1 ensures Bit(u, i) == Bit(v, i) {
        assert Bit(x, i + 1) == Bit(y, i + 1);
      }
      BitsSame(u, v, n - 1);
    }
  }

  /** Words are told apart by their bits. */
  lemma BitsDetermine(x: bv16, y: bv16)
    requires forall i: nat :: i < 16 ==> Bit(x, i) == Bit(y, i)
    ensures x == y
  {
    Masks();
    SmallBelow(x, 0xFFFF, 16);
    SmallBelow(y, 0xFFFF, 16);
    BitsSame(x, y, 16);
    SameBitsEqual(x, y, 16);
  }

  // ---- exclusive or, bit by bit ----

  lemma XorShift(x: bv16, y: bv16, z: bv16)
    requires z == x ^ y
    ensures z >> 1 == (x >> 1) ^ (y >> 1)
    ensures z & 1 == 1 <==> ((x & 1 == 1) != (y & 1 == 1))
  {
  }

  predicate IsXor(x: bv16, y: bv16, z: bv16, n: nat)
    decreases n
  {
    n == 0 || ((z & 1 == 1 <==> ((x & 1 == 1) != (y & 1 == 1))) && IsXor(x >> 1, y >> 1, z >> 1, n - 1))
  }

  lemma {:induction false} XorHolds(x: bv16, y: bv16, z: bv16, n: nat)
    requires z == x ^ y
    ensures IsXor(x, y, z, n)
    decreases n
  {
    XorShift(x, y, z);
    if n > 0 {
      XorHolds(x >> 1, y >> 1, z >> 1, n - 1);
    }
  }

  lemma {:induction false} IsXorBit(x: bv16, y: bv16, z: bv16, n: nat, i: nat)
    requires IsXor(x, y, z, n) && i < n
    ensures Bit(z, i) <==> (Bit(x, i) != Bit(y, i))
    decreases i
  {
    if i > 0 {
      IsXorBit(x >> 1, y >> 1, z >> 1, n - 1, i - 1);
    }
  }

  lemma XorBit(x: bv16, y: bv16, z: bv16, i: nat)
    requires z == x ^ y
    ensures Bit(z, i) <==> (Bit(x, i) != Bit(y, i))
  {
    XorHolds(x, y, z, i + 1);
    IsXorBit(x, y, z, i + 1, i);
  }

  lemma HalfBit(c: bv16, i: nat)
    ensures Bit(Half(c), i) <==> (Bit(c, i + 1) != (Bit(c, 0) && Bit(POLY, i)))
  {
    if c & 1 == 1 {
      XorBit(c >> 1, POLY, Half(c), i);
    }
  }

  // ---- the low and the high byte ----

  lemma AndShift(x: bv16, y: bv16, z: bv16)
    requires z == x & y
    ensures z >> 1 == (x >> 1) & (y >> 1)
    ensures z & 1 == 1 <==> (x & 1 == 1) && (y & 1 == 1)
  {
  }

  predicate IsAnd(x: bv16, y: bv16, z: bv16, n: nat)
    decreases n
  {
    n == 0 || ((z & 1 == 1 <==> (x & 1 == 1) && (y & 1 == 1)) && IsAnd(x >> 1, y >> 1, z >> 1, n - 1))
  }

  lemma {:induction false} AndHolds(x: bv16, y: bv16, z: bv16, n: nat)
    requires z == x & y
    ensures IsAnd(x, y, z, n)
    decreases n
  {
    AndShift(x, y, z);
    if n > 0 {
      AndHolds(x >> 1, y >> 1, z >> 1, n - 1);
    }
  }

  lemma {:induction false} IsAndBit(x: bv16, y: bv16, z: bv16, n: nat, i: nat)
    requires IsAnd(x, y, z, n) && i < n
    ensures Bit(z, i) <==> Bit(x, i) && Bit(y, i)
    decreases i
  {
    if i > 0 {
      IsAndBit(x >> 1, y >> 1, z >> 1, n - 1, i - 1);
    }
  }

  lemma LowByteBit(c: bv16, i: nat)
    requires i < 8
    ensures Bit(c & 0xFF, i) == Bit(c, i)
  {
    AndHolds(c, 0xFF, c & 0xFF, 8);
    IsAndBit(c, 0xFF, c & 0xFF, 8, i);
    Masks();
    MaskBit(0xFF, 8, i);
  }

  function Down(c: bv16, k: nat): bv16
    decreases k
  {
    if k == 0 then c else Down(c >> 1, k - 1)
  }

  lemma {:induction false} DownBit(c: bv16, k: nat, i: nat)
    ensures Bit(Down(c, k), i) == Bit(c, k + i)
    decreases k
  {
    if k > 0 {
      DownBit(c >> 1, k - 1, i);
    }
  }

  lemma {:induction false} DownTwice(c: bv16, k: nat, j: nat)
    ensures Down(c, k + j) == Down(Down(c, k), j)
    decreases k
  {
    if k > 0 {
      DownTwice(c >> 1, k - 1, j);
    }
  }

  lemma FourShifts(c: bv16)
    ensures (((c >> 1) >> 1) >> 1) >> 1 == c >> 4 && (c >> 4) >> 4 == c >> 8
  {
  }

  lemma DownFour(c: bv16)
    ensures Down(c, 4) == (((c >> 1) >> 1) >> 1) >> 1
  {
  }

  lemma HighByteBit(c: bv16, i: nat)
    ensures Bit(c >> 8, i) == Bit(c, 8 + i)
  {
    DownTwice(c, 4, 4);
    DownFour(c);
    FourShifts(c);
    DownFour(c >> 4);
    FourShifts(c >> 4);
    DownBit(c, 8, i);
  }

  /** A byte has no bit beyond its eight. */
  lemma ByteEnds(b: bv8, i: nat)
    requires i >= 8
    ensures !Bit(b as bv16, i)
  {
    Masks();
    assert b as bv16 <= 0xFF;
    SmallBelow(b as bv16, 0xFF, 8);
    SmallBits(b as bv16, 8, i);
  }
}
