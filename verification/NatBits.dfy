/** Natural numbers as bit strings: shifting, masking, and bytes in both orders. */
module NatBits {

  type Byte = x: nat | x < 256

  function Pow2(n: nat): (p: nat)
    ensures p > 0
  {
    if n == 0 then 1 else 2 * Pow2(n - 1)
  }

  /** Bit `i` of `v`. */
  predicate Bit(v: nat, i: nat) {
    if i == 0 then v % 2 == 1 else Bit(v / 2, i - 1)
  }

  /** `v >> k`. */
  function Shr(v: nat, k: nat): nat {
    if k == 0 then v else Shr(v / 2, k - 1)
  }

  /** `v & ((1 << n) - 1)`. */
  function Low(v: nat, n: nat): nat {
    if n == 0 then 0 else v % 2 + 2 * Low(v / 2, n - 1)
  }

  lemma AtLeast(d: nat, k: int)
    ensures k >= 1 ==> d * k >= d
    ensures k <= -1 ==> d * k <= 0 - d
  {
  }

  lemma Quotient(v: nat, d: nat, q: nat, r: nat)
    requires r < d && v == d * q + r
    ensures v / d == q && v % d == r
  {
    var p, s := v / d, v % d;
    assert v == d * p + s;
    assert d * (q - p) == d * q - d * p;
    AtLeast(d, q - p);
  }

  /** Dividing by 2p is halving, then dividing by p. */
  lemma Halved(v: nat, p: nat)
    requires p > 0
    ensures v / (2 * p) == (v / 2) / p
    ensures v % (2 * p) == v % 2 + 2 * ((v / 2) % p)
  {
    var q, r := (v / 2) / p, (v / 2) % p;
    var w := p * q;
    assert v / 2 == w + r;
    assert (2 * p) * q == 2 * w;
    Quotient(v, 2 * p, q, 2 * r + v % 2);
  }

  /** Shifting right is dividing by a power of two. */
  lemma {:induction false} ShrDivides(v: nat, k: nat)
    ensures Shr(v, k) == v / Pow2(k)
    decreases k
  {
    if k > 0 {
      ShrDivides(v / 2, k - 1);
      Halved(v, Pow2(k - 1));
    }
  }

  /** Masking is the remainder by a power of two. */
  lemma {:induction false} LowRemains(v: nat, n: nat)
    ensures Low(v, n) == v % Pow2(n)
    ensures Low(v, n) < Pow2(n)
    decreases n
  {
    if n > 0 {
      LowRemains(v / 2, n - 1);
      Halved(v, Pow2(n - 1));
    }
  }

  /** A bit is the remainder by two of what is left after dividing by its weight. */
  lemma {:induction false} BitIs(v: nat, i: nat)
    ensures Bit(v, i) <==> (v / Pow2(i)) % 2 == 1
    decreases i
  {
    if i > 0 {
      BitIs(v / 2, i - 1);
      Halved(v, Pow2(i - 1));
    }
  }

  lemma {:induction false} ShrBit(v: nat, k: nat, i: nat)
    ensures Bit(Shr(v, k), i) == Bit(v, k + i)
    decreases k
  {
    if k > 0 {
      ShrBit(v / 2, k - 1, i);
    }
  }

  lemma {:induction false} LowBit(v: nat, n: nat, i: nat)
    ensures Bit(Low(v, n), i) == (i < n && Bit(v, i))
    decreases n, i
  {
    if n == 0 {
      ZeroBit(i);
    } else {
      var rest := Low(v / 2, n - 1);
      assert (v % 2 + 2 * rest) / 2 == rest;
      if i > 0 {
        LowBit(v / 2, n - 1, i - 1);
      }
    }
  }

  lemma {:induction false} ZeroBit(i: nat)
    ensures !Bit(0, i)
  {
    if i > 0 {
      ZeroBit(i - 1);
    }
  }

  /** A number below 2^n has no bit from `n` on. */
  lemma {:induction false} BitsEnd(v: nat, n: nat, i: nat)
    requires v < Pow2(n) && i >= n
    ensures !Bit(v, i)
    decreases n
  {
    if n == 0 {
      ZeroBit(i);
    } else {
      BitsEnd(v / 2, n - 1, i - 1);
    }
  }

  /** The top bit of an n-bit number says whether it is in the upper half. */
  lemma {:induction false} TopBit(v: nat, n: nat)
    requires n >= 1 && v < Pow2(n)
    ensures Bit(v, n - 1) <==> v >= Pow2(n - 1)
    decreases n
  {
    if n > 1 {
      TopBit(v / 2, n - 1);
    }
  }

  lemma {:induction false} Pow2Grows(m: nat, n: nat)
    requires m <= n
    ensures Pow2(m) <= Pow2(n)
    decreases n
  {
    if m < n {
      Pow2Grows(m, n - 1);
    }
  }

  /** Numbers of `n` bits are told apart by their bits. */
  lemma {:induction false} BitsTellApart(v: nat, w: nat, n: nat)
    requires v < Pow2(n) && w < Pow2(n)
    requires forall i: nat :: i < n ==> Bit(v, i) == Bit(w, i)
    ensures v == w
    decreases n
  {
    if n > 0 {
      assert Bit(v, 0) == Bit(w, 0);
      forall i: nat | i < n - 1 ensures Bit(v / 2, i) == Bit(w / 2, i) {
        assert Bit(v, i + 1) == Bit(w, i + 1);
      }
      BitsTellApart(v / 2, w / 2, n - 1);
    }
  }

  // ---- bytes ----

  lemma {:induction false} Joined(lo: nat, hi: nat, n: nat, i: nat)
    requires lo < Pow2(n)
    ensures Bit(lo + Pow2(n) * hi, i) == if i < n then Bit(lo, i) else Bit(hi, i - n)
    decreases n
  {
    if n > 0 {
      var p := Pow2(n - 1);
      var w := p * hi;
      assert (2 * p) * hi == 2 * w;
      assert (lo + 2 * w) / 2 == lo / 2 + w;
      if i > 0 {
        Joined(lo / 2, hi, n - 1, i - 1);
      }
    }
  }

  lemma ByteJoined(lo: Byte, hi: nat, i: nat)
    ensures Bit(lo + 256 * hi, i) == if i < 8 then Bit(lo, i) else Bit(hi, i - 8)
  {
    assert Pow2(8) == 256;
    Joined(lo, hi, 8, i);
  }

  lemma SixteenBits()
    ensures Pow2(16) == 65536
  {
    assert Pow2(8) == 256;
    assert Pow2(12) == 4096;
  }

  /** `int.from_bytes(data, 'little')`. */
  function FromLittle(data: seq<Byte>): nat {
    if data == [] then 0 else data[0] + 256 * FromLittle(data[1..])
  }

  /** `int.from_bytes(data, 'big')`. */
  function FromBig(data: seq<Byte>): nat {
    if data == [] then 0 else data[|data| - 1] + 256 * FromBig(data[..|data| - 1])
  }

  lemma {:induction false} LittleBit(data: seq<Byte>, i: nat)
    requires i < 8 * |data|
    ensures Bit(FromLittle(data), i) == Bit(data[i / 8], i % 8)
    decreases |data|
  {
    ByteJoined(data[0], FromLittle(data[1..]), i);
    if i >= 8 {
      LittleBit(data[1..], i - 8);
      assert (i - 8) / 8 == i / 8 - 1 && (i - 8) % 8 == i % 8;
    }
  }

  lemma {:induction false} BigBit(data: seq<Byte>, i: nat)
    requires i < 8 * |data|
    ensures Bit(FromBig(data), i) == Bit(data[|data| - 1 - i / 8], i % 8)
    decreases |data|
  {
    var n := |data| - 1;
    ByteJoined(data[n], FromBig(data[..n]), i);
    if i >= 8 {
      BigBit(data[..n], i - 8);
      assert (i - 8) / 8 == i / 8 - 1 && (i - 8) % 8 == i % 8;
    }
  }
}
