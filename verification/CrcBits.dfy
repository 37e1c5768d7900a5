/** The check seen as a linear machine over bits: a register is the set of its
    one bits, and feeding bits into it commutes with exclusive or. */
module CrcBits {
  import opened Crc

  /** The one bits of a word. */
  function SetOf(c: bv16): set<nat> {
    set i: nat | i < 16 && Bit(c, i)
  }

  function Sym(a: set<nat>, b: set<nat>): set<nat> {
    (a - b) + (b - a)
  }

  const TAPS: set<nat> := SetOf(POLY)

  function Step(r: set<nat>): set<nat> {
    set i: nat | i < 16 && ((i + 1 in r) != (0 in r && i in TAPS))
  }

  function Steps(r: set<nat>, n: nat): set<nat>
    decreases n
  {
    if n == 0 then r else Steps(Step(r), n - 1)
  }

  /** The register with `b` added into its lowest bit. */
  function Take(r: set<nat>, b: bool): set<nat> {
    Sym(r, if b then {0} else {})
  }

  /** One bit after the other. */
  function Feed(r: set<nat>, bits: seq<bool>): set<nat>
    decreases |bits|
  {
    if bits == [] then r else Feed(Step(Take(r, bits[0])), bits[1..])
  }

  predicate Within(r: set<nat>) {
    forall i :: i in r ==> i < 16
  }

  // ---- the word machine is the set machine ----

  lemma SetOfXor(x: bv16, y: bv16)
    ensures SetOf(x ^ y) == Sym(SetOf(x), SetOf(y))
  {
    var z := x ^ y;
    forall i: nat | i < 16 ensures Bit(z, i) <==> (Bit(x, i) != Bit(y, i)) {
      XorBit(x, y, z, i);
    }
  }

  lemma SetOfHalf(c: bv16)
    ensures SetOf(Half(c)) == Step(SetOf(c))
  {
    WordEnds(c, 16);
    var h := Half(c);
    forall i: nat | i < 16 ensures i in SetOf(h) <==> i in Step(SetOf(c)) {
      HalfBit(c, i);
      assert i in TAPS <==> Bit(POLY, i);
      assert i + 1 in SetOf(c) <==> Bit(c, i + 1);
    }
  }

  lemma {:induction false} SetOfShift(c: bv16, n: nat)
    ensures SetOf(Shift(c, n)) == Steps(SetOf(c), n)
    decreases n
  {
    if n > 0 {
      SetOfHalf(c);
      SetOfShift(Half(c), n - 1);
    }
  }

  lemma SetOfInjective(x: bv16, y: bv16)
    requires SetOf(x) == SetOf(y)
    ensures x == y
  {
    forall i: nat | i < 16 ensures Bit(x, i) == Bit(y, i) {
      assert i in SetOf(x) <==> i in SetOf(y);
    }
    BitsDetermine(x, y);
  }

  // ---- linearity ----

  lemma StepLinear(a: set<nat>, b: set<nat>)
    ensures Step(Sym(a, b)) == Sym(Step(a), Step(b))
  {
  }

  lemma {:induction false} StepsLinear(a: set<nat>, b: set<nat>, n: nat)
    ensures Steps(Sym(a, b), n) == Sym(Steps(a, n), Steps(b, n))
    decreases n
  {
    if n > 0 {
      StepLinear(a, b);
      StepsLinear(Step(a), Step(b), n - 1);
    }
  }

  /** The positions at which two bit strings of one length differ. */
  function Differences(a: seq<bool>, b: seq<bool>): (d: seq<bool>)
    requires |a| == |b|
  {
    if a == [] then [] else [a[0] != b[0]] + Differences(a[1..], b[1..])
  }

  lemma {:induction false} DifferencesAt(a: seq<bool>, b: seq<bool>)
    requires |a| == |b|
    ensures |Differences(a, b)| == |a|
    ensures forall i :: 0 <= i < |a| ==> Differences(a, b)[i] == (a[i] != b[i])
  {
    if a != [] {
      DifferencesAt(a[1..], b[1..]);
      forall i | 0 <= i < |a| ensures Differences(a, b)[i] == (a[i] != b[i]) {
        if i > 0 {
          assert Differences(a, b)[i] == Differences(a[1..], b[1..])[i - 1];
        }
      }
    }
  }

  lemma TakeLinear(r: set<nat>, s: set<nat>, x: bool, y: bool)
    ensures Take(Sym(r, s), y) == Sym(Take(r, x), Take(s, x != y))
  {
  }

  /** Feeding other bits changes the register by what the differences alone
      would leave in it. */
  lemma {:induction false} FeedLinear(r: set<nat>, s: set<nat>, a: seq<bool>, b: seq<bool>)
    requires |a| == |b|
    ensures Feed(Sym(r, s), b) == Sym(Feed(r, a), Feed(s, Differences(a, b)))
    decreases |a|
  {
    if a != [] {
      var d := Differences(a, b);
      assert d[1..] == Differences(a[1..], b[1..]);
      TakeLinear(r, s, a[0], b[0]);
      StepLinear(Take(r, a[0]), Take(s, d[0]));
      FeedLinear(Step(Take(r, a[0])), Step(Take(s, d[0])), a[1..], b[1..]);
    } else {
      assert b == [];
    }
  }

  lemma {:induction false} FeedAppend(r: set<nat>, a: seq<bool>, b: seq<bool>)
    ensures Feed(r, a + b) == Feed(Feed(r, a), b)
    decreases |a|
  {
    if a == [] {
      assert a + b == b;
    } else {
      assert (a + b)[0] == a[0] && (a + b)[1..] == a[1..] + b;
      FeedAppend(Step(Take(r, a[0])), a[1..], b);
    }
  }

  // ---- nothing but zero is shifted to zero ----

  predicate BitsAre(c: bv16, s: seq<bool>)
    decreases |s|
  {
    s == [] || ((c & 1 == 1) == s[0] && BitsAre(c >> 1, s[1..]))
  }

  lemma {:induction false} BitsAreAt(c: bv16, s: seq<bool>, i: nat)
    requires BitsAre(c, s) && i < |s|
    ensures Bit(c, i) == s[i]
    decreases i
  {
    if i > 0 {
      BitsAreAt(c >> 1, s[1..], i - 1);
    }
  }

  lemma Before(c: bv16, b: bool, s: seq<bool>)
    requires BitsAre(c >> 1, s) && (c & 1 == 1) == b
    ensures BitsAre(c, [b] + s)
  {
    assert ([b] + s)[1..] == s;
  }

  function PolyBits(): seq<bool> {
    [true] + Falses(12) + [true] + [false] + [true]
  }

  function Falses(n: nat): (s: seq<bool>)
    ensures |s| == n && forall i :: 0 <= i < n ==> !s[i]
  {
    if n == 0 then [] else [false] + Falses(n - 1)
  }

  lemma PolyIs()
    ensures BitsAre(POLY, PolyBits())
  {
    var tail := [true] + [false] + [true];
    assert BitsAre(5, tail) by {
      Before(1, true, []);
      Before(2, false, [true]);
      Before(5, true, [false] + [true]);
      assert [true] + [] == [true];
      assert tail == [true] + ([false] + [true]);
    }
    PolyMiddle(tail);
    Before(0xA001, true, Falses(12) + tail);
    assert PolyBits() == [true] + (Falses(12) + tail);
  }

  lemma Lead(c: bv16, n: nat, s: seq<bool>)
    requires BitsAre(c >> 1, Falses(n) + s) && c & 1 == 0
    ensures BitsAre(c, Falses(n + 1) + s)
  {
    Before(c, false, Falses(n) + s);
    assert Falses(n + 1) + s == [false] + (Falses(n) + s);
  }

  lemma PolyMiddle(tail: seq<bool>)
    requires BitsAre(5, tail)
    ensures BitsAre(0x5000, Falses(12) + tail)
  {
    assert Falses(0) + tail == tail;
    Lead(0xA, 0, tail);
    Lead(0x14, 1, tail);
    Lead(0x28, 2, tail);
    Lead(0x50, 3, tail);
    Lead(0xA0, 4, tail);
    Lead(0x140, 5, tail);
    Lead(0x280, 6, tail);
    Lead(0x500, 7, tail);
    Lead(0xA00, 8, tail);
    Lead(0x1400, 9, tail);
    Lead(0x2800, 10, tail);
    Lead(0x5000, 11, tail);
  }

  /** The generator is x^16 + x^15 + x^2 + 1, bit-reversed. */
  lemma TapsAre()
    ensures TAPS == {0, 13, 15}
  {
    PolyIs();
    forall i: nat | i < 16 ensures i in TAPS <==> i in {0, 13, 15} {
      BitsAreAt(POLY, PolyBits(), i);
    }
  }

  lemma StepWithin(r: set<nat>)
    ensures Within(Step(r))
  {
  }

  lemma StepNonzero(r: set<nat>)
    requires Within(r) && r != {}
    ensures Step(r) != {}
  {
    TapsAre();
    if 0 in r {
      assert 16 !in r;
      assert 15 in Step(r);
    } else {
      var i :| i in r;
      assert i - 1 in Step(r);
    }
  }

  lemma {:induction false} StepsNonzero(r: set<nat>, n: nat)
    requires Within(r)
    ensures Steps(r, n) == {} <==> r == {}
    decreases n
  {
    if n > 0 {
      if r != {} {
        StepNonzero(r);
      } else {
        assert Step(r) == {};
      }
      StepsNonzero(Step(r), n - 1);
    }
  }

  // ---- up to sixteen bits are one addition ----

  function Ones(bits: seq<bool>): set<nat> {
    set i: nat | i < |bits| && bits[i]
  }

  function Up(r: set<nat>): set<nat> {
    set i | i in r :: i + 1
  }

  lemma StepUp(r: set<nat>)
    requires forall i :: i in r ==> i < 15
    ensures Step(Up(r)) == r
  {
    assert forall i :: i + 1 in Up(r) <==> i in r;
    assert 0 !in Up(r);
  }

  lemma OnesFirst(bits: seq<bool>)
    requires bits != []
    ensures Ones(bits) == Take(Up(Ones(bits[1..])), bits[0])
  {
    var rest := Ones(bits[1..]);
    forall i: nat ensures i in Ones(bits) <==> i in Take(Up(rest), bits[0]) {
      assert 0 !in Up(rest);
      if i > 0 {
        assert i in Up(rest) <==> i - 1 in rest;
      }
    }
  }

  lemma TakeSym(r: set<nat>, s: set<nat>, b: bool)
    ensures Sym(r, Take(s, b)) == Sym(Take(r, b), s)
  {
  }

  lemma {:induction false} FeedWord(r: set<nat>, bits: seq<bool>)
    requires |bits| <= 16
    ensures Feed(r, bits) == Steps(Sym(r, Ones(bits)), |bits|)
    decreases |bits|
  {
    if bits == [] {
      assert Sym(r, Ones(bits)) == r;
    } else {
      var rest := Ones(bits[1..]);
      OnesFirst(bits);
      TakeSym(r, Up(rest), bits[0]);
      StepLinear(Take(r, bits[0]), Up(rest));
      StepUp(rest);
      FeedWord(Step(Take(r, bits[0])), bits[1..]);
    }
  }

  lemma {:induction false} FeedZeros(r: set<nat>, bits: seq<bool>)
    requires forall i :: 0 <= i < |bits| ==> !bits[i]
    ensures Feed(r, bits) == Steps(r, |bits|)
    decreases |bits|
  {
    if bits != [] {
      assert Take(r, bits[0]) == r;
      FeedZeros(Step(r), bits[1..]);
    }
  }

  lemma {:induction false} FeedWithin(r: set<nat>, bits: seq<bool>)
    requires Within(r)
    ensures Within(Feed(r, bits))
    decreases |bits|
  {
    if bits != [] {
      StepWithin(Take(r, bits[0]));
      FeedWithin(Step(Take(r, bits[0])), bits[1..]);
    }
  }

  // ---- parity ----

  /** Whether an odd number of the first `n` bits is set. */
  predicate Odd(r: set<nat>, n: nat) {
    n > 0 && ((n - 1 in r) != Odd(r, n - 1))
  }

  lemma {:induction false} OddSym(a: set<nat>, b: set<nat>, n: nat)
    ensures Odd(Sym(a, b), n) <==> (Odd(a, n) != Odd(b, n))
  {
    if n > 0 {
      OddSym(a, b, n - 1);
    }
  }

  function Lower(r: set<nat>): set<nat> {
    set j | j in r && 0 < j <= 16 :: j - 1
  }

  lemma {:induction false} OddLower(r: set<nat>, n: nat)
    requires n <= 16
    ensures Odd(Lower(r), n) <==> (Odd(r, n + 1) != (0 in r))
  {
    if n > 0 {
      OddLower(r, n - 1);
      assert n - 1 in Lower(r) <==> n in r;
    } else {
      assert !Odd(r, 0);
    }
  }

  lemma {:induction false} OddEmpty(n: nat)
    ensures !Odd({}, n)
  {
    if n > 0 {
      OddEmpty(n - 1);
    }
  }

  lemma {:induction false} OddOne(n: nat)
    requires n > 0
    ensures Odd({0}, n)
  {
    if n > 1 {
      OddOne(n - 1);
    } else {
      assert !Odd({0}, 0);
    }
  }

  lemma OddTaps()
    ensures Odd(TAPS, 16)
  {
    TapsAre();
    assert !Odd(TAPS, 0) && Odd(TAPS, 1) && Odd(TAPS, 2) && Odd(TAPS, 3) && Odd(TAPS, 4);
    assert Odd(TAPS, 5) && Odd(TAPS, 6) && Odd(TAPS, 7) && Odd(TAPS, 8) && Odd(TAPS, 9);
    assert Odd(TAPS, 10) && Odd(TAPS, 11) && Odd(TAPS, 12) && Odd(TAPS, 13) && !Odd(TAPS, 14);
  }

  lemma StepKeepsParity(r: set<nat>)
    requires Within(r)
    ensures Odd(Step(r), 16) == Odd(r, 16)
  {
    OddLower(r, 16);
    assert 16 !in r;
    assert Odd(r, 17) == Odd(r, 16);
    if 0 in r {
      assert forall i: nat {:trigger i in Lower(r)} :: i in Lower(r) <==> i < 16 && i + 1 in r;
      assert Step(r) == Sym(Lower(r), TAPS);
      OddSym(Lower(r), TAPS, 16);
      OddTaps();
    } else {
      assert forall i: nat {:trigger i in Lower(r)} :: i in Lower(r) <==> i < 16 && i + 1 in r;
      assert Step(r) == Lower(r);
    }
  }

  /** Whether an odd number of `bits` is set. */
  predicate OddBits(bits: seq<bool>)
    decreases |bits|
  {
    bits != [] && (bits[0] != OddBits(bits[1..]))
  }

  lemma {:induction false} FeedParity(r: set<nat>, bits: seq<bool>)
    requires Within(r)
    ensures Odd(Feed(r, bits), 16) <==> (Odd(r, 16) != OddBits(bits))
    decreases |bits|
  {
    if bits != [] {
      var t := Take(r, bits[0]);
      OddSym(r, if bits[0] then {0} else {}, 16);
      OddOne(16);
      OddEmpty(16);
      StepKeepsParity(t);
      FeedParity(Step(t), bits[1..]);
    }
  }
}
