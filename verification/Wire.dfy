/** Whole numbers as 16-bit registers: the forms a register can have, and the
    four orders its bytes and words can travel in. */
module Wire {
  import opened Prelude

  const BYTE := 0x100
  const WORD := 0x1_0000

  /** Whether the two bytes of a word, and the words of a value, change places. */
  datatype Order = Order(byteSwap: bool, wordSwap: bool)

  ghost predicate AreWords(regs: seq<int>) {
    forall i :: 0 <= i < |regs| ==> 0 <= regs[i] < WORD
  }

  function SwapBytes(w: int): int {
    (w % BYTE) * BYTE + (w / BYTE) % BYTE
  }

  function SwapEach(regs: seq<int>): (r: seq<int>)
    ensures |r| == |regs| && forall i :: 0 <= i < |r| ==> r[i] == SwapBytes(regs[i])
  {
    if regs == [] then [] else [SwapBytes(regs[0])] + SwapEach(regs[1..])
  }

  function Reversed(regs: seq<int>): (r: seq<int>)
    ensures |r| == |regs| && forall i :: 0 <= i < |r| ==> r[i] == regs[|regs| - 1 - i]
  {
    if regs == [] then [] else Reversed(regs[1..]) + [regs[0]]
  }

  /** Bytes first, then words: both ways alike. */
  function Ordered(regs: seq<int>, o: Order): seq<int> {
    var bytes := if o.byteSwap then SwapEach(regs) else regs;
    if o.wordSwap then Reversed(bytes) else bytes
  }

  lemma SwappedTwice(w: int)
    requires 0 <= w < WORD
    ensures 0 <= SwapBytes(w) < WORD && SwapBytes(SwapBytes(w)) == w
  {
    var hi, lo := w / BYTE, w % BYTE;
    assert w == hi * BYTE + lo && 0 <= hi < BYTE;
    assert SwapBytes(w) == lo * BYTE + hi;
    assert (lo * BYTE + hi) % BYTE == hi && (lo * BYTE + hi) / BYTE == lo;
  }

  lemma SwappedEachTwice(regs: seq<int>)
    requires AreWords(regs)
    ensures AreWords(SwapEach(regs)) && SwapEach(SwapEach(regs)) == regs
  {
    forall i | 0 <= i < |regs| ensures 0 <= SwapBytes(regs[i]) < WORD && SwapBytes(SwapBytes(regs[i])) == regs[i] {
      SwappedTwice(regs[i]);
    }
  }

  lemma ReversedTwice(regs: seq<int>)
    ensures Reversed(Reversed(regs)) == regs && SwapEach(Reversed(regs)) == Reversed(SwapEach(regs))
  {
  }

  /** Reading puts back the order that writing made, in all four orders. */
  lemma OrderedTwice(regs: seq<int>, o: Order)
    requires AreWords(regs)
    ensures Ordered(Ordered(regs, o), o) == regs && |Ordered(regs, o)| == |regs|
  {
    SwappedEachTwice(regs);
    ReversedTwice(regs);
    ReversedTwice(SwapEach(regs));
  }

  // ---- a number as words, the highest first ----

  function Span(n: nat): nat {
    if n == 0 then 1 else WORD * Span(n - 1)
  }

  function Split(u: nat, n: nat): seq<int> {
    if n == 0 then [] else Split(u / WORD, n - 1) + [u % WORD]
  }

  function Joined(regs: seq<int>): int {
    if regs == [] then 0 else Joined(regs[..|regs| - 1]) * WORD + regs[|regs| - 1]
  }

  lemma {:induction false} SplitJoins(u: nat, n: nat)
    requires u < Span(n)
    ensures |Split(u, n)| == n && AreWords(Split(u, n)) && Joined(Split(u, n)) == u
  {
    if n > 0 {
      Quotient(u, Span(n - 1));
      SplitJoins(u / WORD, n - 1);
      var s := Split(u, n);
      assert s[..n - 1] == Split(u / WORD, n - 1);
    }
  }

  lemma Quotient(u: nat, span: nat)
    requires u < WORD * span
    ensures u / WORD < span
  {
  }

  // ---- the forms of a whole number ----

  datatype Form = Unsigned | Signed | SignAndMagnitude

  datatype Whole = Whole(words: nat, form: Form)

  predicate Listed(t: Whole) {
    t.words == 1 || t.words == 2 || (t.words == 4 && t.form != SignAndMagnitude)
  }

  function Half(t: Whole): int {
    Span(t.words) / 2
  }

  /** What a register of the form can hold. */
  predicate InRange(n: int, t: Whole) {
    match t.form
    case Unsigned => 0 <= n < Span(t.words)
    case Signed => -Half(t) <= n < Half(t)
    case SignAndMagnitude => -Half(t) < n < Half(t)
  }

  function Pattern(n: int, t: Whole): int {
    match t.form
    case Unsigned => n
    case Signed => if n < 0 then n + Span(t.words) else n
    case SignAndMagnitude => if n < 0 then Half(t) - n else n
  }

  function NumberOf(p: int, t: Whole): int {
    match t.form
    case Unsigned => p
    case Signed => if p >= Half(t) then p - Span(t.words) else p
    case SignAndMagnitude => if p >= Half(t) then Half(t) - p else p
  }

  function Pack(n: int, t: Whole, o: Order): seq<int>
    requires Listed(t) && InRange(n, t)
  {
    PatternFits(n, t);
    Ordered(Split(Pattern(n, t), t.words), o)
  }

  function Unpack(regs: seq<int>, t: Whole, o: Order): int {
    NumberOf(Joined(Ordered(regs, o)), t)
  }

  lemma SpanIsEven(t: Whole)
    requires Listed(t)
    ensures Span(t.words) == 2 * Half(t) && Half(t) > 0
  {
    var n := t.words - 1;
    assert Span(t.words) == WORD * Span(n) == 2 * (0x8000 * Span(n));
    SpanIsPositive(n);
  }

  lemma {:induction false} SpanIsPositive(n: nat)
    ensures Span(n) > 0
  {
    if n > 0 {
      SpanIsPositive(n - 1);
    }
  }

  lemma PatternFits(n: int, t: Whole)
    requires Listed(t) && InRange(n, t)
    ensures 0 <= Pattern(n, t) < Span(t.words) && NumberOf(Pattern(n, t), t) == n
  {
    SpanIsEven(t);
  }

  /** What is packed unpacks to itself, in every form and order; the words are as
      many as the form has. */
  lemma PackedUnpacks(n: int, t: Whole, o: Order)
    requires Listed(t) && InRange(n, t)
    ensures |Pack(n, t, o)| == t.words && Unpack(Pack(n, t, o), t, o) == n
  {
    PatternFits(n, t);
    SplitJoins(Pattern(n, t), t.words);
    OrderedTwice(Split(Pattern(n, t), t.words), o);
  }

  /** What each kind of register holds, in numbers. */
  lemma RangesAre(n: int)
    ensures InRange(n, Whole(1, Unsigned)) <==> 0 <= n <= 65535
    ensures InRange(n, Whole(1, Signed)) <==> -32768 <= n <= 32767
    ensures InRange(n, Whole(1, SignAndMagnitude)) <==> -32767 <= n <= 32767
    ensures InRange(n, Whole(2, Unsigned)) <==> 0 <= n <= 0xFFFF_FFFF
    ensures InRange(n, Whole(2, Signed)) <==> -0x8000_0000 <= n <= 0x7FFF_FFFF
    ensures InRange(n, Whole(2, SignAndMagnitude)) <==> -0x7FFF_FFFF <= n <= 0x7FFF_FFFF
    ensures InRange(n, Whole(4, Unsigned)) <==> 0 <= n <= 0xFFFF_FFFF_FFFF_FFFF
    ensures InRange(n, Whole(4, Signed)) <==> -0x8000_0000_0000_0000 <= n <= 0x7FFF_FFFF_FFFF_FFFF
  {
    SpansAre();
  }

  // ---- where each word and byte goes ----

  lemma DivDiv(u: nat, a: nat, b: nat)
    requires a > 0 && b > 0
    ensures a * b > 0 && u / a / b == u / (a * b)
  {
    var q, r := u / a, u % a;
    var x, y := q / b, q % b;
    assert u == a * q + r && q == b * x + y;
    assert a * q == (a * b) * x + a * y by {
      assert a * (b * x + y) == a * (b * x) + a * y;
      assert a * (b * x) == (a * b) * x;
    }
    var rest := a * y + r;
    assert rest < a * b by {
      assert y + 1 <= b;
      assert a * (y + 1) <= a * b;
      assert a * (y + 1) == a * y + a;
    }
    QuotientIs(u, a * b, x, rest);
  }

  lemma QuotientIs(u: int, d: int, q: int, r: int)
    requires d > 0 && u == d * q + r && 0 <= r < d
    ensures u / d == q
  {
    var k := u / d - q;
    assert u == d * (u / d) + u % d;
    assert d * k == r - u % d by {
      assert d * (u / d) - d * q == d * k;
    }
    if k > 0 {
      AtLeastOnce(d, k);
      assert false;
    } else if k < 0 {
      AtLeastOnce(d, -k);
      assert false;
    }
  }

  lemma AtLeastOnce(d: int, k: int)
    requires d > 0 && k >= 1
    ensures d * k >= d
  {
  }

  lemma {:induction false} SplitAt(u: nat, n: nat, k: nat)
    requires k < n
    ensures |Split(u, n)| == n && Span(n - 1 - k) > 0
    ensures Split(u, n)[k] == (u / Span(n - 1 - k)) % WORD
  {
    SpanIsPositive(n - 1 - k);
    SplitLength(u, n);
    SplitLength(u / WORD, n - 1);
    if k < n - 1 {
      SplitAt(u / WORD, n - 1, k);
      SpanIsPositive(n - 2 - k);
      DivDiv(u, WORD, Span(n - 2 - k));
    }
  }

  lemma {:induction false} SplitLength(u: nat, n: nat)
    ensures |Split(u, n)| == n
  {
    if n > 0 {
      SplitLength(u / WORD, n - 1);
    }
  }

  /** A word of four, eight or sixteen bytes spans these many numbers. */
  lemma SpansAre()
    ensures Span(0) == 1 && Span(1) == 0x1_0000 && Span(2) == 0x1_0000_0000
    ensures Span(3) == 0x1_0000_0000_0000 && Span(4) == 0x1_0000_0000_0000_0000
  {
    assert Span(1) == WORD * Span(0) && Span(2) == WORD * Span(1);
    assert Span(3) == WORD * Span(2) && Span(4) == WORD * Span(3);
  }

  lemma SignedPattern(n: int, span: int)
    requires span > 0 && -span <= n < span
    ensures n % span == if n < 0 then n + span else n
  {
    if n >= 0 {
      QuotientIs(n, span, 0, n);
    } else if n == -span {
      QuotientIs(n, span, -1, 0);
    } else {
      QuotientIs(n, span, -1, n + span);
    }
  }

  lemma OrderedAt(regs: seq<int>, o: Order, k: nat)
    requires k < |regs| && AreWords(regs)
    ensures |Ordered(regs, o)| == |regs|
    ensures
      var w := regs[if o.wordSwap then |regs| - 1 - k else k];
      0 <= w < 0x1_0000 && Ordered(regs, o)[k] == if o.byteSwap then (w % 0x100) * 0x100 + w / 0x100 else w
  {
    var w := regs[if o.wordSwap then |regs| - 1 - k else k];
    assert 0 <= w / 0x100 < 0x100;
  }

  lemma PatternIs(n: int, t: Whole)
    requires Listed(t) && InRange(n, t)
    ensures Span(t.words) > 0
    ensures
      var span := Span(t.words);
      Pattern(n, t) == if t.form == SignAndMagnitude && n < 0 then span / 2 - n else n % span
  {
    SpanIsEven(t);
    SignedPattern(n, Span(t.words));
  }

  /** The words of a packed number: the highest first, or the lowest when words are
      swapped; each with its high byte first, or its low byte when bytes are. Signed
      numbers are taken modulo the span; a sign with a magnitude is the top bit. */
  lemma PackedPlaces(n: int, t: Whole, o: Order, k: nat)
    requires Listed(t) && InRange(n, t) && k < t.words
    ensures Span(t.words) > 0 && Span(k) > 0 && Span(t.words - 1 - k) > 0
    ensures
      var span := Span(t.words);
      var u := if t.form == SignAndMagnitude && n < 0 then span / 2 - n else n % span;
      var w := (u / Span(if o.wordSwap then k else t.words - 1 - k)) % 0x1_0000;
      && |Pack(n, t, o)| == t.words
      && Pack(n, t, o)[k] == if o.byteSwap then (w % 0x100) * 0x100 + w / 0x100 else w
  {
    PatternFits(n, t);
    PatternIs(n, t);
    SpanIsPositive(k);
    SpanIsPositive(t.words - 1 - k);
    WordsPlaced(Pattern(n, t), t.words, o, k);
  }

  lemma WordsPlaced(u: nat, n: nat, o: Order, k: nat)
    requires u < Span(n) && k < n
    ensures Span(k) > 0 && Span(n - 1 - k) > 0 && |Ordered(Split(u, n), o)| == n
    ensures
      var w := (u / Span(if o.wordSwap then k else n - 1 - k)) % 0x1_0000;
      Ordered(Split(u, n), o)[k] == if o.byteSwap then (w % 0x100) * 0x100 + w / 0x100 else w
  {
    SplitJoins(u, n);
    SplitAt(u, n, k);
    SplitAt(u, n, n - 1 - k);
    OrderedAt(Split(u, n), o, k);
  }
}
