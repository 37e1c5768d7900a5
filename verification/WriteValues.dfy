/** What a command writes for a value: the register's envelope, its scale, the
    rounding to a whole number, and how far off it is read back. */
module WriteValues {
  import opened Prelude
  import opened Expressions
  import opened Wire
  import F = Frames

  datatype Kind = Whole(t: Wire.Whole) | Single | Double | Unsupported

  /** A register as far as writing a value to it goes. */
  datatype Spec = Spec(
    coil: bool, min: Option<real>, max: Option<real>, allowed: seq<real>,
    scale: real, offset: real, scaleFrom: Option<Name>, kind: Kind)

  /** IEEE numbers as words, the highest first; a number too large has none. */
  datatype Ieee = Ieee(
    single: real -> Option<seq<int>>, double: real -> Option<seq<int>>,
    readSingle: seq<int> -> real, readDouble: seq<int> -> real)

  /** The scale factors read from the device. */
  type Scales = map<Name, real>

  function Abs(x: real): real {
    if x < 0.0 then -x else x
  }

  // ---- scaling ----

  function Ten(k: int): (r: real)
    ensures r > 0.0
    decreases if k < 0 then -k else k
  {
    if k == 0 then 1.0 else if k > 0 then 10.0 * Ten(k - 1) else Ten(k + 1) / 10.0
  }

  function Truncated(x: real): int {
    if x < 0.0 then -(-x).Floor else x.Floor
  }

  /** A scale of zero counts as none. */
  function ScaleOf(spec: Spec): (r: real)
    ensures r != 0.0
  {
    if spec.scale == 0.0 then 1.0 else spec.scale
  }

  /** The power of ten a value is read with; none when its scale factor is missing
      or out of range. */
  function Factor(spec: Spec, sf: Scales): (r: Option<real>)
    ensures r.Some? ==> r.value > 0.0
  {
    match spec.scaleFrom
    case None => Some(1.0)
    case Some(n) => if n in sf && Abs(sf[n]) <= 10.0 then Some(Ten(Truncated(sf[n]))) else None
  }

  /** Into raw steps, and back. */
  function Scaled(x: real, scale: real, ten: real): real
    requires ten > 0.0
  {
    x * scale / ten
  }

  function Unscaled(raw: real, scale: real, ten: real): real
    requires scale != 0.0
  {
    raw * ten / scale
  }

  /** The number to be packed for an engineering value. */
  function RawFor(spec: Spec, v: real, sf: Scales): Option<real> {
    var ten := Factor(spec, sf);
    if ten.None? then None else Some(Scaled(v - spec.offset, ScaleOf(spec), ten.value))
  }

  /** The engineering value of a number read. */
  function Engineering(spec: Spec, raw: real, sf: Scales): Option<real> {
    var ten := Factor(spec, sf);
    if ten.None? then None else Some(Unscaled(raw, ScaleOf(spec), ten.value) + spec.offset)
  }

  lemma ScaledBack(x: real, scale: real, ten: real)
    requires scale != 0.0 && ten > 0.0
    ensures Unscaled(Scaled(x, scale, ten), scale, ten) == x
  {
    var y := x * scale;
    assert y / ten * ten == y;
    assert y / scale == x;
  }

  /** Scaling there and back is exact. */
  lemma ScalingIsInverse(spec: Spec, v: real, sf: Scales)
    requires Factor(spec, sf).Some?
    ensures RawFor(spec, v, sf).Some? && Engineering(spec, RawFor(spec, v, sf).value, sf) == Some(v)
  {
    ScaledBack(v - spec.offset, ScaleOf(spec), Factor(spec, sf).value);
  }

  // ---- rounding ----

  /** To the nearest whole number, halves to the even one. */
  function Rounded(x: real): int {
    var below := x.Floor;
    var over := x - below as real;
    if over < 0.5 then below
    else if over > 0.5 then below + 1
    else if below % 2 == 0 then below else below + 1
  }

  lemma RoundedIsNear(x: real)
    ensures Abs(Rounded(x) as real - x) <= 0.5
    ensures x == x.Floor as real ==> Rounded(x) as real == x
  {
  }

  /** The rounding is the one whole number no further away than any other, and of
      two equally near ones the even. */
  lemma RoundedIsExact(x: real, n: int)
    ensures Rounded(x) == n <==>
            -0.5 <= n as real - x <= 0.5 && ((n as real - x == 0.5 || n as real - x == -0.5) ==> n % 2 == 0)
  {
  }

  /** The powers of ten a scale factor stands for. */
  lemma TensAre(k: int)
    ensures Ten(0) == 1.0 && Ten(k + 1) == 10.0 * Ten(k)
  {
  }

  /** How far apart two neighbouring readings of a register are. */
  function StepOf(spec: Spec, sf: Scales): real
    requires Factor(spec, sf).Some?
  {
    Factor(spec, sf).value / Abs(ScaleOf(spec))
  }

  lemma AbsOfProduct(x: real, k: real)
    ensures Abs(x * k) == Abs(x) * Abs(k)
  {
  }

  lemma UnscaledDistance(a: real, b: real, ten: real, scale: real)
    requires scale != 0.0 && ten > 0.0
    ensures Abs(Unscaled(a, scale, ten) - Unscaled(b, scale, ten)) == Abs(a - b) * (ten / Abs(scale))
  {
    var k := ten / scale;
    assert Unscaled(a, scale, ten) == a * k && Unscaled(b, scale, ten) == b * k;
    assert a * k - b * k == (a - b) * k;
    AbsOfProduct(a - b, k);
    assert Abs(k) == ten / Abs(scale) by {
      if scale < 0.0 {
        assert k == -(ten / -scale);
      }
    }
  }

  lemma SmallTimes(d: real, step: real)
    requires 0.0 <= d <= 0.5 && step >= 0.0
    ensures d * step <= step / 2.0
  {
  }

  lemma StepIsPositive(ten: real, scale: real)
    requires ten > 0.0 && scale != 0.0
    ensures ten / Abs(scale) > 0.0
  {
  }

  // ---- encoding ----

  /** The bounds and the list of the register itself, in engineering units; they
      are asked of numbers only. */
  predicate InEnvelope(spec: Spec, v: Value) {
    v.Num? ==>
      && (spec.min.Some? ==> spec.min.value <= v.n)
      && (spec.max.Some? ==> v.n <= spec.max.value)
      && (spec.allowed != [] ==> v.n in spec.allowed)
  }

  predicate Truthy(v: Value) {
    match v
    case Num(n) => n != 0.0
    case Flag(b) => b
    case Text(s) => s != ""
    case Nothing => false
  }

  function PackReal(pack: real -> Option<seq<int>>, x: real, o: Order): Attempt<seq<int>> {
    match pack(x)
    case None => Breaks
    case Some(regs) => Done(Ordered(regs, o))
  }

  /** A raw number as the register's words: whole numbers out of range are refused,
      and so is a kind that has no encoding. A double takes the rounded number. */
  function PackRaw(spec: Spec, raw: real, o: Order, ieee: Ieee): Attempt<seq<int>> {
    match spec.kind
    case Whole(t) =>
      if Listed(t) && InRange(Rounded(raw), t) then Done(Pack(Rounded(raw), t, o)) else Refuses
    case Single => PackReal(ieee.single, raw, o)
    case Double => PackReal(ieee.double, Rounded(raw) as real, o)
    case Unsupported => Refuses
  }

  function EncodeValue(spec: Spec, v: Value, sf: Scales, o: Order, f: Format, ieee: Ieee): Attempt<seq<int>> {
    if !InEnvelope(spec, v) then Refuses
    else if spec.coil then Done([if Truthy(v) then 1 else 0])
    else
      match ToNumber(v, f)
      case Refuses => Refuses
      case Breaks => Breaks
      case Done(x) =>
        match RawFor(spec, x, sf)
        case None => Refuses
        case Some(raw) => PackRaw(spec, raw, o, ieee)
  }

  /** What the words of a register are read back as. */
  function ReadBack(spec: Spec, regs: seq<int>, sf: Scales, o: Order, ieee: Ieee): Option<real> {
    match spec.kind
    case Whole(t) => Engineering(spec, Unpack(regs, t, o) as real, sf)
    case Single => Engineering(spec, ieee.readSingle(Ordered(regs, o)), sf)
    case Double => Engineering(spec, ieee.readDouble(Ordered(regs, o)), sf)
    case Unsupported => None
  }

  /** The register's own bounds and list allow the number. */
  predicate Allows(spec: Spec, v: real) {
    && (spec.min.Some? ==> spec.min.value <= v)
    && (spec.max.Some? ==> v <= spec.max.value)
    && (spec.allowed != [] ==> v in spec.allowed)
  }

  /** The scale factor of a register, if it names one, was read and is no further
      from zero than ten. */
  predicate FactorThere(spec: Spec, sf: Scales) {
    spec.scaleFrom.Some? ==> spec.scaleFrom.value in sf && -10.0 <= sf[spec.scaleFrom.value] <= 10.0
  }

  /** The power of ten of a value: of its scale factor, cut off towards zero. */
  function TenOf(spec: Spec, sf: Scales): real
    requires FactorThere(spec, sf)
  {
    if spec.scaleFrom.None? then 1.0
    else
      var e := sf[spec.scaleFrom.value];
      Ten(if e >= 0.0 then e.Floor else -((0.0 - e).Floor))
  }

  lemma FactorIs(spec: Spec, sf: Scales)
    ensures Factor(spec, sf).Some? <==> FactorThere(spec, sf)
    ensures FactorThere(spec, sf) ==> Factor(spec, sf) == Some(TenOf(spec, sf))
  {
  }

  lemma ScaledIs(x: real, scale: real, ten: real, raw: real)
    requires ten > 0.0 && raw * ten == x * scale
    ensures Scaled(x, scale, ten) == raw
  {
    assert raw * ten / ten == raw;
  }

  /** The raw number of an engineering value: as many steps above the offset as the
      scale makes of it, by the power of ten. */
  ghost predicate IsRaw(spec: Spec, v: real, sf: Scales, raw: real)
    requires FactorThere(spec, sf)
  {
    raw * TenOf(spec, sf) == (v - spec.offset) * (if spec.scale == 0.0 then 1.0 else spec.scale)
  }

  lemma RawIs(spec: Spec, v: real, sf: Scales, raw: real)
    requires FactorThere(spec, sf) && IsRaw(spec, v, sf, raw)
    ensures RawFor(spec, v, sf) == Some(raw)
  {
    FactorIs(spec, sf);
    ScaledIs(v - spec.offset, ScaleOf(spec), TenOf(spec, sf), raw);
  }

  /** Exactly which numbers a register of whole numbers takes, and what it sends for
      them: those its own bounds and list allow, by a scale factor that is there,
      whose raw number rounds into its range. */
  lemma TakenExactly(spec: Spec, v: real, sf: Scales, raw: real, o: Order, f: Format, ieee: Ieee)
    requires spec.kind.Whole? && !spec.coil
    requires spec.kind.t.words in {1, 2, 4} && (spec.kind.t.words == 4 ==> spec.kind.t.form != SignAndMagnitude)
    requires FactorThere(spec, sf) ==> IsRaw(spec, v, sf, raw)
    ensures
      var e := EncodeValue(spec, Num(v), sf, o, f, ieee);
      if Allows(spec, v) && FactorThere(spec, sf) && InRange(Rounded(raw), spec.kind.t)
      then e == Done(Pack(Rounded(raw), spec.kind.t, o))
      else e == Refuses
  {
    FactorIs(spec, sf);
    if FactorThere(spec, sf) {
      RawIs(spec, v, sf, raw);
    }
  }

  /** A coil takes what its bounds allow: nothing, zero, False and the empty text
      switch it off, everything else on. */
  lemma CoilTakes(spec: Spec, v: Value, sf: Scales, o: Order, f: Format, ieee: Ieee)
    requires spec.coil
    ensures EncodeValue(spec, v, sf, o, f, ieee) ==
            if v.Num? && !Allows(spec, v.n) then Refuses
            else if v == Num(0.0) || v == Flag(false) || v == Text("") || v == Nothing then Done([0]) else Done([1])
  {
  }

  /** Other values are asked for no bounds: True and False are 1 and 0, a text is the
      number it reads as, and what is no number is not written. */
  lemma OthersTake(spec: Spec, v: Value, sf: Scales, o: Order, f: Format, ieee: Ieee)
    requires !spec.coil && !v.Num?
    ensures
      var e := EncodeValue(spec, v, sf, o, f, ieee);
      && (forall x :: CountsAs(v, x, f) ==> e == EncodeValue(spec.(min := None, max := None, allowed := []), Num(x), sf, o, f, ieee))
      && (e.Done? ==> exists x :: CountsAs(v, x, f))
  {
    if ToNumber(v, f).Done? {
      assert CountsAs(v, ToNumber(v, f).value, f);
      EnvelopeAside(spec, v, sf, o, f, ieee);
    }
    forall x | CountsAs(v, x, f) ensures ToNumber(v, f) == Done(x) {
      CountsIs(v, x, f);
    }
  }

  lemma EnvelopeAside(spec: Spec, v: Value, sf: Scales, o: Order, f: Format, ieee: Ieee)
    requires !spec.coil && !v.Num? && ToNumber(v, f).Done?
    ensures EncodeValue(spec, v, sf, o, f, ieee) ==
            EncodeValue(spec.(min := None, max := None, allowed := []), Num(ToNumber(v, f).value), sf, o, f, ieee)
  {
  }

  /** What no register but a coil takes: a number its bounds or its list do not allow, a
      text that is no number, a value whose scale factor is not there, and anything where
      the kind of the register has no encoding. Nothing at all breaks off. */
  lemma NotTaken(spec: Spec, v: Value, sf: Scales, o: Order, f: Format, ieee: Ieee)
    requires !spec.coil
    ensures
      var e := EncodeValue(spec, v, sf, o, f, ieee);
      && (v.Num? && !Allows(spec, v.n) ==> e == Refuses)
      && (v.Text? && f.parse(v.s).None? ==> e == Refuses)
      && (v != Nothing && !FactorThere(spec, sf) ==> e == Refuses)
      && (v != Nothing && (spec.kind.Unsupported? || (spec.kind.Whole? && spec.kind.t.words !in {1, 2, 4})) ==> e == Refuses)
      && (v == Nothing ==> e == Breaks)
  {
    FactorIs(spec, sf);
  }

  /** A single takes the raw number as it is, a double rounded to a whole number. */
  lemma FloatsTake(spec: Spec, v: real, sf: Scales, raw: real, o: Order, f: Format, ieee: Ieee)
    requires (spec.kind.Single? || spec.kind.Double?) && !spec.coil && Allows(spec, v)
    requires FactorThere(spec, sf) && IsRaw(spec, v, sf, raw)
    ensures
      var regs := if spec.kind.Single? then ieee.single(raw) else ieee.double(Rounded(raw) as real);
      EncodeValue(spec, Num(v), sf, o, f, ieee) == if regs.None? then Breaks else Done(Ordered(regs.value, o))
  {
    RawIs(spec, v, sf, raw);
  }

  lemma NearRawIsNear(scale: real, ten: real, raw: real, n: real, x: real)
    requires scale != 0.0 && ten > 0.0 && Abs(n - raw) <= 0.5 && Unscaled(raw, scale, ten) == x
    ensures Abs(Unscaled(n, scale, ten) - x) <= ten / Abs(scale) / 2.0
  {
    UnscaledDistance(n, raw, ten, scale);
    StepIsPositive(ten, scale);
    SmallTimes(Abs(n - raw), ten / Abs(scale));
  }

  /** Rounding the raw number moves the engineering value by half a step at most. */
  lemma RoundedReadsBack(spec: Spec, v: real, sf: Scales)
    requires Factor(spec, sf).Some?
    ensures
      var raw := RawFor(spec, v, sf).value;
      var got := Engineering(spec, Rounded(raw) as real, sf);
      && got.Some? && Abs(got.value - v) <= StepOf(spec, sf) / 2.0
      && (raw == raw.Floor as real ==> got.value == v)
  {
    var raw, ten, scale := RawFor(spec, v, sf).value, Factor(spec, sf).value, ScaleOf(spec);
    RoundedIsNear(raw);
    ScaledBack(v - spec.offset, scale, ten);
    NearRawIsNear(scale, ten, raw, Rounded(raw) as real, v - spec.offset);
  }

  /** A number that was written to a register of whole numbers reads back within
      half a step of itself, and as itself when it falls on a step. */
  lemma WrittenWithinHalfAStep(spec: Spec, v: real, sf: Scales, o: Order, f: Format, ieee: Ieee)
    requires spec.kind.Whole? && !spec.coil && EncodeValue(spec, Num(v), sf, o, f, ieee).Done?
    ensures Factor(spec, sf).Some?
    ensures
      var got := ReadBack(spec, EncodeValue(spec, Num(v), sf, o, f, ieee).value, sf, o, ieee);
      var raw := RawFor(spec, v, sf).value;
      && got.Some? && Abs(got.value - v) <= StepOf(spec, sf) / 2.0
      && (raw == raw.Floor as real ==> got.value == v)
  {
    var raw := RawFor(spec, v, sf).value;
    assert EncodeValue(spec, Num(v), sf, o, f, ieee) == PackRaw(spec, raw, o, ieee);
    PackedUnpacks(Rounded(raw), spec.kind.t, o);
    RoundedReadsBack(spec, v, sf);
  }

  // ---- the encoder of a run ----

  /** The words of a declared write: its expression, then its register's encoding. */
  function EncodeWrite(specs: map<Name, Spec>, sf: Scales, o: Order, f: Format, ieee: Ieee,
                       w: F.Write, params: Args): Attempt<seq<int>> {
    match Evaluate(w.value, params, f)
    case Refuses => Refuses
    case Breaks => Breaks
    case Done(v) => if w.register in specs then EncodeValue(specs[w.register], v, sf, o, f, ieee) else Refuses
  }

  /** A write whose expression has no value, or whose register has no encoding, sends
      nothing: refused where that is refused, broken off where that breaks off. */
  lemma WritesNeedValues(specs: map<Name, Spec>, sf: Scales, o: Order, f: Format, ieee: Ieee, w: F.Write, params: Args)
    ensures
      var e := EncodeWrite(specs, sf, o, f, ieee, w, params);
      match Evaluate(w.value, params, f)
      case Refuses => e == Refuses
      case Breaks => e == Breaks
      case Done(v) => e == if w.register in specs then EncodeValue(specs[w.register], v, sf, o, f, ieee) else Refuses
  {
  }

  function EncoderOf(specs: map<Name, Spec>, o: Order, f: Format, ieee: Ieee): Scales -> F.Encoder {
    sf => (w, params) => EncodeWrite(specs, sf, o, f, ieee, w, params)
  }

  function WordsOf(spec: Spec): nat {
    if spec.coil then 1
    else
      match spec.kind
      case Whole(t) => t.words
      case Single => 2
      case Double => 4
      case Unsupported => 1
  }

  ghost predicate IeeeWords(ieee: Ieee) {
    && (forall x :: ieee.single(x).Some? ==> |ieee.single(x).value| == 2)
    && (forall x :: ieee.double(x).Some? ==> |ieee.double(x).value| == 4)
  }

  lemma OrderKeepsLength(regs: seq<int>, o: Order)
    ensures |Ordered(regs, o)| == |regs|
  {
  }

  lemma EncodedWidth(spec: Spec, v: Value, sf: Scales, o: Order, f: Format, ieee: Ieee)
    requires IeeeWords(ieee) && EncodeValue(spec, v, sf, o, f, ieee).Done?
    ensures |EncodeValue(spec, v, sf, o, f, ieee).value| == WordsOf(spec)
  {
    if !spec.coil {
      var raw := RawFor(spec, ToNumber(v, f).value, sf).value;
      match spec.kind {
        case Whole(t) => PackedUnpacks(Rounded(raw), t, o);
        case Single => OrderKeepsLength(ieee.single(raw).value, o);
        case Double => OrderKeepsLength(ieee.double(Rounded(raw) as real).value, o);
        case Unsupported =>
      }
    }
  }

  /** Every write sends as many words as its register has, with whatever scale
      factors: what the merging of frames rests on. */
  lemma EncoderKeepsWidths(specs: map<Name, Spec>, regs: map<Name, F.Reg>, sf: Scales, o: Order, f: Format, ieee: Ieee)
    requires IeeeWords(ieee) && forall n :: n in regs ==> n in specs && regs[n].count == WordsOf(specs[n])
    ensures F.Encodes(EncoderOf(specs, o, f, ieee)(sf), regs)
  {
    var enc := EncoderOf(specs, o, f, ieee)(sf);
    forall w: F.Write, p | w.register in regs && enc(w, p).Done? ensures |enc(w, p).value| == regs[w.register].count {
      EncodedWidth(specs[w.register], Evaluate(w.value, p, f).value, sf, o, f, ieee);
    }
  }
}
