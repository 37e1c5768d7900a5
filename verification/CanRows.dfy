/** CAN rows of a template: which ones pass the checks, and what decoding
    makes of a row that did. */
module CanRows {
  import opened Prelude
  import opened NatBits
  import opened CanSignal

  const STD_ID_MAX := 0x7FF
  const EXT_ID_MAX := 0x1FFFFFFF
  const MAX_FRAME_BITS := 64

  /** A row's data type: text with its number of registers (if readable), IEEE
      numbers of 32 or 64 bits, integers of a container width, or a word the
      decoder does not know. */
  datatype DataType =
    | Text(registers: Option<nat>)
    | Float32
    | Float64
    | Integer(width: nat, signed: bool)
    | Unknown

  predicate Listed(t: DataType) {
    t.Integer? ==> t.width == 16 || t.width == 32 || t.width == 64
  }

  datatype Given<T> = Absent | Bad | Good(value: T)

  /** A row as written: each field absent, unusable, or a value. */
  datatype Row = Row(
    id: Given<int>, extended: Given<bool>, startBit: Given<int>, length: Given<int>,
    order: Given<Order>, dataType: Given<DataType>, topic: bool, path: bool)

  datatype Fault =
    | NoId | ExtendedNotBool | IdNotNumber | IdTooWide | StartRange | LengthRange
    | OrderUnknown | OrderMissing | BigText | TooLong | TypeMismatch | HasTopic | HasPath

  // ---- decoding ----

  datatype Value =
    | Chars(bytes: seq<Byte>)
    | Ieee32(pattern: nat)
    | Ieee64(pattern: nat)
    | Number(n: int)

  datatype Failure = NotOnByte | TooShort | TooWide | NoSign

  datatype Decoded = Got(value: Value) | Failed(why: Failure)

  function DecodeOrder(r: Row): Order {
    if r.order.Good? then r.order.value else Little
  }

  /** The type a row has: the checks and both loaders take one that states none
      for a 32-bit float. */
  function TypeOf(r: Row): DataType {
    match r.dataType
    case Good(t) => t
    case Absent => Float32
    case Bad => Unknown
  }

  /** An unknown word is read as an unsigned number. */
  function IsSigned(t: DataType): bool {
    t.Integer? && t.signed
  }

  function SignedValue(raw: nat, length: nat): int
    requires length >= 1
  {
    if Bit(raw, length - 1) then raw - Pow2(length) else raw
  }

  /** One row's value out of a frame. */
  function Decode(data: seq<Byte>, startBit: nat, length: nat, order: Order, t: DataType): Decoded {
    if t.Text? then
      if startBit % 8 != 0 || length % 8 != 0 then Failed(NotOnByte)
      else if startBit / 8 + length / 8 > |data| && length > 0 then Failed(TooShort)
      else if length == 0 then Got(Chars([]))
      else Got(Chars(data[startBit / 8..startBit / 8 + length / 8]))
    else
      match ExtractRaw(data, startBit, length, order)
      case None => Failed(TooShort)
      case Some(raw) =>
        if t.Float32? then (if raw < Pow2(32) then Got(Ieee32(raw)) else Failed(TooWide))
        else if t.Float64? then (if raw < Pow2(64) then Got(Ieee64(raw)) else Failed(TooWide))
        else if IsSigned(t) then
          if length == 0 then Failed(NoSign) else Got(Number(SignedValue(raw, length)))
        else Got(Number(raw))
  }

  // ---- the checks ----

  predicate IsCan(r: Row) {
    r.id != Absent || r.extended != Absent || r.startBit != Absent || r.length != Absent || r.order != Absent
  }

  predicate StartOk(r: Row) {
    r.startBit.Good? && 0 <= r.startBit.value < MAX_FRAME_BITS
  }

  predicate LengthOk(r: Row) {
    r.length.Good? && 1 <= r.length.value <= MAX_FRAME_BITS
  }

  predicate MotorolaText(r: Row) {
    TypeOf(r).Text? && r.order == Good(Big)
  }

  predicate TypeFits(t: DataType, startBit: nat, length: nat) {
    match t
    case Text(n) => n.Some? && n.value * 16 == length && startBit % 8 == 0
    case Float32 => length == 32
    case Float64 => length == 64
    case Integer(w, _) => length <= w
    case Unknown => false
  }

  /** Which faults a row has. */
  predicate Faulty(r: Row, f: Fault) {
    if !IsCan(r) then false
    else if r.id == Absent then f == NoId
    else
      match f
      case NoId => false
      case ExtendedNotBool => r.extended == Bad
      case IdNotNumber => r.id == Bad || r.id.value < 0
      case IdTooWide =>
        r.id.Good? && r.id.value >= 0 &&
        r.id.value > (if r.extended == Good(true) then EXT_ID_MAX else STD_ID_MAX)
      case StartRange => !StartOk(r)
      case LengthRange => !LengthOk(r)
      case OrderUnknown => r.order == Bad
      case OrderMissing => r.order == Absent && LengthOk(r) && r.length.value > 8
      case BigText => MotorolaText(r)
      case TooLong =>
        !MotorolaText(r) && StartOk(r) && LengthOk(r) &&
        BitsNeeded(r.startBit.value, r.length.value, DecodeOrder(r)) > MAX_FRAME_BITS
      case TypeMismatch =>
        !MotorolaText(r) && LengthOk(r) &&
        !TypeFits(TypeOf(r), if StartOk(r) then r.startBit.value else 0, r.length.value)
      case HasTopic => !MotorolaText(r) && r.topic
      case HasPath => !MotorolaText(r) && r.path
  }

  predicate AboutId(f: Fault) {
    f == ExtendedNotBool || f == IdNotNumber || f == IdTooWide
  }

  predicate AboutPlace(f: Fault) {
    f == StartRange || f == LengthRange || f == OrderUnknown || f == OrderMissing
  }

  method IdErrors(r: Row) returns (errs: seq<Fault>)
    requires r.id != Absent
    ensures forall f :: f in errs <==> AboutId(f) && Faulty(r, f)
  {
    errs := [];
    var ext := r.extended == Good(true);
    if r.extended == Bad {
      errs := errs + [ExtendedNotBool];
    }
    if r.id == Bad || r.id.value < 0 {
      errs := errs + [IdNotNumber];
    } else if ext && r.id.value > EXT_ID_MAX {
      errs := errs + [IdTooWide];
    } else if !ext && r.id.value > STD_ID_MAX {
      errs := errs + [IdTooWide];
    }
  }

  method PlaceErrors(r: Row) returns (errs: seq<Fault>)
    requires r.id != Absent
    ensures forall f :: f in errs <==> AboutPlace(f) && Faulty(r, f)
  {
    errs := [];
    var lengthOk := r.length.Good? && 1 <= r.length.value <= MAX_FRAME_BITS;
    if !(r.startBit.Good? && 0 <= r.startBit.value < MAX_FRAME_BITS) {
      errs := errs + [StartRange];
    }
    if !lengthOk {
      errs := errs + [LengthRange];
    }
    if r.order == Bad {
      errs := errs + [OrderUnknown];
    }
    if r.order == Absent && lengthOk && r.length.value > 8 {
      errs := errs + [OrderMissing];
    }
  }

  method RestErrors(r: Row) returns (errs: seq<Fault>)
    requires r.id != Absent
    ensures forall f :: f in errs <==> !AboutId(f) && !AboutPlace(f) && Faulty(r, f)
  {
    errs := [];
    var t, order := TypeOf(r), DecodeOrder(r);
    if t.Text? && order == Big {
      return [BigText];
    }
    if StartOk(r) && LengthOk(r) && BitsNeeded(r.startBit.value, r.length.value, order) > MAX_FRAME_BITS {
      errs := errs + [TooLong];
    }
    if LengthOk(r) && !TypeFits(t, if StartOk(r) then r.startBit.value else 0, r.length.value) {
      errs := errs + [TypeMismatch];
    }
    if r.topic {
      errs := errs + [HasTopic];
    }
    if r.path {
      errs := errs + [HasPath];
    }
  }

  /** The checks of one row: everything that is wrong with it, and nothing else. */
  method RowErrors(r: Row) returns (errs: seq<Fault>)
    ensures forall f :: f in errs <==> Faulty(r, f)
  {
    if r.id == Absent && r.extended == Absent && r.startBit == Absent && r.length == Absent && r.order == Absent {
      return [];
    }
    if r.id == Absent {
      return [NoId];
    }
    var ids := IdErrors(r);
    var places := PlaceErrors(r);
    var rest := RestErrors(r);
    errs := ids + places + rest;
  }

  // ---- what an accepted row decodes to ----

  /** A CAN row the checks have nothing against. */
  ghost predicate Accepted(r: Row) {
    r.id != Absent && (r.dataType.Good? ==> Listed(r.dataType.value)) && forall f :: !Faulty(r, f)
  }

  lemma AcceptedShape(r: Row)
    requires Accepted(r)
    ensures StartOk(r) && LengthOk(r) && !MotorolaText(r)
    ensures BitsNeeded(r.startBit.value, r.length.value, DecodeOrder(r)) <= 64
    ensures TypeFits(TypeOf(r), r.startBit.value, r.length.value)
  {
    assert !Faulty(r, StartRange) && !Faulty(r, LengthRange) && !Faulty(r, BigText);
    assert !Faulty(r, TooLong) && !Faulty(r, TypeMismatch);
  }

  /** The lengths a type can have; a row that states none is a 32-bit float. */
  predicate TypeTakes(given: Given<DataType>, startBit: int, length: int) {
    match given
    case Absent => length == 32
    case Bad => false
    case Good(Text(n)) => n.Some? && length == 16 * n.value && startBit % 8 == 0
    case Good(Float32) => length == 32
    case Good(Float64) => length == 64
    case Good(Integer(w, _)) => length <= w
    case Good(Unknown) => false
  }

  /** Every bit named is one of a frame's eight bytes. */
  predicate WithinEight(startBit: nat, length: nat, order: Order) {
    forall k :: k in SignalBits(startBit, length, order) ==> k < 64
  }

  lemma NeededIs(startBit: nat, length: nat, order: Order)
    requires length >= 1
    ensures BitsNeeded(startBit, length, order) <= 64 <==> WithinEight(startBit, length, order)
  {
    var eight: seq<Byte> := seq(8, _ => 0);
    FailsOutside(eight, startBit, length, order);
    assert 8 * |eight| == 64;
  }

  /** Which rows the checks have nothing against: a frame of 11 bits, or of 29 when
      that is said, a place within eight bytes, an order where one is needed, a type
      that takes that many bits, and no way of another protocol. */
  lemma FaultlessExactly(r: Row)
    requires r.id != Absent
    ensures (forall f :: !Faulty(r, f)) <==>
              && r.id.Good? && r.extended != Bad
              && 0 <= r.id.value <= (if r.extended == Good(true) then 0x1FFF_FFFF else 0x7FF)
              && r.startBit.Good? && 0 <= r.startBit.value < 64 && r.length.Good? && 1 <= r.length.value <= 64
              && r.order != Bad && (r.order == Absent ==> r.length.value <= 8)
              && WithinEight(r.startBit.value, r.length.value, if r.order == Good(Big) then Big else Little)
              && TypeTakes(r.dataType, r.startBit.value, r.length.value)
              && !(r.dataType.Good? && r.dataType.value.Text? && r.order == Good(Big))
              && !r.topic && !r.path
  {
    if StartOk(r) && LengthOk(r) {
      NeededIs(r.startBit.value, r.length.value, DecodeOrder(r));
      assert TypeFits(TypeOf(r), r.startBit.value, r.length.value) <==> TypeTakes(r.dataType, r.startBit.value, r.length.value);
    }
    if forall f :: !Faulty(r, f) {
      assert !Faulty(r, IdNotNumber) && !Faulty(r, ExtendedNotBool) && !Faulty(r, IdTooWide) && !Faulty(r, StartRange);
      assert !Faulty(r, LengthRange) && !Faulty(r, OrderUnknown) && !Faulty(r, OrderMissing) && !Faulty(r, BigText);
      assert !Faulty(r, TooLong) && !Faulty(r, TypeMismatch) && !Faulty(r, HasTopic) && !Faulty(r, HasPath);
    }
  }

  /** What each fault of a row with a frame means; text in Motorola order is told alone of
      its place, type and way. */
  lemma FaultsMean(r: Row)
    requires r.id != Absent
    ensures
      var order := if r.order == Good(Big) then Big else Little;
      var text := r.dataType.Good? && r.dataType.value.Text?;
      var start, length := r.startBit.Good? && 0 <= r.startBit.value <= 63, r.length.Good? && 1 <= r.length.value <= 64;
      && !Faulty(r, NoId)
      && (Faulty(r, ExtendedNotBool) <==> r.extended == Bad)
      && (Faulty(r, IdNotNumber) <==> r.id == Bad || r.id.value < 0)
      && (Faulty(r, IdTooWide) <==> r.id.Good? && r.id.value > if r.extended == Good(true) then 0x1FFF_FFFF else 0x7FF)
      && (Faulty(r, StartRange) <==> !start) && (Faulty(r, LengthRange) <==> !length)
      && (Faulty(r, OrderUnknown) <==> r.order == Bad)
      && (Faulty(r, OrderMissing) <==> r.order == Absent && length && r.length.value > 8)
      && (Faulty(r, BigText) <==> text && order == Big)
      && (Faulty(r, TooLong) <==>
            !(text && order == Big) && start && length && !WithinEight(r.startBit.value, r.length.value, order))
      && (Faulty(r, TypeMismatch) <==>
            !(text && order == Big) && length &&
            !TypeTakes(r.dataType, if start then r.startBit.value else 0, r.length.value))
      && (Faulty(r, HasTopic) <==> !(text && order == Big) && r.topic)
      && (Faulty(r, HasPath) <==> !(text && order == Big) && r.path)
  {
    if StartOk(r) && LengthOk(r) {
      NeededIs(r.startBit.value, r.length.value, DecodeOrder(r));
    }
  }

  /** A row without a frame: nothing is wrong with it when it says nothing of CAN, and
      the missing frame alone when it does. */
  lemma NoFrameIsOneFault(r: Row, f: Fault)
    requires r.id == Absent
    ensures Faulty(r, f) <==> f == NoId && (r.extended != Absent || r.startBit != Absent || r.length != Absent || r.order != Absent)
  {
  }

  /** When a value comes out of a frame: text that starts and ends between bytes and lies
      in the frame; a number whose every bit does and, of a float, that is no wider. */
  lemma DecodesExactly(data: seq<Byte>, startBit: nat, length: nat, order: Order, t: DataType)
    requires length >= 1
    ensures Decode(data, startBit, length, order, t).Got? <==>
              if t.Text? then startBit % 8 == 0 && length % 8 == 0 && startBit + length <= 8 * |data|
              else
                && (forall k :: k in SignalBits(startBit, length, order) ==> k < 8 * |data|)
                && (t.Float32? ==> forall raw :: ExtractRaw(data, startBit, length, order) == Some(raw) ==> raw < Pow2(32))
                && (t.Float64? ==> forall raw :: ExtractRaw(data, startBit, length, order) == Some(raw) ==> raw < Pow2(64))
  {
    FailsOutside(data, startBit, length, order);
  }

  lemma SignSplits(raw: nat, length: nat)
    requires length >= 1 && raw < Pow2(length)
    ensures 0 <= SignedValue(raw, length) + Pow2(length - 1) < Pow2(length)
    ensures SignedValue(raw, length) % Pow2(length) == raw
  {
    TopBit(raw, length);
    var p := Pow2(length);
    if Bit(raw, length - 1) {
      assert raw - p == p * -1 + raw;
      IntRemainder(raw - p, p, raw);
    } else {
      IntRemainder(raw, p, raw);
    }
  }

  lemma IntRemainder(v: int, p: nat, r: nat)
    requires r < p && (v == r || v == r - p)
    ensures v % p == r
  {
    var q, s := v / p, v % p;
    assert v == p * q + s;
    var k := if v == r then q else q + 1;
    assert p * k == r - s by {
      if v != r {
        assert p * (q + 1) == p * q + p;
      }
    }
    AtLeast(p, k);
  }

  /** Whether `n` lies in the range of an integer type. */
  predicate InRange(n: int, t: DataType)
    requires t.Integer? && t.width >= 1
  {
    if t.signed then 0 <= n + Pow2(t.width - 1) < Pow2(t.width) else 0 <= n < Pow2(t.width)
  }

  lemma OrderIs(r: Row)
    ensures DecodeOrder(r) == if r.order == Good(Big) then Big else Little
    ensures TypeOf(r) == match r.dataType case Good(t) => t case Absent => Float32 case Bad => Unknown
  {
  }

  /** An accepted row decodes on every 8-byte frame, with a stated type or
      without: a number is in its type's range and is the named bits modulo
      2^length, a float is exactly the named bits. */
  lemma AcceptedRowsDecode(r: Row, data: seq<Byte>)
    requires Accepted(r) && |data| == 8
    ensures StartOk(r) && LengthOk(r)
    ensures
      var t := TypeOf(r);
      var d := Decode(data, r.startBit.value, r.length.value, DecodeOrder(r), t);
      var raw := ExtractRaw(data, r.startBit.value, r.length.value, DecodeOrder(r));
      && d.Got? && raw.Some?
      && (d.value.Number? <==> t.Integer?)
      && (d.value.Ieee32? <==> t.Float32?)
      && (d.value.Ieee64? <==> t.Float64?)
      && (d.value.Number? ==> (t.width >= 1 && InRange(d.value.n, t) &&
                               d.value.n % Pow2(r.length.value) == raw.value))
      && (d.value.Ieee32? || d.value.Ieee64? ==> d.value.pattern == raw.value)
      && (d.value.Chars? ==> 8 * |d.value.bytes| == r.length.value)
  {
    AcceptedShape(r);
    var startBit, length, order, t := r.startBit.value, r.length.value, DecodeOrder(r), TypeOf(r);
    ExtractionIsBounded(data, startBit, length, order);
    var raw := ExtractRaw(data, startBit, length, order).value;
    match t
    case Text(n) =>
      assert order == Little;
    case Float32 =>
    case Float64 =>
    case Integer(w, signed) =>
      NumberInRange(raw, length, t);
  }

  lemma NumberInRange(raw: nat, length: nat, t: DataType)
    requires 1 <= length && raw < Pow2(length)
    requires t.Integer? && length <= t.width
    ensures
      var n := if t.signed then SignedValue(raw, length) else raw;
      InRange(n, t) && n % Pow2(length) == raw
  {
    SignSplits(raw, length);
    Pow2Grows(length, t.width);
    Pow2Grows(length - 1, t.width - 1);
    IntRemainder(raw, Pow2(length), raw);
  }

  /** Text is the bytes from the start bit on, in wire order. */
  lemma TextIsTheNamedBytes(r: Row, data: seq<Byte>, k: nat)
    requires Accepted(r) && TypeOf(r).Text? && |data| == 8
    requires StartOk(r) && LengthOk(r) && 8 * k < r.length.value
    ensures
      var d := Decode(data, r.startBit.value, r.length.value, DecodeOrder(r), TypeOf(r));
      && d.Got? && d.value.Chars? && k < |d.value.bytes|
      && r.startBit.value / 8 + k < 8 && d.value.bytes[k] == data[r.startBit.value / 8 + k]
      && r.startBit.value + 8 * k in SignalBits(r.startBit.value, r.length.value, DecodeOrder(r))
  {
    AcceptedShape(r);
    AcceptedRowsDecode(r, data);
    assert DecodeOrder(r) == Little;
    assert SignalBits(r.startBit.value, r.length.value, Little)[8 * k] == r.startBit.value + 8 * k;
  }
}
