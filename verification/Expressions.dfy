/** The expressions a template writes for values and expectations, and exactly
    when evaluating one is refused or breaks off. */
module Expressions {
  import opened Prelude
  import opened Names

  /** What an expression gives or a register decodes to. */
  datatype Value = Num(n: real) | Text(s: string) | Flag(b: bool) | Nothing

  /** How numbers and text turn into one another. */
  datatype Format = Format(show: real -> string, parse: string -> Option<real>)

  datatype Atom = Given(param: Name) | Const(value: Value)

  datatype Relation = Below | AtMost | Equal | Unequal | AtLeast | Above
  datatype Op = Times | Over | Plus | Minus

  /** A constant or a parameter, a choice by one comparison, one arithmetic
      operation; each operand may be an expression again. */
  datatype Expr =
    | Leaf(atom: Atom)
    | Choice(left: Atom, rel: Relation, right: Atom, yes: Expr, no: Expr)
    | Arith(op: Op, a: Expr, b: Expr)
    | Malformed

  /** True and False count as 1 and 0. */
  predicate IsNumber(v: Value) {
    v.Num? || v.Flag?
  }

  function NumberOf(v: Value): real
    requires IsNumber(v)
  {
    if v.Num? then v.n else if v.b then 1.0 else 0.0
  }

  /** A parameter without a value is there all the same. */
  function AtomValue(a: Atom, params: Args): Attempt<Value> {
    match a
    case Const(v) => Done(v)
    case Given(p) =>
      if p !in params then Refuses
      else if params[p].None? then Done(Nothing) else Done(Num(params[p].value))
  }

  /** All six relations are worked out before one is picked, so even equality
      asks for two numbers or two texts. */
  predicate Comparable(x: Value, y: Value) {
    (IsNumber(x) && IsNumber(y)) || (x.Text? && y.Text?)
  }

  predicate Less(x: Value, y: Value)
    requires Comparable(x, y)
  {
    if x.Text? then TextLeq(x.s, y.s) && x.s != y.s else NumberOf(x) < NumberOf(y)
  }

  predicate Related(x: Value, rel: Relation, y: Value)
    requires Comparable(x, y)
  {
    match rel
    case Below => Less(x, y)
    case AtMost => !Less(y, x)
    case Equal => !Less(x, y) && !Less(y, x)
    case Unequal => Less(x, y) || Less(y, x)
    case AtLeast => !Less(x, y)
    case Above => Less(y, x)
  }

  /** Text that is no number is refused, nothing at all is a type error. */
  function ToNumber(v: Value, f: Format): Attempt<real> {
    if IsNumber(v) then Done(NumberOf(v))
    else if v.Nothing? then Breaks
    else if f.parse(v.s).Some? then Done(f.parse(v.s).value) else Refuses
  }

  function Computed(op: Op, x: Value, y: Value, f: Format): Attempt<Value> {
    match ToNumber(x, f)
    case Refuses => Refuses
    case Breaks => Breaks
    case Done(a) =>
      match ToNumber(y, f)
      case Refuses => Refuses
      case Breaks => Breaks
      case Done(b) =>
        match op
        case Times => Done(Num(a * b))
        case Plus => Done(Num(a + b))
        case Minus => Done(Num(a - b))
        case Over => if b == 0.0 then Breaks else Done(Num(a / b))
  }

  function Evaluate(e: Expr, params: Args, f: Format): Attempt<Value> {
    match e
    case Leaf(a) => AtomValue(a, params)
    case Malformed => Refuses
    case Choice(left, rel, right, yes, no) =>
      var x, y := AtomValue(left, params), AtomValue(right, params);
      if !x.Done? || !y.Done? then Refuses
      else if !Comparable(x.value, y.value) then Breaks
      else Evaluate(if Related(x.value, rel, y.value) then yes else no, params, f)
    case Arith(op, a, b) =>
      match Evaluate(a, params, f)
      case Refuses => Refuses
      case Breaks => Breaks
      case Done(x) =>
        match Evaluate(b, params, f)
        case Refuses => Refuses
        case Breaks => Breaks
        case Done(y) => Computed(op, x, y, f)
  }

  // ---- what it gives ----

  /** The number an operand counts as. */
  predicate CountsAs(v: Value, x: real, f: Format) {
    match v
    case Num(n) => n == x
    case Flag(b) => x == if b then 1.0 else 0.0
    case Text(s) => f.parse(s) == Some(x)
    case Nothing => false
  }

  lemma CountsIs(v: Value, x: real, f: Format)
    ensures ToNumber(v, f) == Done(x) <==> CountsAs(v, x, f)
    ensures ToNumber(v, f) == Breaks <==> v == Nothing
  {
  }

  /** The four operations on what counts as a number: the difference is what makes up
      the rest, the quotient what multiplies back. */
  lemma ArithmeticGives(op: Op, a: Expr, b: Expr, x: real, y: real, params: Args, f: Format)
    requires Evaluate(a, params, f).Done? && CountsAs(Evaluate(a, params, f).value, x, f)
    requires Evaluate(b, params, f).Done? && CountsAs(Evaluate(b, params, f).value, y, f)
    ensures
      var r := Evaluate(Arith(op, a, b), params, f);
      match op
      case Times => r.Done? && r.value.Num? && r.value.n == x * y
      case Plus => r == Done(Num(x + y))
      case Minus => r.Done? && r.value.Num? && r.value.n + y == x
      case Over => if y == 0.0 then r == Breaks else r.Done? && r.value.Num? && r.value.n * y == x
  {
    var vx, vy := Evaluate(a, params, f).value, Evaluate(b, params, f).value;
    assert Evaluate(Arith(op, a, b), params, f) == Computed(op, vx, vy, f);
    match op {
      case Times => TimesGives(vx, vy, x, y, f);
      case Over =>
        if y != 0.0 {
          assert x / y * y == x;
        }
      case _ =>
    }
  }

  /** There is no result without two operands that count as numbers. */
  lemma ArithmeticNeedsNumbers(op: Op, a: Expr, b: Expr, params: Args, f: Format)
    requires Evaluate(Arith(op, a, b), params, f).Done?
    ensures Evaluate(a, params, f).Done? && Evaluate(b, params, f).Done?
    ensures (exists x :: CountsAs(Evaluate(a, params, f).value, x, f)) && exists y :: CountsAs(Evaluate(b, params, f).value, y, f)
  {
    var vx, vy := Evaluate(a, params, f).value, Evaluate(b, params, f).value;
    assert CountsAs(vx, ToNumber(vx, f).value, f) && CountsAs(vy, ToNumber(vy, f).value, f);
  }

  lemma TimesGives(vx: Value, vy: Value, x: real, y: real, f: Format)
    requires CountsAs(vx, x, f) && CountsAs(vy, y, f)
    ensures var r := Computed(Times, vx, vy, f); r.Done? && r.value.Num? && r.value.n == x * y
  {
  }

  /** A parameter gives the number it was given, and nothing when it was given none. */
  lemma ParametersGive(p: Name, params: Args, f: Format)
    ensures Evaluate(Leaf(Given(p)), params, f) ==
            if p !in params then Refuses else if params[p].None? then Done(Nothing) else Done(Num(params[p].value))
  {
  }

  /** A comparison of numbers, True and False among them, takes the first branch exactly
      when it is true. */
  lemma ComparisonTakes(e: Expr, x: real, y: real, params: Args, f: Format)
    requires e.Choice? && AtomValue(e.left, params).Done? && AtomValue(e.right, params).Done?
    requires !AtomValue(e.left, params).value.Text? && CountsAs(AtomValue(e.left, params).value, x, f)
    requires !AtomValue(e.right, params).value.Text? && CountsAs(AtomValue(e.right, params).value, y, f)
    ensures
      var isTrue := match e.rel
                    case Below => x < y
                    case AtMost => x <= y
                    case Equal => x == y
                    case Unequal => x != y
                    case AtLeast => x >= y
                    case Above => x > y;
      Evaluate(e, params, f) == Evaluate(if isTrue then e.yes else e.no, params, f)
  {
  }

  /** A choice without one of the two values it compares is refused, and breaks off when
      one is a text and the other none, or one is nothing. */
  lemma ChoiceNeedsBoth(e: Expr, params: Args, f: Format)
    requires e.Choice?
    ensures AtomValue(e.left, params).Refuses? || AtomValue(e.right, params).Refuses? ==> Evaluate(e, params, f).Refuses?
    ensures AtomValue(e.left, params).Done? && AtomValue(e.right, params).Done? ==>
              var x, y := AtomValue(e.left, params).value, AtomValue(e.right, params).value;
              (x.Nothing? || y.Nothing? || x.Text? != y.Text? ==> Evaluate(e, params, f).Breaks?)
  {
  }

  /** And one of two texts: equal is the same text, less is before it in the order of
      code points. */
  lemma TextComparisonTakes(e: Expr, x: string, y: string, params: Args, f: Format)
    requires e.Choice? && AtomValue(e.left, params) == Done(Text(x)) && AtomValue(e.right, params) == Done(Text(y))
    ensures
      var isTrue := match e.rel
                    case Below => TextLeq(x, y) && x != y
                    case AtMost => TextLeq(x, y)
                    case Equal => x == y
                    case Unequal => x != y
                    case AtLeast => TextLeq(y, x)
                    case Above => TextLeq(y, x) && x != y;
      Evaluate(e, params, f) == Evaluate(if isTrue then e.yes else e.no, params, f)
  {
    LeqTotal(x, y);
    if TextLeq(x, y) && TextLeq(y, x) {
      LeqAntisymmetric(x, y);
    }
  }

  // ---- where it is refused, where it breaks off ----

  /** The parts of an expression that are come to: the branch a choice takes, and
      a second operand once the first has a value. */
  predicate Reached(part: Expr, e: Expr, params: Args, f: Format)
    decreases e
  {
    part == e ||
    match e
    case Leaf(_) => false
    case Malformed => false
    case Choice(left, rel, right, yes, no) =>
      var x, y := AtomValue(left, params), AtomValue(right, params);
      x.Done? && y.Done? && Comparable(x.value, y.value) &&
      Reached(part, if Related(x.value, rel, y.value) then yes else no, params, f)
    case Arith(_, a, b) =>
      Reached(part, a, params, f) || (Evaluate(a, params, f).Done? && Reached(part, b, params, f))
  }

  /** A part that breaks off by itself: it compares what cannot be compared, takes
      nothing for a number, or divides by zero. */
  predicate BreaksHere(e: Expr, params: Args, f: Format) {
    match e
    case Leaf(_) => false
    case Malformed => false
    case Choice(left, _, right, _, _) =>
      var x, y := AtomValue(left, params), AtomValue(right, params);
      x.Done? && y.Done? && !Comparable(x.value, y.value)
    case Arith(op, a, b) =>
      var x, y := Evaluate(a, params, f), Evaluate(b, params, f);
      x.Done? && y.Done? &&
      (x.value.Nothing? ||
       (ToNumber(x.value, f).Done? &&
        (y.value.Nothing? || (op == Over && ToNumber(y.value, f) == Done(0.0)))))
  }

  /** Evaluating breaks off exactly when a part that breaks off is come to. */
  lemma {:induction false} BreaksExactly(e: Expr, params: Args, f: Format)
    ensures Evaluate(e, params, f).Breaks? <==>
            exists part :: Reached(part, e, params, f) && BreaksHere(part, params, f)
  {
    match e {
      case Leaf(_) =>
      case Malformed =>
      case Choice(left, rel, right, yes, no) =>
        var x, y := AtomValue(left, params), AtomValue(right, params);
        if x.Done? && y.Done? {
          if Comparable(x.value, y.value) {
            var taken := if Related(x.value, rel, y.value) then yes else no;
            BreaksExactly(taken, params, f);
            PartsOfChoice(e, taken, params, f);
          } else {
            assert Reached(e, e, params, f) && BreaksHere(e, params, f);
          }
        }
      case Arith(op, a, b) =>
        BreaksExactly(a, params, f);
        BreaksExactly(b, params, f);
        PartsOfArith(e, params, f);
        ArithBreaks(e, params, f);
        if Evaluate(a, params, f).Breaks? {
          var part :| Reached(part, a, params, f) && BreaksHere(part, params, f);
          assert Reached(part, e, params, f);
        } else if Evaluate(a, params, f).Done? && Evaluate(b, params, f).Breaks? {
          var part :| Reached(part, b, params, f) && BreaksHere(part, params, f);
          assert Reached(part, e, params, f);
        } else if BreaksHere(e, params, f) {
          assert Reached(e, e, params, f);
        }
    }
  }

  lemma ArithBreaks(e: Expr, params: Args, f: Format)
    requires e.Arith?
    ensures Evaluate(e, params, f).Breaks? <==>
            || Evaluate(e.a, params, f).Breaks?
            || (Evaluate(e.a, params, f).Done? && Evaluate(e.b, params, f).Breaks?)
            || BreaksHere(e, params, f)
  {
  }

  lemma PartsOfChoice(e: Expr, taken: Expr, params: Args, f: Format)
    requires e.Choice? && AtomValue(e.left, params).Done? && AtomValue(e.right, params).Done?
    requires Comparable(AtomValue(e.left, params).value, AtomValue(e.right, params).value)
    requires taken == if Related(AtomValue(e.left, params).value, e.rel, AtomValue(e.right, params).value)
                      then e.yes else e.no
    ensures forall part :: Reached(part, e, params, f) <==> part == e || Reached(part, taken, params, f)
    ensures !BreaksHere(e, params, f)
  {
  }

  lemma PartsOfArith(e: Expr, params: Args, f: Format)
    requires e.Arith?
    ensures forall part :: Reached(part, e, params, f) <==>
              part == e || Reached(part, e.a, params, f) ||
              (Evaluate(e.a, params, f).Done? && Reached(part, e.b, params, f))
  {
  }

  /** Only numbers: every constant is one, every parameter is given one. */
  predicate AtomIsNumber(a: Atom, params: Args) {
    match a
    case Const(v) => v.Num?
    case Given(p) => p in params && params[p].Some?
  }

  predicate OnlyNumbers(e: Expr, params: Args) {
    match e
    case Leaf(a) => AtomIsNumber(a, params)
    case Malformed => false
    case Choice(left, _, right, yes, no) =>
      AtomIsNumber(left, params) && AtomIsNumber(right, params) && OnlyNumbers(yes, params) && OnlyNumbers(no, params)
    case Arith(_, a, b) => OnlyNumbers(a, params) && OnlyNumbers(b, params)
  }

  predicate DividesByZero(e: Expr, params: Args, f: Format) {
    e.Arith? && e.op == Over && Evaluate(e.b, params, f) == Done(Num(0.0)) && Evaluate(e.a, params, f).Done?
  }

  lemma {:induction false} NumbersGiveNumbers(e: Expr, params: Args, f: Format)
    requires OnlyNumbers(e, params)
    ensures !Evaluate(e, params, f).Refuses?
    ensures Evaluate(e, params, f).Done? ==> Evaluate(e, params, f).value.Num?
  {
    match e {
      case Leaf(_) =>
      case Choice(left, rel, right, yes, no) =>
        NumbersGiveNumbers(yes, params, f);
        NumbersGiveNumbers(no, params, f);
      case Arith(_, a, b) =>
        NumbersGiveNumbers(a, params, f);
        NumbersGiveNumbers(b, params, f);
    }
  }

  lemma {:induction false} PartsAreNumbers(part: Expr, e: Expr, params: Args, f: Format)
    requires OnlyNumbers(e, params) && Reached(part, e, params, f)
    ensures OnlyNumbers(part, params)
    decreases e
  {
    if part != e {
      match e {
        case Choice(left, rel, right, yes, no) =>
          var x, y := AtomValue(left, params).value, AtomValue(right, params).value;
          PartsAreNumbers(part, if Related(x, rel, y) then yes else no, params, f);
        case Arith(_, a, b) =>
          if Reached(part, a, params, f) {
            PartsAreNumbers(part, a, params, f);
          } else {
            PartsAreNumbers(part, b, params, f);
          }
      }
    }
  }

  lemma NumbersBreakHere(part: Expr, params: Args, f: Format)
    requires OnlyNumbers(part, params)
    ensures BreaksHere(part, params, f) <==> DividesByZero(part, params, f)
  {
    if part.Arith? {
      NumbersGiveNumbers(part.a, params, f);
      NumbersGiveNumbers(part.b, params, f);
    }
  }

  /** Among numbers, evaluating is never refused, and breaks off exactly when a
      division by zero is come to. */
  lemma OnlyZeroBreaks(e: Expr, params: Args, f: Format)
    requires OnlyNumbers(e, params)
    ensures !Evaluate(e, params, f).Refuses?
    ensures Evaluate(e, params, f).Breaks? <==>
            exists part :: Reached(part, e, params, f) && DividesByZero(part, params, f)
  {
    NumbersGiveNumbers(e, params, f);
    BreaksExactly(e, params, f);
    forall part | Reached(part, e, params, f)
      ensures BreaksHere(part, params, f) <==> DividesByZero(part, params, f)
    {
      PartsAreNumbers(part, e, params, f);
      NumbersBreakHere(part, params, f);
    }
  }
}
