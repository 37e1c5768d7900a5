/** What a template's expressions make of a run: when a command may break off after
    its writes though the template's check passed it, and when a rule holds on what
    was just written. */
module RunRules {
  import opened Prelude
  import opened Expressions
  import opened Frames
  import opened Verdict
  import P = Params
  import W = WriteValues
  import Wire

  // ---- rules without a value ----

  /** The judging of some rules breaks off exactly at one whose expectation has no
      value, whose register was decoded, and before which every rule holds. */
  lemma WhereJudgingBreaks(rules: seq<Rule>, r: Reading, params: Args, f: Format)
    ensures FirstBad(rules, r, params, f, Raises) <==>
            exists i :: 0 <= i < |rules| && Broken(rules[i], params, f) && IsRead(r, rules[i]) &&
                        forall j :: 0 <= j < i ==> JudgeRule(r, rules[j], params, f) == Holds
  {
    assert forall i :: 0 <= i < |rules| ==>
      (JudgeRule(r, rules[i], params, f) == Raises <==> Broken(rules[i], params, f) && IsRead(r, rules[i]));
  }

  predicate IsRead(r: Reading, rule: Rule) {
    rule.read in r.values && !r.values[rule.read].Nothing?
  }

  /** A reading on which the guards hold and the values encode. */
  ghost predicate LetsThrough(before: Reading, cmd: Command, regs: map<Name, Reg>, enc: map<Name, real> -> Encoder, f: Format) {
    AllHold(cmd.guard, before, cmd.params, f) && ItemsOf(cmd, regs, enc, before).Done?
  }

  /** The `i`-th verify rule has no value, its register is in the reading, and the
      rules before it hold on it. */
  ghost predicate BreaksAt(i: int, after: Reading, cmd: Command, f: Format) {
    0 <= i < |cmd.verify| && Broken(cmd.verify[i], cmd.params, f) && IsRead(after, cmd.verify[i]) &&
    AllHold(cmd.verify[..i], after, cmd.params, f)
  }

  lemma BreaksSomewhere(cmd: Command, after: Reading, f: Format)
    ensures FirstBad(cmd.verify, after, cmd.params, f, Raises) <==> exists i :: BreaksAt(i, after, cmd, f)
  {
    WhereJudgingBreaks(cmd.verify, after, cmd.params, f);
    forall i | 0 <= i < |cmd.verify|
      ensures AllHold(cmd.verify[..i], after, cmd.params, f) <==>
              forall j :: 0 <= j < i ==> JudgeRule(after, cmd.verify[j], cmd.params, f) == Holds
    {
      assert forall j :: 0 <= j < i ==> cmd.verify[..i][j] == cmd.verify[j];
    }
    if i :| 0 <= i < |cmd.verify| && Broken(cmd.verify[i], cmd.params, f) && IsRead(after, cmd.verify[i]) &&
            forall j :: 0 <= j < i ==> JudgeRule(after, cmd.verify[j], cmd.params, f) == Holds {
      assert BreaksAt(i, after, cmd, f);
    }
  }

  /** A command may break off after its writes, on some connection, exactly when
      every register it reads is there and fits a read, some reading lets it
      through, and some reading is decoded up to a verify rule whose expectation
      has no value with its parameters. */
  lemma MayRaiseLate(cmd: Command, regs: map<Name, Reg>, enc: map<Name, real> -> Encoder, maxRead: int, f: Format)
    ensures (exists conn :: RaisesLate(cmd, regs, enc, conn, maxRead, false, f)) <==>
            && AllNamed(cmd, regs) && !TooWide(cmd, regs, maxRead)
            && (exists before :: LetsThrough(before, cmd, regs, enc, f))
            && (exists i, after :: BreaksAt(i, after, cmd, f))
  {
    if conn :| RaisesLate(cmd, regs, enc, conn, maxRead, false, f) {
      assert LetsThrough(LastReading(cmd, conn, f), cmd, regs, enc, f);
      BreaksSomewhere(cmd, conn.answers(ReadBack(cmd, conn, f)).value, f);
    }
    if AllNamed(cmd, regs) && !TooWide(cmd, regs, maxRead) {
      if before, i, after :| LetsThrough(before, cmd, regs, enc, f) && BreaksAt(i, after, cmd, f) {
        SomeConnectionRaises(cmd, regs, enc, maxRead, f, before, i, after);
      }
    }
  }

  lemma SomeConnectionRaises(cmd: Command, regs: map<Name, Reg>, enc: map<Name, real> -> Encoder, maxRead: int,
                             f: Format, before: Reading, i: int, after: Reading)
    requires AllNamed(cmd, regs) && !TooWide(cmd, regs, maxRead)
    requires LetsThrough(before, cmd, regs, enc, f) && BreaksAt(i, after, cmd, f)
    ensures exists conn :: RaisesLate(cmd, regs, enc, conn, maxRead, false, f)
  {
    var conn := Connection(k => Some(if k == 0 then before else after), k => true);
    BreaksSomewhere(cmd, after, f);
    assert FirstRead(cmd, conn) == Some((before, 1));
    assert RaisesLate(cmd, regs, enc, conn, maxRead, false, f);
  }

  /** For expectations of numbers that is a division by zero which is come to. */
  lemma BrokenByZero(rule: Rule, params: Args, f: Format)
    requires rule.expected.Some? && OnlyNumbers(rule.expected.value, params)
    ensures Broken(rule, params, f) <==>
            exists part :: Reached(part, rule.expected.value, params, f) && DividesByZero(part, params, f)
  {
    OnlyZeroBreaks(rule.expected.value, params, f);
  }

  // ---- the template's check ----

  /** The value the check tries a parameter with: its default, a bound, or zero. */
  function SampleOf(p: P.Param): real {
    if p.default.Some? && p.default.value.Num? then p.default.value.n
    else if p.min.Some? then p.min.value
    else if p.max.Some? then p.max.value
    else 0.0
  }

  function Sample(params: seq<P.Param>): Args {
    if params == [] then map[]
    else
      var n := |params| - 1;
      Sample(params[..n])[params[n].name := Some(SampleOf(params[n]))]
  }

  predicate RulesPass(rules: seq<Rule>, sample: Args, f: Format) {
    forall i :: 0 <= i < |rules| ==> !Broken(rules[i], sample, f)
  }

  /** The check finds nothing wrong with the expressions of a command. */
  predicate Passes(params: seq<P.Param>, cmd: Command, f: Format) {
    && RulesPass(cmd.guard, Sample(params), f) && RulesPass(cmd.verify, Sample(params), f)
    && forall i :: 0 <= i < |cmd.writes| ==> Evaluate(cmd.writes[i].value, Sample(params), f).Done?
  }

  /** A call's parameters as the run has them. */
  function ArgsOf(out: P.Given): Args {
    map k | k in out :: if out[k].Some? && out[k].value.Num? then Some(out[k].value.n) else None
  }

  const VALUE := Name("value")
  const PERIOD := Name("period")

  /** A command that sets a period and expects to read a rate, a hundred over the value. */
  const RATE: Expr := Arith(Over, Leaf(Const(Num(100.0))), Leaf(Given(VALUE)))
  const RATE_RULE := Rule(PERIOD, Some(RATE), 0.0, None, None, None, map[])
  const RATE_PARAM := P.Param(VALUE, None, None, Some(P.Num(10.0)), false, [], [])
  const RATE_REGS := map[PERIOD := Reg(PERIOD, 0, Holding, 1)]
  const RATE_SPECS := map[PERIOD := W.Spec(false, None, None, [], 1.0, 0.0, None, W.Whole(Wire.Whole(1, Wire.Unsigned)))]

  function SetPeriod(v: real): Command {
    Command([], [RATE_RULE], [Write(PERIOD, Leaf(Given(VALUE)))], [], map[VALUE := Some(v)])
  }

  lemma RateHasValue(params: Args, v: real, f: Format)
    requires VALUE in params && params[VALUE] == Some(v)
    ensures Evaluate(RATE, params, f).Done? <==> v != 0.0
    ensures Broken(RATE_RULE, params, f) <==> v == 0.0
  {
  }

  lemma PeriodZeroIsWritten(o: Wire.Order, f: Format, ieee: W.Ieee, r: Reading)
    ensures ItemsOf(SetPeriod(0.0), RATE_REGS, W.EncoderOf(RATE_SPECS, o, f, ieee), r).Done?
  {
    var cmd, enc := SetPeriod(0.0), W.EncoderOf(RATE_SPECS, o, f, ieee)(r.scales);
    assert cmd.writes[..0] == [];
    assert Items(cmd.writes[..0], cmd.params, RATE_REGS, enc) == Done([]);
    ZeroFits(o, f, ieee, r.scales);
  }

  lemma ZeroFits(o: Wire.Order, f: Format, ieee: W.Ieee, sf: W.Scales)
    ensures W.EncodeValue(RATE_SPECS[PERIOD], Num(0.0), sf, o, f, ieee).Done?
  {
    var spec := RATE_SPECS[PERIOD];
    assert W.Scaled(0.0 - spec.offset, 1.0, 1.0) == 0.0;
    assert Wire.InRange(0, spec.kind.t) by {
      Wire.SpanIsPositive(1);
    }
  }

  lemma RateIsAccepted(f: Format)
    ensures forall v :: Passes([RATE_PARAM], SetPeriod(v), f)
    ensures forall v :: P.Normalizes([RATE_PARAM], map[VALUE := Some(P.Num(v))], P.Ok(map[VALUE := Some(P.Num(v))]))
    ensures forall v :: ArgsOf(map[VALUE := Some(P.Num(v))]) == SetPeriod(v).params
  {
    assert [RATE_PARAM][..0] == [];
    assert Sample([RATE_PARAM]) == map[VALUE := Some(10.0)];
    RateHasValue(Sample([RATE_PARAM]), 10.0, f);
    assert [RATE_PARAM][0].name == VALUE;
  }

  /** The check passes this command, its parameter takes every number, and of all
      its values exactly zero can break a run off after the period was written. */
  lemma CheckedMayRaiseLate(v: real, o: Wire.Order, f: Format, ieee: W.Ieee)
    ensures Passes([RATE_PARAM], SetPeriod(v), f)
    ensures P.Normalizes([RATE_PARAM], map[VALUE := Some(P.Num(v))], P.Ok(map[VALUE := Some(P.Num(v))]))
    ensures ArgsOf(map[VALUE := Some(P.Num(v))]) == SetPeriod(v).params
    ensures (exists conn ::
               RaisesLate(SetPeriod(v), RATE_REGS, W.EncoderOf(RATE_SPECS, o, f, ieee), conn, 0, false, f)) <==> v == 0.0
  {
    RateIsAccepted(f);
    if v == 0.0 {
      ZeroMayRaiseLate(o, f, ieee);
    } else {
      OthersNeverRaise(v, o, f, ieee);
    }
  }

  lemma ZeroMayRaiseLate(o: Wire.Order, f: Format, ieee: W.Ieee)
    ensures exists conn :: RaisesLate(SetPeriod(0.0), RATE_REGS, W.EncoderOf(RATE_SPECS, o, f, ieee), conn, 0, false, f)
  {
    var cmd, enc, before := SetPeriod(0.0), W.EncoderOf(RATE_SPECS, o, f, ieee), Reading(map[], map[]);
    RateHasValue(cmd.params, 0.0, f);
    PeriodZeroIsWritten(o, f, ieee, before);
    assert LetsThrough(before, cmd, RATE_REGS, enc, f);
    assert BreaksAt(0, Reading(map[PERIOD := Num(0.0)], map[]), cmd, f);
    MayRaiseLate(cmd, RATE_REGS, enc, 0, f);
  }

  lemma OthersNeverRaise(v: real, o: Wire.Order, f: Format, ieee: W.Ieee)
    requires v != 0.0
    ensures !exists conn :: RaisesLate(SetPeriod(v), RATE_REGS, W.EncoderOf(RATE_SPECS, o, f, ieee), conn, 0, false, f)
  {
    var cmd := SetPeriod(v);
    RateHasValue(cmd.params, v, f);
    assert forall i, after :: !BreaksAt(i, after, cmd, f);
    MayRaiseLate(cmd, RATE_REGS, W.EncoderOf(RATE_SPECS, o, f, ieee), 0, f);
  }

  // ---- rules on what was just written ----

  /** A rule that expects what a write to a register of whole numbers wrote holds on
      its read-back, when it tolerates half a step; and without rounding, when it
      tolerates nothing. */
  lemma OwnWriteIsVerified(rule: Rule, spec: W.Spec, v: real, params: Args, sf: W.Scales, o: Wire.Order, f: Format,
                           ieee: W.Ieee)
    requires spec.kind.Whole? && !spec.coil && rule.expected.Some? && Wanted(rule, params, f) == Done(Num(v))
    requires rule.oneOf.None? && rule.min.None? && rule.max.None?
    requires W.EncodeValue(spec, Num(v), sf, o, f, ieee).Done?
    ensures W.Factor(spec, sf).Some?
    ensures
      var got := W.ReadBack(spec, W.EncodeValue(spec, Num(v), sf, o, f, ieee).value, sf, o, ieee);
      var raw := W.RawFor(spec, v, sf).value;
      && got.Some?
      && (rule.tolerance >= W.StepOf(spec, sf) / 2.0 || (raw == raw.Floor as real && rule.tolerance >= 0.0) ==>
            Check(rule, Some(Num(got.value)), params, f) == Holds)
  {
    W.WrittenWithinHalfAStep(spec, v, sf, o, f, ieee);
  }
}
