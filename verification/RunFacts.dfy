/** What the report of a run means in terms of the registers and the connection
    alone, and what a rule makes of text, codes and registers that were not decoded. */
module RunFacts {
  import opened Prelude
  import opened Expressions
  import opened Frames
  import opened Verdict

  // ---- registers that were not decoded ----

  /** The register has a value in the reading. */
  predicate Decodes(r: Reading, n: Name) {
    n in r.values && r.values[n] != Nothing
  }

  lemma HoldingIsDecoded(rules: seq<Rule>, r: Reading, params: Args, f: Format)
    requires AllHold(rules, r, params, f)
    ensures forall i :: 0 <= i < |rules| ==> Decodes(r, rules[i].read)
  {
    forall i | 0 <= i < |rules| ensures Decodes(r, rules[i].read) {
      assert JudgeRule(r, rules[i], params, f) == Holds;
    }
  }

  /** Nothing goes out unless every guard's register was decoded, and no success is
      said unless every verify rule's was, too. */
  lemma DecodedBeforeAnythingGoesOut(report: Report, log: seq<Frame>, cmd: Command, regs: map<Name, Reg>,
                                     enc: map<Name, real> -> Encoder, conn: Connection, maxRead: int, dryRun: bool, f: Format)
    requires Reports(report, log, cmd, regs, enc, conn, maxRead, dryRun, f)
    ensures log != [] || report.status in {DryRun, Success} ==>
              report.before.Some? && forall i :: 0 <= i < |cmd.guard| ==> Decodes(report.before.value, cmd.guard[i].read)
    ensures report.status == Success && cmd.verify != [] ==>
              report.after.Some? && forall i :: 0 <= i < |cmd.verify| ==> Decodes(report.after.value, cmd.verify[i].read)
  {
    if log != [] || report.status in {DryRun, Success} {
      HoldingIsDecoded(cmd.guard, report.before.value, cmd.params, f);
    }
    if report.status == Success && cmd.verify != [] {
      HoldingIsDecoded(cmd.verify, report.after.value, cmd.params, f);
    }
  }

  /** A run one of whose guards' registers is decoded in no answer is rejected and
      writes nothing, when no guard's expectation is without a value. */
  lemma UndecodedGuardRejects(report: Report, log: seq<Frame>, cmd: Command, regs: map<Name, Reg>,
                              enc: map<Name, real> -> Encoder, conn: Connection, maxRead: int, dryRun: bool, f: Format, i: nat)
    requires Reports(report, log, cmd, regs, enc, conn, maxRead, dryRun, f)
    requires AllNamed(cmd, regs) && !TooWide(cmd, regs, maxRead)
    requires conn.answers(0).Some? || conn.answers(1).Some?
    requires i < |cmd.guard| && forall k: nat :: conn.answers(k).Some? ==> !Decodes(conn.answers(k).value, cmd.guard[i].read)
    requires forall j :: 0 <= j < |cmd.guard| && cmd.guard[j].expected.Some? ==>
      Evaluate(cmd.guard[j].expected.value, cmd.params, f).Done?
    ensures report.status == Rejected && log == []
  {
    var last := LastReading(cmd, conn, f);
    assert !Decodes(last, cmd.guard[i].read);
    assert JudgeRule(last, cmd.guard[i], cmd.params, f) == Fails;
    assert !AllHold(cmd.guard, last, cmd.params, f);
    assert !SomeRaises(cmd.guard, last, cmd.params, f);
  }

  // ---- which answers a run goes by ----

  /** The first of the two tries that is answered. */
  function FirstAnswered(conn: Connection): nat {
    if conn.answers(0).Some? then 0 else 1
  }

  lemma FirstReadIs(cmd: Command, conn: Connection)
    requires !AsksNothing(cmd)
    ensures FirstRead(cmd, conn) ==
            var k := FirstAnswered(conn); if conn.answers(k).Some? then Some((conn.answers(k).value, k + 1)) else None
  {
  }

  lemma ReadsAfterIt(cmd: Command, conn: Connection, f: Format)
    requires !AsksNothing(cmd) && conn.answers(FirstAnswered(conn)).Some?
    ensures
      var k := FirstAnswered(conn);
      var first, next := conn.answers(k).value, conn.answers(k + 1);
      && FirstRead(cmd, conn).Some?
      && ReadBack(cmd, conn, f) == (if AllHold(cmd.guard, first, cmd.params, f) then k + 1 else k + 2)
      && (!SomeRaises(cmd.guard, first, cmd.params, f) ==>
            LastReading(cmd, conn, f) == if AllHold(cmd.guard, first, cmd.params, f) || next.None? then first else next.value)
      && (SomeRaises(cmd.guard, first, cmd.params, f) ==> LastReading(cmd, conn, f) == first)
  {
    FirstReadIs(cmd, conn);
  }

  /** The guards are judged on the first answer of two tries, and on the next one
      exactly when a guard failed on it, none broke off, and the next was answered;
      the read-back is the read after that. A run gives up without having sent
      anything exactly when both tries stay unanswered. */
  lemma AnswersGoneBy(report: Report, log: seq<Frame>, cmd: Command, regs: map<Name, Reg>,
                      enc: map<Name, real> -> Encoder, conn: Connection, maxRead: int, dryRun: bool, f: Format)
    requires Reports(report, log, cmd, regs, enc, conn, maxRead, dryRun, f)
    requires AllNamed(cmd, regs) && !TooWide(cmd, regs, maxRead)
    requires cmd.guard != [] || cmd.verify != [] || cmd.scales != []
    ensures report.status == Error && report.sent.None? <==> conn.answers(0).None? && conn.answers(1).None?
    ensures report.before.Some? ==>
      var k := FirstAnswered(conn);
      conn.answers(k).Some? &&
      var first, next := conn.answers(k).value, conn.answers(k + 1);
      report.before == if AllHold(cmd.guard, first, cmd.params, f) || next.None? then Some(first) else next
    ensures report.after.Some? ==>
      var k := FirstAnswered(conn);
      conn.answers(k).Some? &&
      report.after == conn.answers(if AllHold(cmd.guard, conn.answers(k).value, cmd.params, f) then k + 1 else k + 2)
  {
    FirstReadIs(cmd, conn);
    if conn.answers(FirstAnswered(conn)).Some? {
      ReadsAfterIt(cmd, conn, f);
    }
  }

  /** A command that asks for nothing reads nothing: it is judged on an empty reading, and
      never gives up for want of an answer. */
  lemma NothingToRead(report: Report, log: seq<Frame>, cmd: Command, regs: map<Name, Reg>,
                      enc: map<Name, real> -> Encoder, conn: Connection, maxRead: int, dryRun: bool, f: Format)
    requires Reports(report, log, cmd, regs, enc, conn, maxRead, dryRun, f)
    requires cmd.guard == [] && cmd.verify == [] && cmd.scales == []
    ensures !(report.status == Error && report.sent.None?)
    ensures report.before.Some? ==> report.before.value == Reading(map[], map[])
  {
  }

  // ---- what a rule makes of text and codes ----

  /** A rule that expects a text holds on exactly that text. */
  lemma TextIsExpected(rule: Rule, got: string, want: string, params: Args, f: Format)
    requires rule.expected.Some? && Evaluate(rule.expected.value, params, f) == Done(Text(want))
    requires rule.oneOf.None? && rule.min.None? && rule.max.None?
    ensures Check(rule, Some(Text(got)), params, f) == Holds <==> got == want
  {
  }

  predicate IsWhole(n: real) {
    n == n.Floor as real
  }

  /** A rule that expects a code holds, on a register that reads as text, on exactly
      the text of that code; a number that is no code of its states stands for
      itself written out. */
  lemma CodeIsExpected(rule: Rule, got: string, n: real, params: Args, f: Format)
    requires rule.expected.Some? && Evaluate(rule.expected.value, params, f) == Done(Num(n))
    requires rule.oneOf.None? && rule.min.None? && rule.max.None?
    requires IsWhole(n) && n.Floor in rule.states ==> !("unknown (" <= rule.states[n.Floor])
    ensures Check(rule, Some(Text(got)), params, f) == Holds <==>
            got == if IsWhole(n) && n.Floor in rule.states then rule.states[n.Floor] else f.show(n)
  {
    assert "unknown (" <= "unknown (" + f.show(n) + ")" by {
      assert "unknown (" + f.show(n) + ")" == "unknown (" + (f.show(n) + ")");
    }
  }

  /** A rule with a list holds, on a text that is no number, exactly when the list
      has that text, or a code whose text it is. */
  lemma TextIsListed(rule: Rule, got: string, params: Args, f: Format)
    requires rule.expected.None? && rule.oneOf.Some? && rule.min.None? && rule.max.None?
    requires f.parse(got).None? && !("unknown (" <= got)
    ensures
      var list := rule.oneOf.value;
      Check(rule, Some(Text(got)), params, f) == Holds <==>
        exists i :: 0 <= i < |list| &&
          (list[i] == Text(got) ||
           (list[i].Num? && IsWhole(list[i].n) && list[i].n.Floor in rule.states && rule.states[list[i].n.Floor] == got))
  {
    var list := rule.oneOf.value;
    forall i | 0 <= i < |list| ensures SameValue(Text(got), list[i]) <==> list[i] == Text(got) {}
    forall i | 0 <= i < |list| && list[i].Num? && IsWhole(list[i].n)
      ensures Decoded(list[i].n, rule.states, f) == got <==>
              list[i].n.Floor in rule.states && rule.states[list[i].n.Floor] == got
    {
      if list[i].n.Floor !in rule.states {
        UnknownBegins(list[i].n, rule.states, f);
      }
    }
    if i :| 0 <= i < |list| && list[i] == Text(got) {
      assert SameValue(Text(got), list[i]);
    }
  }

  lemma UnknownBegins(n: real, states: map<int, string>, f: Format)
    requires n.Floor !in states
    ensures "unknown (" <= Decoded(n, states, f)
  {
    assert "unknown (" + f.show(n) + ")" == "unknown (" + (f.show(n) + ")");
  }

  /** A number against a text is compared as it is written out, and bounds ask a text
      for the number it reads as. */
  lemma NumberAgainstText(rule: Rule, g: real, want: string, params: Args, f: Format)
    requires rule.expected.Some? && Evaluate(rule.expected.value, params, f) == Done(Text(want))
    requires rule.oneOf.None? && rule.min.None? && rule.max.None?
    ensures Check(rule, Some(Num(g)), params, f) == Holds <==> f.show(g) == want
  {
  }

  lemma BoundsOnText(rule: Rule, got: string, params: Args, f: Format)
    requires rule.expected.None? && rule.oneOf.None? && (rule.min.Some? || rule.max.Some?)
    ensures Check(rule, Some(Text(got)), params, f) == Holds <==>
            && f.parse(got).Some?
            && (rule.min.Some? ==> rule.min.value <= f.parse(got).value)
            && (rule.max.Some? ==> f.parse(got).value <= rule.max.value)
  {
  }

  /** True and False against a text are compared as "True" and "False". */
  lemma FlagAgainstText(rule: Rule, b: bool, want: string, got: string, params: Args, f: Format)
    requires rule.expected.Some? && rule.oneOf.None? && rule.min.None? && rule.max.None?
    ensures Evaluate(rule.expected.value, params, f) == Done(Text(want)) ==>
              (Check(rule, Some(Flag(b)), params, f) == Holds <==> want == if b then "True" else "False")
    ensures Evaluate(rule.expected.value, params, f) == Done(Flag(b)) ==>
              (Check(rule, Some(Text(got)), params, f) == Holds <==> got == if b then "True" else "False")
  {
  }

  /** A list of numbers has a text that reads as one of them. */
  lemma NumericTextIsListed(rule: Rule, got: string, x: real, params: Args, f: Format)
    requires rule.expected.None? && rule.oneOf.Some? && rule.min.None? && rule.max.None? && rule.states == map[]
    requires f.parse(got) == Some(x) && forall v :: v in rule.oneOf.value ==> v.Num?
    ensures Check(rule, Some(Text(got)), params, f) == Holds <==> Num(x) in rule.oneOf.value
  {
    var list := rule.oneOf.value;
    forall i | 0 <= i < |list| ensures list[i].Num? && AsNumber(list[i], f) == Some(list[i].n) {
      assert list[i] in list;
    }
    if Num(x) in list {
      var i :| 0 <= i < |list| && list[i] == Num(x);
      assert AsNumber(list[i], f) == AsNumber(Text(got), f);
    }
  }

  // ---- what a success says about numbers ----

  /** The rule asks numbers of a number: what it expects has a value, and its list too. */
  predicate OfNumbers(rule: Rule, params: Args, f: Format) {
    && (rule.expected.Some? ==> OnlyNumbers(rule.expected.value, params) && Evaluate(rule.expected.value, params, f).Done?)
    && (rule.oneOf.Some? ==> forall v :: v in rule.oneOf.value ==> v.Num?)
  }

  /** The number lies within the rule's tolerance, in its list and between its bounds. */
  ghost predicate Meets(rule: Rule, g: real, params: Args, f: Format) {
    && (rule.expected.Some? ==> exists w :: Evaluate(rule.expected.value, params, f) == Done(Num(w)) &&
                                              w - rule.tolerance <= g <= w + rule.tolerance)
    && (rule.oneOf.Some? ==> Num(g) in rule.oneOf.value)
    && (rule.min.Some? ==> rule.min.value <= g)
    && (rule.max.Some? ==> g <= rule.max.value)
  }

  lemma HoldingMeets(rule: Rule, g: real, params: Args, f: Format)
    requires OfNumbers(rule, params, f)
    ensures Check(rule, Some(Num(g)), params, f) == Holds <==> Meets(rule, g, params, f)
  {
    NumericRuleHolds(rule, g, params, f);
    if rule.expected.Some? {
      var w := Wanted(rule, params, f).value.n;
      assert Evaluate(rule.expected.value, params, f) == Done(Num(w));
    }
  }

  /** A register that reads as True or False meets a rule of numbers as 1 or 0 would. */
  lemma FlagMeets(rule: Rule, b: bool, params: Args, f: Format)
    requires OfNumbers(rule, params, f)
    ensures Check(rule, Some(Flag(b)), params, f) == Holds <==> Meets(rule, if b then 1.0 else 0.0, params, f)
  {
    var g := if b then 1.0 else 0.0;
    HoldingMeets(rule, g, params, f);
    FlagIsListed(rule, b, f);
    FlagChecksAlike(rule, b, params, f);
  }

  lemma FlagIsListed(rule: Rule, b: bool, f: Format)
    requires rule.oneOf.Some? ==> forall v :: v in rule.oneOf.value ==> v.Num?
    ensures rule.oneOf.Some? ==>
              (Among(Flag(b), rule.oneOf.value, rule.states, f) <==>
               Among(Num(if b then 1.0 else 0.0), rule.oneOf.value, rule.states, f))
  {
    if rule.oneOf.Some? {
      var list, g := rule.oneOf.value, Num(if b then 1.0 else 0.0);
      forall i | 0 <= i < |list| ensures SameValue(Flag(b), list[i]) <==> SameValue(g, list[i]) {
        assert list[i] in list;
      }
    }
  }

  lemma FlagChecksAlike(rule: Rule, b: bool, params: Args, f: Format)
    requires OfNumbers(rule, params, f)
    requires rule.oneOf.Some? ==>
               (Among(Flag(b), rule.oneOf.value, rule.states, f) <==>
                Among(Num(if b then 1.0 else 0.0), rule.oneOf.value, rule.states, f))
    ensures Check(rule, Some(Flag(b)), params, f) == Check(rule, Some(Num(if b then 1.0 else 0.0)), params, f)
  {
    if rule.expected.Some? {
      NumbersGiveNumbers(rule.expected.value, params, f);
    }
  }

  lemma AllMeet(rules: seq<Rule>, r: Reading, params: Args, f: Format, i: nat, g: real)
    requires AllHold(rules, r, params, f) && i < |rules| && OfNumbers(rules[i], params, f)
    requires rules[i].read in r.values && r.values[rules[i].read] == Num(g)
    ensures Meets(rules[i], g, params, f)
  {
    assert JudgeRule(r, rules[i], params, f) == Holds;
    HoldingMeets(rules[i], g, params, f);
  }

  /** A success: every number a guard or a verify rule asks about met it, before anything
      was written and as it was read back, and every frame was acknowledged. */
  lemma SuccessMeans(report: Report, log: seq<Frame>, cmd: Command, regs: map<Name, Reg>,
                     enc: map<Name, real> -> Encoder, conn: Connection, maxRead: int, dryRun: bool, f: Format, i: nat, g: real)
    requires Reports(report, log, cmd, regs, enc, conn, maxRead, dryRun, f) && report.status == Success
    ensures report.frames == Some(log) && report.sent == Some(|log|)
    ensures report.before.Some? && forall k :: 0 <= k < |log| ==> conn.accepts(k)
    ensures i < |cmd.guard| && OfNumbers(cmd.guard[i], cmd.params, f) && Reads(report.before.value, cmd.guard[i].read, g) ==>
              Meets(cmd.guard[i], g, cmd.params, f)
    ensures cmd.verify != [] ==> report.after.Some?
    ensures i < |cmd.verify| && OfNumbers(cmd.verify[i], cmd.params, f) && Reads(report.after.value, cmd.verify[i].read, g) ==>
              Meets(cmd.verify[i], g, cmd.params, f)
  {
    if i < |cmd.guard| && OfNumbers(cmd.guard[i], cmd.params, f) && Reads(report.before.value, cmd.guard[i].read, g) {
      AllMeet(cmd.guard, report.before.value, cmd.params, f, i, g);
    }
    if i < |cmd.verify| && OfNumbers(cmd.verify[i], cmd.params, f) && Reads(report.after.value, cmd.verify[i].read, g) {
      AllMeet(cmd.verify, report.after.value, cmd.params, f, i, g);
    }
  }

  predicate Reads(r: Reading, n: Name, g: real) {
    n in r.values && r.values[n] == Num(g)
  }

  /** The run asks for the register: a guard, a verify rule or a scale factor names it. */
  ghost predicate Asks(cmd: Command, n: Name) {
    || n in cmd.scales
    || (exists i :: 0 <= i < |cmd.guard| && cmd.guard[i].read == n)
    || (exists i :: 0 <= i < |cmd.verify| && cmd.verify[i].read == n)
  }

  /** Too wide is what no single read of 125 words, or of fewer where the template says
      so, can bring. */
  lemma WideIs(cmd: Command, regs: map<Name, Reg>, maxRead: int)
    ensures TooWide(cmd, regs, maxRead) <==>
              exists n :: Asks(cmd, n) && n in regs && regs[n].count > (if 0 < maxRead < 125 then maxRead else 125)
  {
    if n :| Asks(cmd, n) && n in regs && regs[n].count > (if 0 < maxRead < 125 then maxRead else 125) {
      assert Wide(regs, n, maxRead);
    }
    if TooWide(cmd, regs, maxRead) {
      WideOne(cmd, regs, maxRead);
    }
  }

  lemma WideOne(cmd: Command, regs: map<Name, Reg>, maxRead: int)
    requires TooWide(cmd, regs, maxRead)
    ensures exists n :: Asks(cmd, n) && Wide(regs, n, maxRead)
  {
    if i :| 0 <= i < |cmd.scales| && Wide(regs, cmd.scales[i], maxRead) {
      assert Asks(cmd, cmd.scales[i]);
    } else if i :| 0 <= i < |cmd.guard| && Wide(regs, cmd.guard[i].read, maxRead) {
      assert Asks(cmd, cmd.guard[i].read);
    } else {
      var j :| 0 <= j < |cmd.verify| && Wide(regs, cmd.verify[j].read, maxRead);
      assert Asks(cmd, cmd.verify[j].read);
    }
  }

  lemma NamedIs(cmd: Command, regs: map<Name, Reg>)
    ensures AllNamed(cmd, regs) <==> forall n :: Asks(cmd, n) ==> n in regs
  {
    if forall n :: Asks(cmd, n) ==> n in regs {
      forall i | 0 <= i < |cmd.scales| ensures cmd.scales[i] in regs {
        assert Asks(cmd, cmd.scales[i]);
      }
      forall i | 0 <= i < |cmd.guard| ensures cmd.guard[i].read in regs {
        assert Asks(cmd, cmd.guard[i].read);
      }
      forall i | 0 <= i < |cmd.verify| ensures cmd.verify[i].read in regs {
        assert Asks(cmd, cmd.verify[i].read);
      }
    }
  }

  /** A run that asks for a register that is missing, or, once the device answers, for one
      too wide for a read, breaks off and writes nothing. */
  lemma UnreadableRaises(report: Report, log: seq<Frame>, cmd: Command, regs: map<Name, Reg>,
                         enc: map<Name, real> -> Encoder, conn: Connection, maxRead: int, dryRun: bool, f: Format, n: Name)
    requires Reports(report, log, cmd, regs, enc, conn, maxRead, dryRun, f) && Asks(cmd, n)
    requires n !in regs || (regs[n].count > (if 0 < maxRead < 125 then maxRead else 125) && conn.answers(0).Some?)
    ensures report.status == Raised && report.before.None? && log == []
  {
    NamedIs(cmd, regs);
    WideIs(cmd, regs, maxRead);
    assert RaisesEarly(cmd, regs, conn, maxRead, f);
  }
}
