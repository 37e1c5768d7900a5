/** One run of a command: guard, write, settle, verify, and the verdict, over a
    connection that may answer or fail at any call. */
module Verdict {
  import opened Prelude
  import opened Expressions
  import opened Frames
  import Blocks

  // ---- rules on read-back values ----

  /** `states` are the texts of the register's codes, if it has any. */
  datatype Rule = Rule(
    read: Name, expected: Option<Expr>, tolerance: real, oneOf: Option<seq<Value>>,
    min: Option<real>, max: Option<real>, states: map<int, string>)

  datatype Judged = Holds | Fails | Raises

  function AsNumber(v: Value, f: Format): Option<real> {
    match v
    case Num(n) => Some(n)
    case Flag(_) => Some(NumberOf(v))
    case Text(s) => f.parse(s)
    case Nothing => None
  }

  function AsText(v: Value, f: Format): string {
    match v
    case Num(n) => f.show(n)
    case Flag(b) => if b then "True" else "False"
    case Text(s) => s
    case Nothing => "None"
  }

  /** Equal as Python has it: True is 1. */
  predicate SameValue(a: Value, b: Value) {
    if IsNumber(a) && IsNumber(b) then NumberOf(a) == NumberOf(b) else a == b
  }

  function Abs(x: real): real {
    if x < 0.0 then -x else x
  }

  /** The text of a code. */
  function Decoded(x: real, states: map<int, string>, f: Format): string {
    var code := x.Floor;
    if code in states then states[code] else "unknown (" + f.show(x) + ")"
  }

  /** A code written in a rule stands for its text when the register reads as text. */
  function Meant(want: Value, got: Value, states: map<int, string>, f: Format): Value {
    if want.Num? && got.Text? && states != map[] && want.n == want.n.Floor as real then
      var text := Decoded(want.n, states, f);
      if "unknown (" <= text then want else Text(text)
    else want
  }

  predicate Expected(want: Value, got: Value, tolerance: real, f: Format) {
    if IsNumber(want) && IsNumber(got) then Abs(NumberOf(got) - NumberOf(want)) <= tolerance
    else AsText(got, f) == AsText(want, f)
  }

  predicate Labelled(got: Value, list: seq<Value>, states: map<int, string>, f: Format) {
    states != map[] && got.Text? &&
    exists i :: 0 <= i < |list| && list[i].Num? && list[i].n == list[i].n.Floor as real &&
                Decoded(list[i].n, states, f) == got.s
  }

  predicate AmongNumbers(got: Value, list: seq<Value>, f: Format) {
    && AsNumber(got, f).Some?
    && (forall i :: 0 <= i < |list| ==> AsNumber(list[i], f).Some?)
    && exists i :: 0 <= i < |list| && AsNumber(list[i], f) == AsNumber(got, f)
  }

  predicate Among(got: Value, list: seq<Value>, states: map<int, string>, f: Format) {
    (exists i :: 0 <= i < |list| && SameValue(got, list[i])) || Labelled(got, list, states, f) || AmongNumbers(got, list, f)
  }

  predicate InBounds(got: Value, min: Option<real>, max: Option<real>, f: Format) {
    var g := AsNumber(got, f);
    (min.Some? || max.Some?) ==>
      && g.Some?
      && (min.Some? ==> g.value >= min.value)
      && (max.Some? ==> g.value <= max.value)
  }

  /** What the rule expects with these parameters, if it states that. */
  function Wanted(rule: Rule, params: Args, f: Format): Attempt<Value>
    requires rule.expected.Some?
  {
    Evaluate(rule.expected.value, params, f)
  }

  /** The rule states an expectation that has no value with these parameters. */
  predicate Broken(rule: Rule, params: Args, f: Format) {
    rule.expected.Some? && !Wanted(rule, params, f).Done?
  }

  function Check(rule: Rule, reading: Option<Value>, params: Args, f: Format): Judged {
    if reading.None? || reading.value.Nothing? then Fails
    else
      var got := reading.value;
      if Broken(rule, params, f) then Raises
      else if rule.expected.Some? &&
              !Expected(Meant(Wanted(rule, params, f).value, got, rule.states, f), got, rule.tolerance, f) then Fails
      else if rule.oneOf.Some? && !Among(got, rule.oneOf.value, rule.states, f) then Fails
      else if !InBounds(got, rule.min, rule.max, f) then Fails
      else Holds
  }

  /** A rule of numbers holds on a number exactly within its tolerance, list and bounds. */
  lemma NumericRuleHolds(rule: Rule, g: real, params: Args, f: Format)
    requires rule.expected.Some? ==> OnlyNumbers(rule.expected.value, params) && !Broken(rule, params, f)
    requires rule.oneOf.Some? ==> forall v :: v in rule.oneOf.value ==> v.Num?
    ensures rule.expected.Some? ==> Wanted(rule, params, f).value.Num?
    ensures Check(rule, Some(Num(g)), params, f) == Holds <==>
            && (rule.expected.Some? ==>
                  var w := Wanted(rule, params, f).value.n; w - rule.tolerance <= g <= w + rule.tolerance)
            && (rule.oneOf.Some? ==> Num(g) in rule.oneOf.value)
            && (rule.min.Some? ==> rule.min.value <= g)
            && (rule.max.Some? ==> g <= rule.max.value)
  {
    if rule.expected.Some? {
      NumbersGiveNumbers(rule.expected.value, params, f);
    }
    if rule.oneOf.Some? {
      ListedNumbers(g, rule.oneOf.value, rule.states, f);
    }
  }

  lemma ListedNumbers(g: real, list: seq<Value>, states: map<int, string>, f: Format)
    requires forall v :: v in list ==> v.Num?
    ensures Among(Num(g), list, states, f) <==> Num(g) in list
  {
    forall i | 0 <= i < |list| ensures SameValue(Num(g), list[i]) <==> list[i] == Num(g) {
      assert list[i] in list;
    }
    if AmongNumbers(Num(g), list, f) {
      var i :| 0 <= i < |list| && AsNumber(list[i], f) == Some(g);
      assert SameValue(Num(g), list[i]);
    }
    if Num(g) in list {
      var i :| 0 <= i < |list| && list[i] == Num(g);
      assert SameValue(Num(g), list[i]);
    }
  }

  // ---- a run ----

  datatype Command = Command(
    guard: seq<Rule>, verify: seq<Rule>, writes: seq<Write>, scales: seq<Name>, params: Args)

  /** What a read of named registers brings. */
  datatype Reading = Reading(values: map<Name, Value>, scales: map<Name, real>)

  /** The connection: its answer to the k-th read (none: silence) and whether
      the k-th write is acknowledged. With a register too wide to read, an answer
      stands for the reads made before that register is come to. */
  datatype Connection = Connection(answers: nat -> Option<Reading>, accepts: nat -> bool)

  datatype Status = Rejected | Error | DryRun | Success | Mismatch | Unverified | Raised

  datatype Report = Report(
    status: Status, sent: Option<nat>, frames: Option<seq<Frame>>,
    before: Option<Reading>, after: Option<Reading>)

  function Got(r: Reading, rule: Rule): Option<Value> {
    if rule.read in r.values then Some(r.values[rule.read]) else None
  }

  function JudgeRule(r: Reading, rule: Rule, params: Args, f: Format): Judged {
    Check(rule, Got(r, rule), params, f)
  }

  predicate AllHold(rules: seq<Rule>, r: Reading, params: Args, f: Format) {
    forall i :: 0 <= i < |rules| ==> JudgeRule(r, rules[i], params, f) == Holds
  }

  /** The first rule that does not hold decides. */
  predicate FirstBad(rules: seq<Rule>, r: Reading, params: Args, f: Format, judged: Judged) {
    exists i :: 0 <= i < |rules| && JudgeRule(r, rules[i], params, f) == judged != Holds &&
                forall j :: 0 <= j < i ==> JudgeRule(r, rules[j], params, f) == Holds
  }

  predicate SomeRaises(rules: seq<Rule>, r: Reading, params: Args, f: Format) {
    exists i :: 0 <= i < |rules| && JudgeRule(r, rules[i], params, f) == Raises
  }

  predicate AllNamed(cmd: Command, regs: map<Name, Reg>) {
    && (forall i :: 0 <= i < |cmd.scales| ==> cmd.scales[i] in regs)
    && (forall i :: 0 <= i < |cmd.guard| ==> cmd.guard[i].read in regs)
    && (forall i :: 0 <= i < |cmd.verify| ==> cmd.verify[i].read in regs)
  }

  predicate Wide(regs: map<Name, Reg>, n: Name, maxRead: int) {
    n in regs && regs[n].count > Blocks.Limit(maxRead)
  }

  /** A register to be read is longer than one read may be. */
  predicate TooWide(cmd: Command, regs: map<Name, Reg>, maxRead: int) {
    || (exists i :: 0 <= i < |cmd.scales| && Wide(regs, cmd.scales[i], maxRead))
    || (exists i :: 0 <= i < |cmd.guard| && Wide(regs, cmd.guard[i].read, maxRead))
    || (exists i :: 0 <= i < |cmd.verify| && Wide(regs, cmd.verify[i].read, maxRead))
  }

  function Ask(conn: Connection, k: nat, nothing: bool): Option<Reading> {
    if nothing then Some(Reading(map[], map[])) else conn.answers(k)
  }

  /** Whether the pre-write read asks for nothing at all. */
  predicate AsksNothing(cmd: Command) {
    cmd.guard == [] && cmd.verify == [] && cmd.scales == []
  }

  /** The first answered read: the first, or the one try after it. */
  function FirstRead(cmd: Command, conn: Connection): Option<(Reading, nat)> {
    var a := Ask(conn, 0, AsksNothing(cmd));
    if a.Some? then Some((a.value, 1))
    else
      var b := Ask(conn, 1, AsksNothing(cmd));
      if b.Some? then Some((b.value, 2)) else None
  }

  /** The guards over one reading: all are judged. */
  method JudgeGuards(rules: seq<Rule>, r: Reading, params: Args, f: Format) returns (judged: Judged)
    ensures judged == Raises <==> SomeRaises(rules, r, params, f)
    ensures judged == Holds <==> AllHold(rules, r, params, f)
  {
    judged := Holds;
    for i := 0 to |rules|
      invariant judged != Raises
      invariant judged == Holds <==> forall j :: 0 <= j < i ==> JudgeRule(r, rules[j], params, f) == Holds
      invariant forall j :: 0 <= j < i ==> JudgeRule(r, rules[j], params, f) != Raises
    {
      var one := JudgeRule(r, rules[i], params, f);
      if one == Raises {
        return Raises;
      }
      if one == Fails {
        judged := Fails;
      }
    }
  }

  /** The verify rules over the read-back: the first that does not hold ends it. */
  method JudgeVerify(rules: seq<Rule>, r: Reading, params: Args, f: Format) returns (judged: Judged)
    ensures judged == Holds <==> AllHold(rules, r, params, f)
    ensures judged != Holds ==> FirstBad(rules, r, params, f, judged)
  {
    judged := Holds;
    for i := 0 to |rules|
      invariant forall j :: 0 <= j < i ==> JudgeRule(r, rules[j], params, f) == Holds
    {
      var one := JudgeRule(r, rules[i], params, f);
      if one != Holds {
        return one;
      }
    }
  }

  /** The frames, one after the other, until one is refused. */
  method SendFrames(frames: seq<Frame>, conn: Connection) returns (log: seq<Frame>, ok: bool)
    ensures log <= frames
    ensures ok ==> log == frames && forall k :: 0 <= k < |log| ==> conn.accepts(k)
    ensures !ok ==> log != [] && !conn.accepts(|log| - 1) && forall k :: 0 <= k < |log| - 1 ==> conn.accepts(k)
  {
    log := [];
    for i := 0 to |frames|
      invariant log == frames[..i]
      invariant forall k :: 0 <= k < i ==> conn.accepts(k)
    {
      log := log + [frames[i]];
      if !conn.accepts(i) {
        return log, false;
      }
    }
    ok := true;
  }

  /** Every frame went out, in order, and was acknowledged. */
  predicate AllSent(report: Report, log: seq<Frame>, conn: Connection) {
    && report.frames == Some(log)
    && report.sent == Some(|log|)
    && forall k :: 0 <= k < |log| ==> conn.accepts(k)
  }

  /** The items of a run, from the scale factors of one reading. */
  function ItemsOf(cmd: Command, regs: map<Name, Reg>, enc: map<Name, real> -> Encoder, r: Reading): Attempt<seq<Item>> {
    Items(cmd.writes, cmd.params, regs, enc(r.scales))
  }

  /** The frames are the ones planned from the scale factors read before. */
  predicate Planned(report: Report, cmd: Command, regs: map<Name, Reg>, enc: map<Name, real> -> Encoder) {
    report.frames.Some? ==>
      report.before.Some? &&
      var items := ItemsOf(cmd, regs, enc, report.before.value);
      items.Done? && report.frames.value == Merged(items.value)
  }

  /** The one more reading taken because a guard failed on the first, if it was
      answered. */
  function SecondLook(cmd: Command, conn: Connection, f: Format): Option<Reading>
    requires FirstRead(cmd, conn).Some?
  {
    var first := FirstRead(cmd, conn).value;
    if AllHold(cmd.guard, first.0, cmd.params, f) || SomeRaises(cmd.guard, first.0, cmd.params, f) then None
    else Ask(conn, first.1, AsksNothing(cmd))
  }

  /** The reading the guards are last judged on. */
  function LastReading(cmd: Command, conn: Connection, f: Format): Reading
    requires FirstRead(cmd, conn).Some?
  {
    var again := SecondLook(cmd, conn, f);
    if again.Some? then again.value else FirstRead(cmd, conn).value.0
  }

  /** Every register can be read, and the device answered. */
  predicate Begins(cmd: Command, regs: map<Name, Reg>, conn: Connection, maxRead: int) {
    AllNamed(cmd, regs) && !TooWide(cmd, regs, maxRead) && FirstRead(cmd, conn).Some?
  }

  /** The run breaks off before a reading is believed: a register is missing or
      too wide, or a guard does not evaluate. */
  predicate RaisesEarly(cmd: Command, regs: map<Name, Reg>, conn: Connection, maxRead: int, f: Format) {
    || !AllNamed(cmd, regs)
    || (FirstRead(cmd, conn).Some? &&
        (TooWide(cmd, regs, maxRead) || SomeRaises(cmd.guard, LastReading(cmd, conn, f), cmd.params, f)))
  }

  /** It breaks off between the guards and the writes: a value does not evaluate. */
  predicate RaisesPlanning(cmd: Command, regs: map<Name, Reg>, enc: map<Name, real> -> Encoder, conn: Connection,
                           maxRead: int, f: Format) {
    && Begins(cmd, regs, conn, maxRead)
    && AllHold(cmd.guard, LastReading(cmd, conn, f), cmd.params, f)
    && ItemsOf(cmd, regs, enc, LastReading(cmd, conn, f)).Breaks?
  }

  /** It is turned down: a guard failed, or a value was refused. */
  predicate IsRejected(cmd: Command, regs: map<Name, Reg>, enc: map<Name, real> -> Encoder, conn: Connection,
                       maxRead: int, f: Format) {
    && Begins(cmd, regs, conn, maxRead)
    && var last := LastReading(cmd, conn, f);
       if AllHold(cmd.guard, last, cmd.params, f) then ItemsOf(cmd, regs, enc, last).Refuses? else !SomeRaises(cmd.guard, last, cmd.params, f)
  }

  /** The run gets through all of its writes. */
  predicate WritesAll(cmd: Command, regs: map<Name, Reg>, enc: map<Name, real> -> Encoder, conn: Connection,
                      maxRead: int, dryRun: bool, f: Format) {
    && !dryRun
    && Begins(cmd, regs, conn, maxRead)
    && AllHold(cmd.guard, LastReading(cmd, conn, f), cmd.params, f)
    && var items := ItemsOf(cmd, regs, enc, LastReading(cmd, conn, f));
       items.Done? && forall k :: 0 <= k < |Merged(items.value)| ==> conn.accepts(k)
  }

  /** Which read is the read-back: the one after those made before writing. */
  function ReadBack(cmd: Command, conn: Connection, f: Format): nat
    requires FirstRead(cmd, conn).Some?
  {
    var first := FirstRead(cmd, conn).value;
    if AllHold(cmd.guard, first.0, cmd.params, f) then first.1 else first.1 + 1
  }

  /** It breaks off after all writes: the read-back is answered, and the first
      verify rule that does not hold on it does not evaluate. */
  predicate RaisesLate(cmd: Command, regs: map<Name, Reg>, enc: map<Name, real> -> Encoder, conn: Connection,
                       maxRead: int, dryRun: bool, f: Format) {
    && WritesAll(cmd, regs, enc, conn, maxRead, dryRun, f)
    && cmd.verify != []
    && var after := conn.answers(ReadBack(cmd, conn, f));
       after.Some? && FirstBad(cmd.verify, after.value, cmd.params, f, Raises)
  }

  /** What a verdict says about what went out on the wire. */
  predicate Sound(report: Report, log: seq<Frame>, cmd: Command, conn: Connection, dryRun: bool, f: Format) {
    match report.status
    case Rejected => log == [] && report.before.Some? && report.frames.None?
    case DryRun => log == [] && dryRun && report.frames.Some? && report.before.Some? && AllHold(cmd.guard, report.before.value, cmd.params, f)
    case Error =>
      if report.sent.None? then log == [] && FirstRead(cmd, conn).None?
      else
        && report.frames.Some? && log <= report.frames.value && |log| == report.sent.value + 1
        && !conn.accepts(report.sent.value)
        && forall k :: 0 <= k < report.sent.value ==> conn.accepts(k)
    case Unverified => AllSent(report, log, conn) && report.after.None? && cmd.verify != []
    case Mismatch =>
      && AllSent(report, log, conn)
      && report.after.Some? && FirstBad(cmd.verify, report.after.value, cmd.params, f, Fails)
    case Success =>
      && AllSent(report, log, conn)
      && report.before.Some? && AllHold(cmd.guard, report.before.value, cmd.params, f)
      && (cmd.verify != [] ==> report.after.Some? && AllHold(cmd.verify, report.after.value, cmd.params, f))
    case Raised =>
      if report.after.None? then log == []
      else AllSent(report, log, conn) && FirstBad(cmd.verify, report.after.value, cmd.params, f, Raises)
  }

  /** Everything the report of a run says: what went out, the reading the guards were
      judged on, and exactly when the run is rejected, writes all, or breaks off. */
  predicate Reports(report: Report, log: seq<Frame>, cmd: Command, regs: map<Name, Reg>,
                    enc: map<Name, real> -> Encoder, conn: Connection, maxRead: int, dryRun: bool, f: Format) {
    && Sound(report, log, cmd, conn, dryRun, f)
    && Planned(report, cmd, regs, enc)
    && (report.before.Some? ==> FirstRead(cmd, conn).Some? && report.before.value == LastReading(cmd, conn, f))
    && (report.status == Raised && report.before.None? <==> RaisesEarly(cmd, regs, conn, maxRead, f))
    && (report.status == Raised && report.before.Some? && report.after.None? <==>
          RaisesPlanning(cmd, regs, enc, conn, maxRead, f))
    && (report.status == Raised && report.after.Some? <==> RaisesLate(cmd, regs, enc, conn, maxRead, dryRun, f))
    && (report.status == Rejected <==> IsRejected(cmd, regs, enc, conn, maxRead, f))
    && (report.status in {Success, Mismatch, Unverified} || report.after.Some? <==>
          WritesAll(cmd, regs, enc, conn, maxRead, dryRun, f))
    && (report.after.Some? || (report.status in {Success, Mismatch, Unverified} && cmd.verify != []) ==>
          FirstRead(cmd, conn).Some? && report.after == conn.answers(ReadBack(cmd, conn, f)))
    && (log != [] ==> !dryRun && report.before.Some? && AllHold(cmd.guard, report.before.value, cmd.params, f))
  }

  /** The guards on the first reading, and once more when one failed on it. */
  method JudgeBefore(cmd: Command, conn: Connection, f: Format) returns (before: Reading, judged: Judged, next: nat)
    requires FirstRead(cmd, conn).Some?
    ensures before == LastReading(cmd, conn, f)
    ensures judged == Raises <==> SomeRaises(cmd.guard, before, cmd.params, f)
    ensures judged == Holds <==> AllHold(cmd.guard, before, cmd.params, f)
    ensures judged == Holds ==> next == ReadBack(cmd, conn, f)
  {
    var first := FirstRead(cmd, conn).value;
    before, next := first.0, first.1;
    judged := JudgeGuards(cmd.guard, before, cmd.params, f);
    if judged == Fails {
      var again := Ask(conn, next, AsksNothing(cmd));
      next := next + 1;
      if again.Some? {
        before := again.value;
        judged := JudgeGuards(cmd.guard, before, cmd.params, f);
      }
    }
  }

  /** The run from its first frame on: write, read back, verify. */
  method WriteAndVerify(planned: Report, frames: seq<Frame>, cmd: Command, conn: Connection, next: nat, f: Format)
    returns (report: Report, log: seq<Frame>)
    requires planned.before.Some? && AllHold(cmd.guard, planned.before.value, cmd.params, f)
    requires planned.frames == Some(frames) && planned.sent.None? && planned.after.None?
    ensures Sound(report, log, cmd, conn, false, f)
    ensures report.before == planned.before && report.frames == planned.frames
    ensures report.status in {Error, Success, Mismatch, Unverified, Raised}
    ensures report.status == Error <==> exists k :: 0 <= k < |frames| && !conn.accepts(k)
    ensures report.status == Error ==> report.after.None? && report.sent.Some?
    ensures report.status != Error ==> report.after == if cmd.verify == [] then None else conn.answers(next)
    ensures report.status == Raised <==>
            && (forall k :: 0 <= k < |frames| ==> conn.accepts(k))
            && report.after.Some? && FirstBad(cmd.verify, report.after.value, cmd.params, f, Raises)
  {
    report := planned;
    var ok;
    log, ok := SendFrames(frames, conn);
    if !ok {
      assert !conn.accepts(|log| - 1);
      return report.(status := Error, sent := Some(|log| - 1)), log;
    }
    report := report.(sent := Some(|log|));
    if cmd.verify == [] {
      return report.(status := Success), log;
    }
    var after := conn.answers(next);
    if after.None? {
      return report.(status := Unverified), log;
    }
    report := report.(after := after);
    var judged := JudgeVerify(cmd.verify, after.value, cmd.params, f);
    report := report.(status := if judged == Holds then Success else if judged == Fails then Mismatch else Raised);
  }

  /** Guard, write, verify: the report, and every frame handed to the connection. */
  method RunCommand(cmd: Command, regs: map<Name, Reg>, enc: map<Name, real> -> Encoder,
                    conn: Connection, maxRead: int, dryRun: bool, f: Format)
    returns (report: Report, log: seq<Frame>)
    ensures Reports(report, log, cmd, regs, enc, conn, maxRead, dryRun, f)
  {
    log := [];
    report := Report(Raised, None, None, None, None);
    if !AllNamed(cmd, regs) {
      return;
    }
    var first := FirstRead(cmd, conn);
    if first.None? {
      return report.(status := Error), [];
    }
    if TooWide(cmd, regs, maxRead) {
      return;
    }
    var before, judged, next := JudgeBefore(cmd, conn, f);
    if judged == Raises {
      return;
    }
    report := report.(before := Some(before));
    if judged == Fails {
      return report.(status := Rejected), [];
    }
    var frames := PlanFrames(cmd.writes, cmd.params, regs, enc(before.scales));
    if !frames.Done? {
      return report.(status := if frames.Refuses? then Rejected else Raised), [];
    }
    report := report.(frames := Some(frames.value));
    if dryRun {
      return report.(status := DryRun), [];
    }
    report, log := WriteAndVerify(report, frames.value, cmd, conn, next, f);
  }

  // ---- what a verdict means for the device ----

  /** A success, a mismatch and an unanswered read-back all leave exactly what
      the declared writes, one by one, would have left. */
  lemma WrittenAsDeclared(report: Report, log: seq<Frame>, cmd: Command, regs: map<Name, Reg>,
                          enc: map<Name, real> -> Encoder, conn: Connection, dryRun: bool, f: Format, m: Memory)
    requires Sound(report, log, cmd, conn, dryRun, f) && Planned(report, cmd, regs, enc)
    requires report.status in {Success, Mismatch, Unverified}
    ensures report.before.Some?
    ensures
      var items := ItemsOf(cmd, regs, enc, report.before.value);
      items.Done? && WriteFrames(m, log) == WriteItems(m, items.value)
  {
    var items := ItemsOf(cmd, regs, enc, report.before.value);
    MergingKeepsTheMeaning(m, items.value);
  }

  /** A verdict that nothing was written is never given after a write. */
  lemma NothingWrittenMeansNothing(report: Report, log: seq<Frame>, cmd: Command, conn: Connection, dryRun: bool, f: Format)
    requires Sound(report, log, cmd, conn, dryRun, f) && log != []
    ensures report.status != Rejected && report.status != DryRun
    ensures report.status == Error ==> report.sent.Some? && report.sent.value < |log|
    ensures report.status == Raised ==> SomeRaises(cmd.verify, report.after.value, cmd.params, f)
  {
  }
}
