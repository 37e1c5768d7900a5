/** One run, two views: what a run of a command sends over a connection that tells
    the truth leaves in the device what the queue's view of the run says. */
module CommandRuns {
  import opened Prelude
  import opened LaneModel
  import E = Expressions
  import F = Frames
  import V = Verdict
  import Q = Coalesce

  /** How the words of registers become values and scale factors. */
  type Decoder = Q.Readings -> V.Reading

  predicate AskedFor(cmd: V.Command, n: Name) {
    n in cmd.scales || exists i :: 0 <= i < |cmd.guard| && cmd.guard[i].read == n
  }

  /** The device's view of the job is the command's: it reads the registers of its
      guards and the scale factors, and judges and encodes by what it read. */
  ghost predicate Describes(dev: Q.Device, j: Job, cmd: V.Command, enc: map<Name, real> -> F.Encoder,
                            decode: Decoder, f: E.Format) {
    && cmd.writes == Q.Writes(dev, j) && cmd.params == j.params
    && (forall n :: n in Q.ReadNames(dev, j) <==> AskedFor(cmd, n))
    && (forall known :: dev.guard(j.command, known, j.params) == V.AllHold(cmd.guard, decode(known), cmd.params, f))
    && (forall known :: dev.enc(known) == enc(decode(known).scales))
  }

  /** The reading has of the guards' registers and of the scale factors what the
      device holds. */
  ghost predicate Tells(r: V.Reading, held: V.Reading, cmd: V.Command) {
    && r.scales == held.scales
    && forall i :: 0 <= i < |cmd.guard| ==> V.Got(r, cmd.guard[i]) == V.Got(held, cmd.guard[i])
  }

  lemma SameJudgement(r: V.Reading, held: V.Reading, cmd: V.Command, f: E.Format)
    requires Tells(r, held, cmd)
    ensures V.AllHold(cmd.guard, r, cmd.params, f) <==> V.AllHold(cmd.guard, held, cmd.params, f)
  {
    forall i | 0 <= i < |cmd.guard|
      ensures V.JudgeRule(r, cmd.guard[i], cmd.params, f) == V.JudgeRule(held, cmd.guard[i], cmd.params, f)
    {
      assert V.Got(r, cmd.guard[i]) == V.Got(held, cmd.guard[i]);
    }
  }

  /** What the queue's view plans is what the run plans. */
  lemma SamePlan(dev: Q.Device, m: F.Memory, j: Job, cmd: V.Command, enc: map<Name, real> -> F.Encoder,
                 decode: Decoder, r: V.Reading, f: E.Format)
    requires Describes(dev, j, cmd, enc, decode, f) && V.AllNamed(cmd, dev.regs)
    requires Tells(r, decode(Q.Known(dev, m, j)), cmd)
    ensures Q.PlanOf(dev, m, j) ==
            if V.AllHold(cmd.guard, r, cmd.params, f) then V.ItemsOf(cmd, dev.regs, enc, r) else Refuses
  {
    var known := Q.Known(dev, m, j);
    SameJudgement(r, decode(known), cmd, f);
    forall n | n in Q.ReadNames(dev, j) ensures n in dev.regs {
      assert AskedFor(cmd, n);
    }
    assert dev.guard(j.command, known, j.params) == V.AllHold(cmd.guard, decode(known), cmd.params, f);
    assert dev.enc(known) == enc(decode(known).scales);
  }

  /** A run whose reads tell what the device holds, and whose writes are all
      acknowledged, leaves what the job leaves: refused, broken off or judged in
      whatever way. */
  lemma RunLeavesTheJob(dev: Q.Device, m: F.Memory, j: Job, cmd: V.Command, enc: map<Name, real> -> F.Encoder,
                        decode: Decoder, conn: V.Connection, maxRead: int, f: E.Format,
                        report: V.Report, log: seq<F.Frame>)
    requires Describes(dev, j, cmd, enc, decode, f) && V.Begins(cmd, dev.regs, conn, maxRead)
    requires Tells(V.LastReading(cmd, conn, f), decode(Q.Known(dev, m, j)), cmd)
    requires forall k :: conn.accepts(k)
    requires V.Reports(report, log, cmd, dev.regs, enc, conn, maxRead, false, f)
    ensures F.WriteFrames(m, log) == Q.RunJob(dev, m, j)
  {
    var last := V.LastReading(cmd, conn, f);
    SamePlan(dev, m, j, cmd, enc, decode, last, f);
    SentAsPlanned(cmd, dev.regs, enc, conn, maxRead, f, report, log);
    SentLeaves(dev, m, j, V.AllHold(cmd.guard, last, cmd.params, f), V.ItemsOf(cmd, dev.regs, enc, last), log);
  }

  lemma SentLeaves(dev: Q.Device, m: F.Memory, j: Job, holds: bool, items: Attempt<seq<F.Item>>, log: seq<F.Frame>)
    requires Q.PlanOf(dev, m, j) == if holds then items else Refuses
    requires log == if holds && items.Done? then F.Merged(items.value) else []
    ensures F.WriteFrames(m, log) == Q.RunJob(dev, m, j)
  {
    assert F.WriteFrames(m, []) == m;
  }

  /** With every write acknowledged, what went out is what was planned, or nothing. */
  lemma SentAsPlanned(cmd: V.Command, regs: map<Name, F.Reg>, enc: map<Name, real> -> F.Encoder, conn: V.Connection,
                      maxRead: int, f: E.Format, report: V.Report, log: seq<F.Frame>)
    requires V.Begins(cmd, regs, conn, maxRead) && forall k :: conn.accepts(k)
    requires V.Reports(report, log, cmd, regs, enc, conn, maxRead, false, f)
    ensures
      var last := V.LastReading(cmd, conn, f);
      var items := V.ItemsOf(cmd, regs, enc, last);
      log == if V.AllHold(cmd.guard, last, cmd.params, f) && items.Done? then F.Merged(items.value) else []
  {
    if V.WritesAll(cmd, regs, enc, conn, maxRead, false, f) {
      assert report.frames == Some(log);
    } else {
      assert log == [];
    }
  }
}
