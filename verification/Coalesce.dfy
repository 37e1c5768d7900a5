/** Why a newer value may take the place of one that waits: what the queue
    writes in the end is what it would have written with both. */
module Coalesce {
  import opened Prelude
  import opened LaneModel
  import opened LaneTurns
  import F = Frames
  import C = Channels
  import CF = ChannelFacts

  /** The words of registers read before a command writes. */
  type Readings = map<Name, seq<int>>

  /** A device as its commands see it: its registers, its commands, the channel
      of each; the registers a command reads before it writes (those of its
      guards, and the scale factors of what it writes), whether its guards hold
      on what was read, and how values become words with those scale factors. */
  datatype Device = Device(
    regs: map<Name, F.Reg>, defs: C.Defs, ids: map<Name, Name>, asks: map<Name, set<Name>>,
    guard: (Name, Readings, Args) -> bool, enc: Readings -> F.Encoder)

  function Span(kind: F.RegType, address: int, count: nat): set<F.Cell> {
    set a | address <= a < address + count :: F.Cell(kind, a)
  }

  function CellsOf(reg: F.Reg): set<F.Cell> {
    Span(reg.kind, reg.address, reg.count)
  }

  ghost predicate Encodes(dev: Device) {
    forall known :: F.Encodes(dev.enc(known), dev.regs)
  }

  /** Some command of the device writes this register. */
  ghost predicate Written(dev: Device, r: Name) {
    exists n :: C.Own(dev.defs, n) && CF.WritesRegister(dev.defs.of[n], r)
  }

  /** The template: channels come from its commands, and of the registers they
      write no two share a cell. */
  ghost predicate ValidDevice(dev: Device) {
    && C.ValidDefs(dev.defs) && C.ChannelIds(dev.defs, dev.ids) && Encodes(dev)
    && C.NO_NAME !in dev.regs
    && forall a, b :: a in dev.regs && b in dev.regs && a != b && Written(dev, a) && Written(dev, b) ==>
         CellsOf(dev.regs[a]) !! CellsOf(dev.regs[b])
  }

  /** A job of one of the device's own commands, on that command's channel. */
  predicate OnItsChannel(dev: Device, j: Job) {
    C.Own(dev.defs, j.command) && j.command in dev.ids && j.channel == dev.ids[j.command]
  }

  function Writes(dev: Device, j: Job): seq<F.Write> {
    if j.command in dev.defs.of then dev.defs.of[j.command].writes else []
  }

  // ---- what a run reads ----

  /** A register or coil nobody wrote yet holds zero. */
  function Look(m: F.Memory, c: F.Cell): int {
    if c in m then m[c] else 0
  }

  function WordsAt(m: F.Memory, kind: F.RegType, address: int, count: nat): seq<int>
    decreases count
  {
    if count == 0 then [] else [Look(m, F.Cell(kind, address))] + WordsAt(m, kind, address + 1, count - 1)
  }

  function ReadNames(dev: Device, j: Job): set<Name> {
    if j.command in dev.asks then dev.asks[j.command] else {}
  }

  function Known(dev: Device, m: F.Memory, j: Job): Readings {
    map r | r in ReadNames(dev, j) && r in dev.regs ::
      WordsAt(m, dev.regs[r].kind, dev.regs[r].address, dev.regs[r].count)
  }

  lemma {:induction false} WordsAre(m: F.Memory, kind: F.RegType, address: int, count: nat, i: nat)
    ensures |WordsAt(m, kind, address, count)| == count
    ensures i < count ==>
              WordsAt(m, kind, address, count)[i] == Look(m, F.Cell(kind, address + i))
    decreases count
  {
    if count > 0 {
      WordsAre(m, kind, address + 1, count - 1, if i > 0 then i - 1 else 0);
    }
  }

  /** A run knows the words of the registers it asks for: each as the device holds it, a
      register or coil nobody wrote as zero. */
  lemma KnownAre(dev: Device, m: F.Memory, j: Job, r: Name, i: nat)
    ensures r in Known(dev, m, j) <==> j.command in dev.asks && r in dev.asks[j.command] && r in dev.regs
    ensures r in Known(dev, m, j) ==>
              var reg, words := dev.regs[r], Known(dev, m, j)[r];
              && |words| == reg.count
              && (i < reg.count ==>
                    var c := F.Cell(reg.kind, reg.address + i); words[i] == if c in m then m[c] else 0)
  {
    if r in Known(dev, m, j) {
      var reg := dev.regs[r];
      WordsAre(m, reg.kind, reg.address, reg.count, i);
    }
  }

  /** The cells a run of the job reads before it writes. */
  function ReadCells(dev: Device, j: Job): set<F.Cell> {
    set r, c | r in ReadNames(dev, j) && r in dev.regs && c in CellsOf(dev.regs[r]) :: c
  }

  // ---- what a run does ----

  /** The items a run would write: with its guards held, by the scale factors
      the device has at that moment. */
  function PlanOf(dev: Device, m: F.Memory, j: Job): Attempt<seq<F.Item>> {
    if !(ReadNames(dev, j) <= dev.regs.Keys) || !dev.guard(j.command, Known(dev, m, j), j.params) then Refuses
    else F.Items(Writes(dev, j), j.params, dev.regs, dev.enc(Known(dev, m, j)))
  }

  /** A run that asks for a register the device does not have leaves everything as it is,
      and so does one whose guards do not hold or whose values do not encode. */
  lemma NothingPlanned(dev: Device, m: F.Memory, j: Job)
    requires || (j.command in dev.asks && exists r :: r in dev.asks[j.command] && r !in dev.regs)
             || !dev.guard(j.command, Known(dev, m, j), j.params)
             || (j.command in dev.defs.of &&
                 exists i :: 0 <= i < |dev.defs.of[j.command].writes| &&
                   F.SendsNothing(dev.defs.of[j.command].writes[i], j.params, dev.regs, dev.enc(Known(dev, m, j))))
    ensures RunJob(dev, m, j) == m
  {
    if ReadNames(dev, j) <= dev.regs.Keys && dev.guard(j.command, Known(dev, m, j), j.params) {
      var writes, enc := dev.defs.of[j.command].writes, dev.enc(Known(dev, m, j));
      var i :| 0 <= i < |writes| && F.SendsNothing(writes[i], j.params, dev.regs, enc);
      SomeSendsNothing(writes, j.params, dev.regs, enc, i);
    }
  }

  lemma {:induction false} SomeSendsNothing(writes: seq<F.Write>, params: Args, regs: map<Name, F.Reg>, enc: F.Encoder, i: nat)
    requires i < |writes| && F.SendsNothing(writes[i], params, regs, enc)
    ensures !F.Items(writes, params, regs, enc).Done?
    decreases |writes|
  {
    var n := |writes| - 1;
    if i < n {
      SomeSendsNothing(writes[..n], params, regs, enc, i);
    }
  }

  /** The run accepts the job: its guards hold, and every declared value is in
      its envelope and encodes. */
  predicate Accepted(dev: Device, m: F.Memory, j: Job) {
    PlanOf(dev, m, j).Done?
  }

  /** What running a job does to the device. */
  function RunJob(dev: Device, m: F.Memory, j: Job): F.Memory {
    var items := PlanOf(dev, m, j);
    if items.Done? then F.WriteFrames(m, F.Merged(items.value)) else m
  }

  function RunAll(dev: Device, m: F.Memory, jobs: seq<Job>): F.Memory
    decreases |jobs|
  {
    if jobs == [] then m else RunAll(dev, RunJob(dev, m, jobs[0]), jobs[1..])
  }

  lemma {:induction false} RunBoth(dev: Device, m: F.Memory, a: seq<Job>, b: seq<Job>)
    ensures RunAll(dev, m, a + b) == RunAll(dev, RunAll(dev, m, a), b)
    decreases |a|
  {
    if a == [] {
      assert a + b == b;
    } else {
      RunBoth(dev, RunJob(dev, m, a[0]), a[1..], b);
      assert (a + b)[1..] == a[1..] + b;
    }
  }

  // ---- a run is a patch on the memory ----

  function Patch(dev: Device, m: F.Memory, j: Job): F.Memory {
    var items := PlanOf(dev, m, j);
    if items.Done? then F.WriteItems(map[], items.value) else map[]
  }

  lemma {:induction false} WordsPatch(m: F.Memory, kind: F.RegType, address: int, words: seq<int>)
    ensures F.WriteWords(m, kind, address, words) == m + F.WriteWords(map[], kind, address, words)
    ensures F.WriteWords(map[], kind, address, words).Keys == Span(kind, address, |words|)
    decreases |words|
  {
    if words != [] {
      var c, v := F.Cell(kind, address), F.Stored(kind, words[0]);
      WordsPatch(m[c := v], kind, address + 1, words[1..]);
      WordsPatch(map[c := v], kind, address + 1, words[1..]);
      assert map[][c := v] == map[c := v];
      var rest := F.WriteWords(map[], kind, address + 1, words[1..]);
      assert m[c := v] + rest == m + (map[c := v] + rest);
      assert {c} + rest.Keys == Span(kind, address, |words|);
    }
  }

  lemma {:induction false} ItemsPatch(m: F.Memory, items: seq<F.Item>)
    ensures F.WriteItems(m, items) == m + F.WriteItems(map[], items)
  {
    if items != [] {
      var front, it := items[..|items| - 1], items[|items| - 1];
      ItemsPatch(m, front);
      WordsPatch(F.WriteItems(m, front), it.kind, it.address, it.words);
      WordsPatch(F.WriteItems(map[], front), it.kind, it.address, it.words);
      var a, b := F.WriteItems(map[], front), F.WriteWords(map[], it.kind, it.address, it.words);
      assert (m + a) + b == m + (a + b);
    }
  }

  lemma RunIsPatch(dev: Device, m: F.Memory, j: Job)
    ensures RunJob(dev, m, j) == m + Patch(dev, m, j)
  {
    var items := PlanOf(dev, m, j);
    if items.Done? {
      F.MergingKeepsTheMeaning(m, items.value);
      ItemsPatch(m, items.value);
    }
  }

  /** The cells a list of declared writes covers. */
  function Cover(writes: seq<F.Write>, regs: map<Name, F.Reg>): set<F.Cell> {
    if writes == [] then {}
    else
      var w := writes[|writes| - 1];
      Cover(writes[..|writes| - 1], regs) + (if w.register in regs then CellsOf(regs[w.register]) else {})
  }

  function Covers(dev: Device, j: Job): set<F.Cell> {
    Cover(Writes(dev, j), dev.regs)
  }

  /** An accepted run writes exactly the cells its command declares, whatever the parameters. */
  lemma {:induction false} PatchCovers(writes: seq<F.Write>, params: Args, regs: map<Name, F.Reg>, enc: F.Encoder)
    requires F.Encodes(enc, regs) && F.Items(writes, params, regs, enc).Done?
    ensures F.WriteItems(map[], F.Items(writes, params, regs, enc).value).Keys == Cover(writes, regs)
  {
    if writes != [] {
      var n := |writes| - 1;
      var w := writes[n];
      var front := F.Items(writes[..n], params, regs, enc).value;
      var items := F.Items(writes, params, regs, enc).value;
      PatchCovers(writes[..n], params, regs, enc);
      assert items[..|items| - 1] == front;
      var it := items[|items| - 1];
      WordsPatch(F.WriteItems(map[], front), it.kind, it.address, it.words);
      assert |it.words| == regs[w.register].count;
    }
  }

  lemma PatchKeys(dev: Device, m: F.Memory, j: Job)
    requires Encodes(dev)
    ensures Patch(dev, m, j).Keys == if Accepted(dev, m, j) then Covers(dev, j) else {}
  {
    if Accepted(dev, m, j) {
      assert F.Encodes(dev.enc(Known(dev, m, j)), dev.regs);
      PatchCovers(Writes(dev, j), j.params, dev.regs, dev.enc(Known(dev, m, j)));
    }
  }

  // ---- what a run reads is all that matters to it ----

  ghost predicate AgreeOn(m: F.Memory, n: F.Memory, cells: set<F.Cell>) {
    forall c :: c in cells ==> Look(m, c) == Look(n, c)
  }

  ghost predicate AgreeBeside(m: F.Memory, n: F.Memory, cells: set<F.Cell>) {
    forall c :: c !in cells ==> Look(m, c) == Look(n, c)
  }

  lemma {:induction false} SameWords(m: F.Memory, n: F.Memory, kind: F.RegType, address: int, count: nat)
    requires AgreeOn(m, n, Span(kind, address, count))
    ensures WordsAt(m, kind, address, count) == WordsAt(n, kind, address, count)
    decreases count
  {
    if count > 0 {
      assert F.Cell(kind, address) in Span(kind, address, count);
      assert Span(kind, address + 1, count - 1) <= Span(kind, address, count);
      SameWords(m, n, kind, address + 1, count - 1);
    }
  }

  lemma SameReadings(dev: Device, m: F.Memory, n: F.Memory, j: Job)
    requires AgreeOn(m, n, ReadCells(dev, j))
    ensures Known(dev, m, j) == Known(dev, n, j)
    ensures PlanOf(dev, m, j) == PlanOf(dev, n, j) && Patch(dev, m, j) == Patch(dev, n, j)
  {
    forall r | r in ReadNames(dev, j) && r in dev.regs
      ensures WordsAt(m, dev.regs[r].kind, dev.regs[r].address, dev.regs[r].count) ==
              WordsAt(n, dev.regs[r].kind, dev.regs[r].address, dev.regs[r].count)
    {
      assert CellsOf(dev.regs[r]) <= ReadCells(dev, j);
      SameWords(m, n, dev.regs[r].kind, dev.regs[r].address, dev.regs[r].count);
    }
  }

  // ---- a queue as one patch ----

  function PatchAll(dev: Device, m: F.Memory, jobs: seq<Job>): F.Memory
    decreases |jobs|
  {
    if jobs == [] then map[]
    else
      var p := Patch(dev, m, jobs[0]);
      p + PatchAll(dev, m + p, jobs[1..])
  }

  lemma {:induction false} RunAllIsPatch(dev: Device, m: F.Memory, jobs: seq<Job>)
    ensures RunAll(dev, m, jobs) == m + PatchAll(dev, m, jobs)
    decreases |jobs|
  {
    if jobs == [] {
      assert m + map[] == m;
    } else {
      var p := Patch(dev, m, jobs[0]);
      RunIsPatch(dev, m, jobs[0]);
      RunAllIsPatch(dev, m + p, jobs[1..]);
      PatchTwice(m, p, PatchAll(dev, m + p, jobs[1..]));
    }
  }

  lemma PatchTwice(m: F.Memory, a: F.Memory, b: F.Memory)
    ensures (m + a) + b == m + (a + b)
  {
  }

  lemma OneRun(dev: Device, m: F.Memory, j: Job)
    ensures RunAll(dev, m, [j]) == m + Patch(dev, m, j)
  {
    RunIsPatch(dev, m, j);
    assert [j][1..] == [];
    assert RunAll(dev, RunJob(dev, m, j), []) == RunJob(dev, m, j);
  }

  /** Both jobs run, each in its turn. */
  function BothRun(dev: Device, m: F.Memory, tail: Job, mid: seq<Job>, job: Job): F.Memory {
    RunAll(dev, m, [tail] + mid + [job])
  }

  /** The newer job runs in the older one's place. */
  function NewerRuns(dev: Device, m: F.Memory, mid: seq<Job>, job: Job): F.Memory {
    RunAll(dev, m, [job] + mid)
  }

  /** The newer job may take the older one's place, from this memory. */
  predicate SameFrom(dev: Device, m: F.Memory, tail: Job, mid: seq<Job>, job: Job) {
    NewerRuns(dev, m, mid, job) == BothRun(dev, m, tail, mid, job)
  }

  /** The memory the jobs behind leave, the older job having run before them. */
  function Behind(dev: Device, m: F.Memory, tail: Job, mid: seq<Job>): F.Memory {
    var t := m + Patch(dev, m, tail);
    t + PatchAll(dev, t, mid)
  }

  lemma QueuesArePatches(dev: Device, m: F.Memory, tail: Job, mid: seq<Job>, job: Job)
    ensures BothRun(dev, m, tail, mid, job) ==
            Behind(dev, m, tail, mid) + Patch(dev, Behind(dev, m, tail, mid), job)
    ensures NewerRuns(dev, m, mid, job) == Behind(dev, m, job, mid)
  {
    var t, n := m + Patch(dev, m, tail), m + Patch(dev, m, job);
    RunBoth(dev, m, [tail] + mid, [job]);
    RunBoth(dev, m, [tail], mid);
    RunBoth(dev, m, [job], mid);
    OneRun(dev, m, tail);
    OneRun(dev, m, job);
    RunAllIsPatch(dev, t, mid);
    RunAllIsPatch(dev, n, mid);
    OneRun(dev, Behind(dev, m, tail, mid), job);
  }

  // ---- when the newer value may take the place ----

  /** A newer job of the older one's intent, and jobs behind that write none of
      the cells the two write. */
  ghost predicate Replaces(dev: Device, tail: Job, mid: seq<Job>, job: Job) {
    && Encodes(dev) && tail.SameIntent(job)
    && forall j :: j in mid ==> Covers(dev, j) !! Covers(dev, job)
  }

  /** No job behind reads what the command writes. */
  ghost predicate NotRead(dev: Device, mid: seq<Job>, job: Job) {
    forall j :: j in mid ==> ReadCells(dev, j) !! Covers(dev, job)
  }

  /** Neither the command itself nor a job behind writes what the command reads. */
  ghost predicate ReadsStay(dev: Device, mid: seq<Job>, job: Job) {
    && ReadCells(dev, job) !! Covers(dev, job)
    && forall j :: j in mid ==> ReadCells(dev, job) !! Covers(dev, j)
  }

  lemma {:induction false} CoverSource(writes: seq<F.Write>, regs: map<Name, F.Reg>, c: F.Cell) returns (r: Name)
    requires c in Cover(writes, regs)
    ensures r in regs && c in CellsOf(regs[r]) && exists i :: 0 <= i < |writes| && writes[i].register == r
  {
    var n := |writes| - 1;
    if writes[n].register in regs && c in CellsOf(regs[writes[n].register]) {
      r := writes[n].register;
    } else {
      r := CoverSource(writes[..n], regs, c);
      var i :| 0 <= i < n && writes[..n][i].register == r;
      assert writes[i].register == r;
    }
  }

  lemma ChannelsCoverApart(dev: Device, a: Job, b: Job)
    requires ValidDevice(dev) && OnItsChannel(dev, a) && OnItsChannel(dev, b) && a.channel != b.channel
    ensures Covers(dev, a) !! Covers(dev, b)
  {
    forall c | c in Covers(dev, a) && c in Covers(dev, b) ensures false {
      var r := CoverSource(Writes(dev, a), dev.regs, c);
      var q := CoverSource(Writes(dev, b), dev.regs, c);
      assert CF.WritesRegister(dev.defs.of[a.command], r) && CF.WritesRegister(dev.defs.of[b.command], q);
      assert Written(dev, r) && Written(dev, q) && r == q;
      CF.DifferentIdsWriteApart(dev.defs, dev.ids, a.command, b.command, r);
    }
  }

  /** That is so where channels are those of the template: jobs on another channel
      write none of the cells of this one's. */
  lemma ChannelsReplace(dev: Device, tail: Job, mid: seq<Job>, job: Job)
    requires ValidDevice(dev) && OnItsChannel(dev, job) && tail.SameIntent(job)
    requires forall j :: j in mid ==> OnItsChannel(dev, j) && j.channel != job.channel
    ensures Replaces(dev, tail, mid, job)
  {
    forall j | j in mid ensures Covers(dev, j) !! Covers(dev, job) {
      ChannelsCoverApart(dev, j, job);
    }
  }

  /** A queue writes no cell that none of its jobs covers. */
  lemma {:induction false} QueueWritesApart(dev: Device, m: F.Memory, mid: seq<Job>, cells: set<F.Cell>)
    requires Encodes(dev) && forall j :: j in mid ==> Covers(dev, j) !! cells
    ensures PatchAll(dev, m, mid).Keys !! cells
    decreases |mid|
  {
    if mid != [] {
      var p := Patch(dev, m, mid[0]);
      PatchKeys(dev, m, mid[0]);
      assert mid[0] in mid;
      QueueWritesApart(dev, m + p, mid[1..], cells);
    }
  }

  /** Jobs that do not read some cells write the same, whatever those hold. */
  lemma {:induction false} QueueWritesAlike(dev: Device, m: F.Memory, n: F.Memory, mid: seq<Job>, cells: set<F.Cell>)
    requires AgreeBeside(m, n, cells) && forall j :: j in mid ==> ReadCells(dev, j) !! cells
    ensures PatchAll(dev, m, mid) == PatchAll(dev, n, mid)
    decreases |mid|
  {
    if mid != [] {
      assert mid[0] in mid;
      assert AgreeOn(m, n, ReadCells(dev, mid[0]));
      SameReadings(dev, m, n, mid[0]);
      var p := Patch(dev, m, mid[0]);
      forall c | c !in cells ensures Look(m + p, c) == Look(n + p, c) {
        assert Look(m, c) == Look(n, c);
      }
      QueueWritesAlike(dev, m + p, n + p, mid[1..], cells);
    }
  }

  /** What a memory holds beside some cells. */
  function Beside(m: F.Memory, cells: set<F.Cell>): F.Memory {
    m - cells
  }

  /** The jobs behind leave the same beside the command's cells, whether they find
      the older value there or the newer one. */
  ghost predicate BehindAgree(dev: Device, m: F.Memory, tail: Job, mid: seq<Job>, job: Job) {
    Beside(RunAll(dev, RunJob(dev, m, tail), mid), Covers(dev, job)) ==
    Beside(RunAll(dev, RunJob(dev, m, job), mid), Covers(dev, job))
  }

  /** Two memories are one when they agree on some cells and beside them. */
  lemma AgreeThereAndBeside(x: F.Memory, y: F.Memory, cells: set<F.Cell>)
    ensures x == y <==>
            (forall c :: c in cells ==> (c in x <==> c in y) && (c in x && c in y ==> x[c] == y[c])) &&
            Beside(x, cells) == Beside(y, cells)
  {
    if (forall c :: c in cells ==> (c in x <==> c in y) && (c in x && c in y ==> x[c] == y[c])) &&
       Beside(x, cells) == Beside(y, cells)
    {
      forall c ensures c in x <==> c in y {
        assert c !in cells ==> (c in x <==> c in Beside(x, cells)) && (c in y <==> c in Beside(y, cells));
      }
      forall c | c in x ensures x[c] == y[c] {
        assert c !in cells ==> x[c] == Beside(x, cells)[c] && y[c] == Beside(y, cells)[c];
      }
    }
  }

  lemma BesideDropsLast(m: F.Memory, t: F.Memory, cells: set<F.Cell>)
    requires t.Keys <= cells
    ensures Beside(m + t, cells) == Beside(m, cells)
  {
  }

  /** Patches of the command, here and there, and patches of the others. */
  lemma ApartCompared(m: F.Memory, t: F.Memory, p: F.Memory, late: F.Memory, n: F.Memory, q: F.Memory, cells: set<F.Cell>)
    requires t.Keys <= cells && n.Keys <= cells && late.Keys <= cells && p.Keys !! cells && q.Keys !! cells
    ensures m + n + q == m + t + p + late <==>
            m + n == m + t + late && Beside(m + t + p, cells) == Beside(m + n + q, cells)
  {
    var x, y, u, v := m + n + q, m + t + p + late, m + n, m + t + late;
    BesideDropsLast(m + t + p, late, cells);
    BesideDropsLast(m, n, cells);
    BesideDropsLast(m, t, cells);
    BesideDropsLast(m + t, late, cells);
    AgreeThereAndBeside(x, y, cells);
    AgreeThereAndBeside(u, v, cells);
    assert forall c :: c in cells ==> (c in x <==> c in u) && (c in x ==> x[c] == u[c]);
    assert forall c :: c in cells ==> (c in y <==> c in v) && (c in y ==> y[c] == v[c]);
  }

  lemma BehindArePatches(dev: Device, m: F.Memory, tail: Job, mid: seq<Job>)
    ensures RunAll(dev, RunJob(dev, m, tail), mid) == Behind(dev, m, tail, mid)
  {
    RunIsPatch(dev, m, tail);
    RunAllIsPatch(dev, m + Patch(dev, m, tail), mid);
  }

  /** From every memory, whatever is accepted, changed or read meanwhile: the newer
      value may take the place exactly when the command alone, run once before the
      others, leaves what the older run and the newer one behind the others leave,
      and the others leave the same after either value. */
  lemma ReplacingIsUpToTheCommand(dev: Device, m: F.Memory, tail: Job, mid: seq<Job>, job: Job)
    requires Replaces(dev, tail, mid, job)
    ensures SameFrom(dev, m, tail, mid, job) <==>
            m + Patch(dev, m, job) == m + Patch(dev, m, tail) + Patch(dev, Behind(dev, m, tail, mid), job) &&
            BehindAgree(dev, m, tail, mid, job)
  {
    var t, n, late := Patch(dev, m, tail), Patch(dev, m, job), Patch(dev, Behind(dev, m, tail, mid), job);
    QueuesArePatches(dev, m, tail, mid, job);
    BehindArePatches(dev, m, tail, mid);
    BehindArePatches(dev, m, job, mid);
    PatchKeys(dev, m, tail);
    PatchKeys(dev, m, job);
    PatchKeys(dev, Behind(dev, m, tail, mid), job);
    QueueWritesApart(dev, m + t, mid, Covers(dev, job));
    QueueWritesApart(dev, m + n, mid, Covers(dev, job));
    ApartCompared(m, t, PatchAll(dev, m + t, mid), late, n, PatchAll(dev, m + n, mid), Covers(dev, job));
  }

  lemma LastWins(m: F.Memory, t: F.Memory, n: F.Memory, late: F.Memory)
    requires t.Keys <= n.Keys && n.Keys == late.Keys
    ensures m + n == m + t + late <==> n == late
  {
    var x, y := m + n, m + t + late;
    if x == y {
      forall c | c in n ensures n[c] == late[c] {
        assert x[c] == n[c] && y[c] == late[c];
      }
    }
  }

  /** Where the newer value is accepted in both places, it may take the older one's
      exactly when the scale factors read here and there encode it the same, and
      the others leave the same after either value. */
  lemma ReplacingLosesOnlyWhenScaledAnew(dev: Device, m: F.Memory, tail: Job, mid: seq<Job>, job: Job)
    requires Replaces(dev, tail, mid, job)
    requires Accepted(dev, m, job) && Accepted(dev, Behind(dev, m, tail, mid), job)
    ensures SameFrom(dev, m, tail, mid, job) <==>
            Patch(dev, m, job) == Patch(dev, Behind(dev, m, tail, mid), job) && BehindAgree(dev, m, tail, mid, job)
  {
    var late := Behind(dev, m, tail, mid);
    ReplacingIsUpToTheCommand(dev, m, tail, mid, job);
    PatchKeys(dev, m, tail);
    PatchKeys(dev, m, job);
    PatchKeys(dev, late, job);
    LastWins(m, Patch(dev, m, tail), Patch(dev, m, job), Patch(dev, late, job));
  }

  /** When nothing it reads is written meanwhile, the newer job does the same in
      either place. */
  lemma SameInEitherPlace(dev: Device, m: F.Memory, tail: Job, mid: seq<Job>, job: Job)
    requires Encodes(dev) && tail.SameIntent(job) && ReadsStay(dev, mid, job)
    ensures PlanOf(dev, m, job) == PlanOf(dev, Behind(dev, m, tail, mid), job)
    ensures Patch(dev, m, job) == Patch(dev, Behind(dev, m, tail, mid), job)
  {
    var t := m + Patch(dev, m, tail);
    PatchKeys(dev, m, tail);
    QueueWritesApart(dev, t, mid, ReadCells(dev, job));
    assert AgreeOn(m, Behind(dev, m, tail, mid), ReadCells(dev, job));
    SameReadings(dev, m, Behind(dev, m, tail, mid), job);
  }

  /** The older value was on the device already. */
  ghost predicate AlreadyThere(m: F.Memory, patch: F.Memory) {
    forall c :: c in patch ==> c in m && m[c] == patch[c]
  }

  lemma NothingNew(m: F.Memory, t: F.Memory)
    ensures m + map[] == m + t + map[] <==> AlreadyThere(m, t)
    ensures AlreadyThere(m, t) ==> m + t == m
  {
    var x, y := m + map[], m + t + map[];
    if x == y {
      forall c | c in t ensures c in m && m[c] == t[c] {
        assert c in y && y[c] == t[c];
      }
    }
    if AlreadyThere(m, t) {
      assert m + t == m;
    }
  }

  /** Where nothing it reads is written meanwhile, the newer value may take the
      place exactly when, being accepted, it makes no difference to the others, or,
      being refused, the older one would have changed nothing. */
  lemma ReplacingLosesOnlyWhenRefused(dev: Device, m: F.Memory, tail: Job, mid: seq<Job>, job: Job)
    requires Replaces(dev, tail, mid, job) && ReadsStay(dev, mid, job)
    ensures SameFrom(dev, m, tail, mid, job) <==>
            if Accepted(dev, m, job) then BehindAgree(dev, m, tail, mid, job) else AlreadyThere(m, Patch(dev, m, tail))
  {
    SameInEitherPlace(dev, m, tail, mid, job);
    if Accepted(dev, m, job) {
      ReplacingLosesOnlyWhenScaledAnew(dev, m, tail, mid, job);
    } else {
      RefusedNewer(dev, m, tail, mid, job);
    }
  }

  lemma RefusedNewer(dev: Device, m: F.Memory, tail: Job, mid: seq<Job>, job: Job)
    requires Replaces(dev, tail, mid, job)
    requires !Accepted(dev, m, job) && !Accepted(dev, Behind(dev, m, tail, mid), job)
    ensures SameFrom(dev, m, tail, mid, job) <==> AlreadyThere(m, Patch(dev, m, tail))
  {
    var t := Patch(dev, m, tail);
    ReplacingIsUpToTheCommand(dev, m, tail, mid, job);
    NothingNew(m, t);
    RunIsPatch(dev, m, tail);
    RunIsPatch(dev, m, job);
    assert m + map[] == m;
  }

  /** When no job behind reads what the command writes, they all write alike. */
  lemma UnreadMeansAlike(dev: Device, m: F.Memory, tail: Job, mid: seq<Job>, job: Job)
    requires Encodes(dev) && tail.SameIntent(job) && NotRead(dev, mid, job)
    ensures PatchAll(dev, m + Patch(dev, m, tail), mid) == PatchAll(dev, m + Patch(dev, m, job), mid)
  {
    var t, n := Patch(dev, m, tail), Patch(dev, m, job);
    PatchKeys(dev, m, tail);
    PatchKeys(dev, m, job);
    assert AgreeBeside(m + t, m + n, Covers(dev, job));
    QueueWritesAlike(dev, m + t, m + n, mid, Covers(dev, job));
  }

  lemma UnreadMeansAgree(dev: Device, m: F.Memory, tail: Job, mid: seq<Job>, job: Job)
    requires Encodes(dev) && tail.SameIntent(job) && NotRead(dev, mid, job)
    ensures BehindAgree(dev, m, tail, mid, job)
  {
    UnreadMeansAlike(dev, m, tail, mid, job);
    BehindArePatches(dev, m, tail, mid);
    BehindArePatches(dev, m, job, mid);
    PatchKeys(dev, m, tail);
    PatchKeys(dev, m, job);
    BesideIsAlike(m, Patch(dev, m, tail), Patch(dev, m, job), PatchAll(dev, m + Patch(dev, m, tail), mid), Covers(dev, job));
  }

  lemma BesideIsAlike(m: F.Memory, t: F.Memory, n: F.Memory, p: F.Memory, cells: set<F.Cell>)
    requires t.Keys <= cells && n.Keys <= cells
    ensures Beside(m + t + p, cells) == Beside(m + n + p, cells)
  {
  }

  /** A memory in which the command's cells hold nothing yet decides as `m` does. */
  lemma BlankDecidesAlike(dev: Device, m: F.Memory, mid: seq<Job>, job: Job, j: Job)
    requires ReadsStay(dev, mid, job) && j.command == job.command
    ensures Accepted(dev, m - Covers(dev, job), j) == Accepted(dev, m, j)
  {
    assert ReadCells(dev, j) == ReadCells(dev, job);
    assert AgreeOn(m - Covers(dev, job), m, ReadCells(dev, j));
    SameReadings(dev, m - Covers(dev, job), m, j);
  }

  lemma LostFromBlank(dev: Device, m: F.Memory, tail: Job, mid: seq<Job>, job: Job)
    requires Replaces(dev, tail, mid, job) && ReadsStay(dev, mid, job) && Covers(dev, job) != {}
    requires !Accepted(dev, m, job) && Accepted(dev, m, tail)
    ensures !SameFrom(dev, m - Covers(dev, job), tail, mid, job)
  {
    var blank := m - Covers(dev, job);
    BlankDecidesAlike(dev, m, mid, job, job);
    BlankDecidesAlike(dev, m, mid, job, tail);
    ReplacingLosesOnlyWhenRefused(dev, blank, tail, mid, job);
    PatchKeys(dev, blank, tail);
    var c :| c in Covers(dev, job);
    assert c in Patch(dev, blank, tail) && c !in blank;
  }

  /** From every memory it may, exactly when the command writes nothing, or wherever
      it is accepted it makes no difference to the others, and wherever it is not
      the older one is not either. */
  lemma ReplacingNeverLosesWhen(dev: Device, tail: Job, mid: seq<Job>, job: Job)
    requires Replaces(dev, tail, mid, job) && ReadsStay(dev, mid, job)
    ensures (forall m :: SameFrom(dev, m, tail, mid, job)) <==>
            Covers(dev, job) == {} ||
            forall m :: if Accepted(dev, m, job) then BehindAgree(dev, m, tail, mid, job) else !Accepted(dev, m, tail)
  {
    forall m
      ensures SameFrom(dev, m, tail, mid, job) <==>
              if Accepted(dev, m, job) then BehindAgree(dev, m, tail, mid, job) else AlreadyThere(m, Patch(dev, m, tail))
      ensures !Accepted(dev, m, tail) || Covers(dev, job) == {} ==> AlreadyThere(m, Patch(dev, m, tail))
      ensures Covers(dev, job) == {} ==> BehindAgree(dev, m, tail, mid, job)
    {
      ReplacingLosesOnlyWhenRefused(dev, m, tail, mid, job);
      PatchKeys(dev, m, tail);
      if Covers(dev, job) == {} {
        UnreadMeansAgree(dev, m, tail, mid, job);
      }
    }
    if (forall m :: SameFrom(dev, m, tail, mid, job)) && Covers(dev, job) != {} {
      forall m | !Accepted(dev, m, job) ensures !Accepted(dev, m, tail) {
        if Accepted(dev, m, tail) {
          LostFromBlank(dev, m, tail, mid, job);
        }
      }
    }
  }

  // ---- jobs behind that write the same cells ----

  lemma LaterCellsDiffer(m: F.Memory, t: F.Memory, p: F.Memory, n: F.Memory)
    requires t.Keys <= n.Keys
    ensures m + n + p == m + t + p + n <==> forall c :: c in p && c in n ==> p[c] == n[c]
  {
    var x, y := m + n + p, m + t + p + n;
    if x == y {
      forall c | c in p && c in n ensures p[c] == n[c] {
        assert x[c] == p[c] && y[c] == n[c];
      }
    }
  }

  lemma OlderCellsStay(m: F.Memory, t: F.Memory, p: F.Memory)
    ensures m + map[] + p == m + t + p + map[] <==> forall c :: c in t ==> c in p || (c in m && m[c] == t[c])
  {
    var x, y := m + map[] + p, m + t + p + map[];
    if x == y {
      forall c | c in t ensures c in p || (c in m && m[c] == t[c]) {
        if c !in p {
          assert c in y && y[c] == t[c];
        }
      }
    }
  }

  /** On any registers and channels, overlapping ones and raw writes included, where
      nothing behind reads what the command writes or writes what it reads: an
      accepted newer value may take the place exactly when every cell it shares with
      what runs behind is left as it leaves it; a refused one exactly when every
      cell the older one writes is written again behind, or held that already. */
  lemma ReplacingLosesOnlyOnSharedCells(dev: Device, m: F.Memory, tail: Job, mid: seq<Job>, job: Job)
    requires Encodes(dev) && tail.SameIntent(job) && NotRead(dev, mid, job) && ReadsStay(dev, mid, job)
    ensures
      var t, n := Patch(dev, m, tail), Patch(dev, m, job);
      var p := PatchAll(dev, m + t, mid);
      SameFrom(dev, m, tail, mid, job) <==>
        if Accepted(dev, m, job) then forall c :: c in p && c in n ==> p[c] == n[c]
        else forall c :: c in t ==> c in p || (c in m && m[c] == t[c])
  {
    var t, n := Patch(dev, m, tail), Patch(dev, m, job);
    var p := PatchAll(dev, m + t, mid);
    SharedQueues(dev, m, tail, mid, job);
    PatchKeys(dev, m, tail);
    PatchKeys(dev, m, job);
    if Accepted(dev, m, job) {
      LaterCellsDiffer(m, t, p, n);
    } else {
      OlderCellsStay(m, t, p);
    }
  }

  lemma SharedQueues(dev: Device, m: F.Memory, tail: Job, mid: seq<Job>, job: Job)
    requires Encodes(dev) && tail.SameIntent(job) && NotRead(dev, mid, job) && ReadsStay(dev, mid, job)
    ensures
      var t, n := Patch(dev, m, tail), Patch(dev, m, job);
      var p := PatchAll(dev, m + t, mid);
      NewerRuns(dev, m, mid, job) == m + n + p && BothRun(dev, m, tail, mid, job) == m + t + p + n
  {
    QueuesArePatches(dev, m, tail, mid, job);
    SameInEitherPlace(dev, m, tail, mid, job);
    UnreadMeansAlike(dev, m, tail, mid, job);
  }

  // ---- whole queues and lanes ----

  lemma MayTakeThePlace(dev: Device, m: F.Memory, tail: Job, mid: seq<Job>, job: Job)
    requires Replaces(dev, tail, mid, job) && NotRead(dev, mid, job) && ReadsStay(dev, mid, job)
    requires Accepted(dev, m, job) || !Accepted(dev, m, tail)
    ensures SameFrom(dev, m, tail, mid, job)
  {
    PatchKeys(dev, m, tail);
    UnreadMeansAgree(dev, m, tail, mid, job);
    ReplacingLosesOnlyWhenRefused(dev, m, tail, mid, job);
  }

  lemma AfterOthers(dev: Device, m: F.Memory, pre: seq<Job>, tail: Job, mid: seq<Job>, job: Job)
    ensures RunAll(dev, m, pre + [job] + mid) == NewerRuns(dev, RunAll(dev, m, pre), mid, job)
    ensures RunAll(dev, m, pre + [tail] + mid + [job]) == BothRun(dev, RunAll(dev, m, pre), tail, mid, job)
  {
    AfterSome(dev, m, pre, [job] + mid);
    AfterSome(dev, m, pre, [tail] + mid + [job]);
    assert pre + [job] + mid == pre + ([job] + mid);
    assert pre + [tail] + mid + [job] == pre + ([tail] + mid + [job]);
  }

  lemma AfterSome(dev: Device, m: F.Memory, pre: seq<Job>, jobs: seq<Job>)
    ensures RunAll(dev, m, pre + jobs) == RunAll(dev, RunAll(dev, m, pre), jobs)
  {
    RunBoth(dev, m, pre, jobs);
  }

  /** Putting an accepted job in the tail's place leaves what running both would. */
  lemma ReplacingKeepsTheMeaning(dev: Device, m: F.Memory, pre: seq<Job>, tail: Job, mid: seq<Job>, job: Job)
    requires Replaces(dev, tail, mid, job) && NotRead(dev, mid, job) && ReadsStay(dev, mid, job)
    requires Accepted(dev, RunAll(dev, m, pre), job) || !Accepted(dev, RunAll(dev, m, pre), tail)
    ensures RunAll(dev, m, pre + [job] + mid) == RunAll(dev, m, pre + [tail] + mid + [job])
  {
    MayTakeThePlace(dev, RunAll(dev, m, pre), tail, mid, job);
    AfterOthers(dev, m, pre, tail, mid, job);
  }

  /** The lane had the newer job simply waited its turn. */
  function Appended(l: LaneView, job: Job): LaneView {
    l.(pending := l.pending[job.device := Queue(l, job.device) + [job]])
  }

  /** The device's waiting jobs are on their channels, and none of those behind
      index `i` reads or writes what would make the newer job's place matter. */
  ghost predicate Settled(dev: Device, q: seq<Job>, i: nat, job: Job)
    requires i < |q|
  {
    && ValidDevice(dev) && OnItsChannel(dev, job)
    && (forall j :: j in q[i + 1..] ==> OnItsChannel(dev, j))
    && NotRead(dev, q[i + 1..], job) && ReadsStay(dev, q[i + 1..], job)
  }

  /** The queue in which the tail of the slot, at `i`, gave its place to `job`. */
  lemma QueueIsReplaced(dev: Device, m: F.Memory, q: seq<Job>, i: nat, job: Job)
    requires i < |q|
    ensures RunAll(dev, m, q[i := job]) == RunAll(dev, m, q + [job]) <==>
            SameFrom(dev, RunAll(dev, m, q[..i]), q[i], q[i + 1..], job)
  {
    var pre, tail, mid := q[..i], q[i], q[i + 1..];
    assert q + [job] == pre + [tail] + mid + [job] && q[i := job] == pre + [job] + mid;
    AfterOthers(dev, m, pre, tail, mid, job);
  }

  lemma SettledMay(dev: Device, m: F.Memory, q: seq<Job>, i: nat, job: Job)
    requires i < |q| && i == TailIndex(q, job.channel) && q[i].SameIntent(job) && Settled(dev, q, i, job)
    requires Accepted(dev, m, job)
    ensures SameFrom(dev, m, q[i], q[i + 1..], job)
  {
    var mid := q[i + 1..];
    forall j | j in mid ensures OnItsChannel(dev, j) && j.channel != job.channel {
      var k :| i < k < |q| && q[k] == j;
    }
    ChannelsReplace(dev, q[i], mid, job);
    MayTakeThePlace(dev, m, q[i], mid, job);
  }

  /** Both lanes are in order, and what each starts on a device. */
  lemma BothDrain(l: LaneView, key: Name, cap: int, job: Job, device: Name)
    requires ValidLane(l, key) && job.lane == key && !Waits(l, job)
    requires Admit(l, job, cap).told.Some? && Admit(l, job, cap).told.value.1 == Superseded
    ensures ValidLane(Admit(l, job, cap).lane, key) && ValidLane(Appended(l, job), key)
    ensures var i := TailIndex(Queue(l, job.device), job.channel); var reverts := DeviceJobs(l.urgent, device);
            && i >= 0 && Queue(l, job.device)[i].SameIntent(job)
            && DeviceJobs(Drain(Admit(l, job, cap).lane, key), device)
               == reverts + (if device == job.device then Queue(l, device)[i := job] else Queue(l, device))
            && DeviceJobs(Drain(Appended(l, job), key), device)
               == reverts + (if device == job.device then Queue(l, device) + [job] else Queue(l, device))
  {
    AdmittedDrain(l, key, cap, job, device);
    AppendedDrain(l, key, job, device);
  }

  lemma AdmittedDrain(l: LaneView, key: Name, cap: int, job: Job, device: Name)
    requires ValidLane(l, key) && job.lane == key && !Waits(l, job)
    requires Admit(l, job, cap).told.Some? && Admit(l, job, cap).told.value.1 == Superseded
    ensures ValidLane(Admit(l, job, cap).lane, key) && job.kind != Revert
    ensures var i := TailIndex(Queue(l, job.device), job.channel);
            && i >= 0 && Queue(l, job.device)[i].SameIntent(job)
            && DeviceJobs(Drain(Admit(l, job, cap).lane, key), device)
               == DeviceJobs(l.urgent, device) +
                  (if device == job.device then Queue(l, device)[i := job] else Queue(l, device))
  {
    AdmitPlaces(l, job, cap, key);
    DrainInQueueOrder(Admit(l, job, cap).lane, key, device);
  }

  lemma AppendedDrain(l: LaneView, key: Name, job: Job, device: Name)
    requires ValidLane(l, key) && job.lane == key && !Waits(l, job) && job.kind != Revert
    requires Queue(l, job.device) != []
    ensures ValidLane(Appended(l, job), key)
    ensures DeviceJobs(Drain(Appended(l, job), key), device)
            == DeviceJobs(l.urgent, device) +
               (if device == job.device then Queue(l, device) + [job] else Queue(l, device))
  {
    AppendedQueue(Queue(l, job.device), job, key);
    QueueChanged(l, job.device, Queue(l, job.device) + [job], key);
    DrainInQueueOrder(Appended(l, job), key, device);
  }

  /** What the job finds on its device in the place it took: the reverts, and
      what waits before it, have run. */
  ghost function Before(dev: Device, m: F.Memory, l: LaneView, job: Job, i: nat): F.Memory
    requires i < |Queue(l, job.device)|
  {
    RunAll(dev, m, DeviceJobs(l.urgent, job.device) + Queue(l, job.device)[..i])
  }

  /** A lane that coalesced leaves a device, once drained, as the lane that ran both
      would, whatever else waits, reverts and other devices included: on every
      device but the job's own, and on that one exactly when the newer value may
      take the older one's place from what it finds there. */
  lemma CoalescingIsReplacing(dev: Device, m: F.Memory, l: LaneView, key: Name, cap: int, job: Job, device: Name, i: nat)
    requires ValidLane(l, key) && job.lane == key && !Waits(l, job)
    requires Admit(l, job, cap).told.Some? && Admit(l, job, cap).told.value.1 == Superseded
    requires i < |Queue(l, job.device)| && i == TailIndex(Queue(l, job.device), job.channel)
    ensures ValidLane(Admit(l, job, cap).lane, key) && ValidLane(Appended(l, job), key)
    ensures RunAll(dev, m, DeviceJobs(Drain(Admit(l, job, cap).lane, key), device)) ==
            RunAll(dev, m, DeviceJobs(Drain(Appended(l, job), key), device)) <==>
            (device == job.device ==>
               SameFrom(dev, Before(dev, m, l, job, i), Queue(l, device)[i], Queue(l, device)[i + 1..], job))
  {
    BothDrain(l, key, cap, job, device);
    if device == job.device {
      var q, reverts := Queue(l, device), DeviceJobs(l.urgent, device);
      RunBoth(dev, m, reverts, q[i := job]);
      RunBoth(dev, m, reverts, q + [job]);
      RunBoth(dev, m, reverts, q[..i]);
      QueueIsReplaced(dev, RunAll(dev, m, reverts), q, i, job);
    }
  }

  /** So it does on the channels of a template, when the newer value is accepted in
      its new place and nothing behind it reads or writes what makes its place
      matter. */
  lemma CoalescingKeepsTheMeaning(dev: Device, m: F.Memory, l: LaneView, key: Name, cap: int, job: Job, device: Name, i: nat)
    requires ValidLane(l, key) && job.lane == key && !Waits(l, job)
    requires Admit(l, job, cap).told.Some? && Admit(l, job, cap).told.value.1 == Superseded
    requires i < |Queue(l, job.device)| && i == TailIndex(Queue(l, job.device), job.channel)
    requires device == job.device ==>
      Settled(dev, Queue(l, device), i, job) && Accepted(dev, Before(dev, m, l, job, i), job)
    ensures ValidLane(Admit(l, job, cap).lane, key) && ValidLane(Appended(l, job), key)
    ensures RunAll(dev, m, DeviceJobs(Drain(Admit(l, job, cap).lane, key), device)) ==
            RunAll(dev, m, DeviceJobs(Drain(Appended(l, job), key), device))
  {
    CoalescingIsReplacing(dev, m, l, key, cap, job, device, i);
    if device == job.device {
      BothDrain(l, key, cap, job, device);
      SettledMay(dev, Before(dev, m, l, job, i), Queue(l, device), i, job);
    }
  }
}
