/** Whose turn it is: round-robin over devices is fair, and a lane that is
    drained starts each device's jobs in queue order, the reverts first. */
module LaneTurns {
  import opened Prelude
  import opened LaneModel

  /** What can happen to a lane: a job is admitted, some are taken back, one is picked. */
  datatype Op = Put(job: Job, cap: int) | Take(gone: set<Job>) | Pick

  ghost predicate Allowed(l: LaneView, op: Op, key: Name) {
    op.Put? ==> op.job.lane == key && !Waits(l, op.job)
  }

  function After(l: LaneView, op: Op): LaneView {
    match op
    case Put(job, cap) => Admit(l, job, cap).lane
    case Take(gone) => Drop(l, gone)
    case Pick => Next(l).lane
  }

  lemma AfterValid(l: LaneView, op: Op, key: Name)
    requires ValidLane(l, key) && Allowed(l, op, key)
    ensures ValidLane(After(l, op), key)
  {
    match op
    case Put(job, cap) => AdmitPlaces(l, job, cap, key);
    case Take(gone) => DropKeeps(l, gone, key);
    case Pick => NextTakes(l, key);
  }

  /** A run of a lane in which `device` always has work and never gets its turn. */
  ghost predicate PassedOver(l: LaneView, ops: seq<Op>, device: Name, key: Name)
    decreases |ops|
  {
    && ValidLane(l, key) && device in l.pending
    && (ops != [] ==>
          && Allowed(l, ops[0], key)
          && (ops[0].Pick? && l.urgent == [] ==> l.order[0] != device)
          && PassedOver(After(l, ops[0]), ops[1..], device, key))
  }

  /** How many picks of the run were not reverts. */
  ghost function Turns(l: LaneView, ops: seq<Op>): nat
    decreases |ops|
  {
    if ops == [] then 0
    else (if ops[0].Pick? && l.urgent == [] then 1 else 0) + Turns(After(l, ops[0]), ops[1..])
  }

  /** A device that waits at index `i` of the order sees at most `i` turns of
      others go by, whatever is admitted, withdrawn or reverted meanwhile. */
  lemma {:induction false} WaitIsBounded(l: LaneView, ops: seq<Op>, device: Name, key: Name, i: nat)
    requires PassedOver(l, ops, device, key)
    requires i < |l.order| && l.order[i] == device
    ensures Turns(l, ops) <= i
    decreases |ops|
  {
    if ops != [] {
      var l' := After(l, ops[0]);
      AfterValid(l, ops[0], key);
      var i' := IndexFalls(l, ops[0], device, key, i);
      WaitIsBounded(l', ops[1..], device, key, i');
    }
  }

  lemma IndexFalls(l: LaneView, op: Op, device: Name, key: Name, i: nat) returns (i': nat)
    requires ValidLane(l, key) && Allowed(l, op, key)
    requires i < |l.order| && l.order[i] == device
    requires device in After(l, op).pending
    requires op.Pick? && l.urgent == [] ==> l.order[0] != device
    ensures i' < |After(l, op).order| && After(l, op).order[i'] == device
    ensures i' <= i - (if op.Pick? && l.urgent == [] then 1 else 0)
  {
    i' := i;
    if op.Take? {
      i' := FilterIndex(l.order, d => d in After(l, op).pending, i);
    } else if op.Pick? && l.urgent == [] {
      i' := i - 1;
    }
  }

  lemma {:induction false} FilterIndex<T>(s: seq<T>, keep: T -> bool, i: nat) returns (k: nat)
    requires i < |s| && keep(s[i])
    ensures k <= i && k < |Filter(s, keep)| && Filter(s, keep)[k] == s[i]
  {
    if i == 0 {
      k := 0;
    } else {
      k := FilterIndex(s[1..], keep, i - 1);
      if keep(s[0]) { k := k + 1; }
    }
  }

  // ---- draining ----

  ghost function AllJobs(l: LaneView): set<Job> {
    (set j | j in l.urgent) + (set d, j | d in l.pending && j in l.pending[d] :: j)
  }

  lemma AllJobsWait(l: LaneView, key: Name)
    requires ValidLane(l, key)
    ensures forall j :: j in AllJobs(l) <==> Waits(l, j)
  {
  }

  lemma PickShrinks(l: LaneView, key: Name)
    requires ValidLane(l, key) && HasJobs(l)
    ensures AllJobs(Next(l).lane) < AllJobs(l)
  {
    NextTakes(l, key);
    AllJobsWait(l, key);
    AllJobsWait(Next(l).lane, key);
    assert Next(l).job.value in AllJobs(l);
  }

  /** The jobs a lane starts, in order, until nothing waits. */
  ghost function Drain(l: LaneView, key: Name): seq<Job>
    requires ValidLane(l, key)
    decreases AllJobs(l)
  {
    NextTakes(l, key);
    if !HasJobs(l) then []
    else
      PickShrinks(l, key);
      [Next(l).job.value] + Drain(Next(l).lane, key)
  }

  ghost function DeviceJobs(q: seq<Job>, device: Name): seq<Job> {
    Filter(q, (j: Job) => j.device == device)
  }

  /** Per device: its reverts in the order they came, then its queue, oldest first. */
  lemma {:induction false} DrainInQueueOrder(l: LaneView, key: Name, device: Name)
    requires ValidLane(l, key)
    ensures DeviceJobs(Drain(l, key), device) == ToStart(l, device)
    decreases AllJobs(l)
  {
    if HasJobs(l) {
      NextTakes(l, key);
      PickShrinks(l, key);
      var job, l' := Next(l).job.value, Next(l).lane;
      DrainInQueueOrder(l', key, device);
      HeadJobs(job, Drain(l', key), device);
      PickPerDevice(l, key, device);
    }
  }

  lemma HeadJobs(job: Job, rest: seq<Job>, device: Name)
    ensures DeviceJobs([job] + rest, device) == (if job.device == device then [job] else []) + DeviceJobs(rest, device)
  {
    assert ([job] + rest)[1..] == rest;
  }

  ghost function ToStart(l: LaneView, device: Name): seq<Job> {
    DeviceJobs(l.urgent, device) + Queue(l, device)
  }

  /** One pick takes the head of what its device has to start. */
  lemma PickPerDevice(l: LaneView, key: Name, device: Name)
    requires ValidLane(l, key) && HasJobs(l)
    ensures Next(l).job.Some?
    ensures ToStart(l, device) ==
            (if Next(l).job.value.device == device then [Next(l).job.value] else []) + ToStart(Next(l).lane, device)
  {
    NextTakes(l, key);
    if l.urgent == [] {
      var d := l.order[0];
      assert d in l.order;
      NextTakesTurn(l, key);
      assert Queue(l, d) == [Queue(l, d)[0]] + Queue(l, d)[1..];
    } else {
      assert l.urgent == [l.urgent[0]] + l.urgent[1..];
      HeadJobs(l.urgent[0], l.urgent[1..], device);
      Regroup(if l.urgent[0].device == device then [l.urgent[0]] else [], DeviceJobs(l.urgent[1..], device), Queue(l, device));
    }
  }

  lemma Regroup<T>(a: seq<T>, b: seq<T>, c: seq<T>)
    ensures (a + b) + c == a + (b + c)
  {
  }

  /** Nothing but reverts starts before the last waiting revert did. */
  lemma {:induction false} RevertsDrainFirst(l: LaneView, key: Name)
    requires ValidLane(l, key)
    ensures l.urgent <= Drain(l, key)
    decreases AllJobs(l)
  {
    if l.urgent != [] {
      NextTakes(l, key);
      PickShrinks(l, key);
      RevertsDrainFirst(Next(l).lane, key);
      assert l.urgent == [l.urgent[0]] + l.urgent[1..];
    }
  }
}
