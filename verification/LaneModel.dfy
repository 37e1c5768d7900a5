/** One lane of the command dispatcher, as values: what a job is, how a lane
    admits, removes and picks jobs, and what each of these keeps. */
module LaneModel {
  import opened Prelude

  datatype Kind = Command | Sequence | Refresh | Revert

  /** A command on its way to a device. `id` stands for the identity of the
      job object: two jobs are the same object exactly when they are equal. */
  datatype Job = Job(
    id: nat, lane: Name, device: Name, channel: Name, command: Name,
    params: Args, kind: Kind, coalesce: bool,
    valueKeys: set<Name>, maxAge: Option<real>)
  {
    predicate Mergeable() {
      kind == Command && coalesce
    }

    /** One intent: the two agree in all but the parameters that carry the value. */
    predicate SameIntent(other: Job) {
      && command == other.command && device == other.device && channel == other.channel
      && params - valueKeys == other.params - valueKeys
    }
  }

  datatype Outcome =
    | Stopping | PutOff | QueueFull | Superseded | Withdrawn | Cancelled | Expired
    | Ran(code: int)

  datatype LaneView = LaneView(urgent: seq<Job>, pending: map<Name, seq<Job>>, order: seq<Name>)

  datatype Running = Running(job: Job, expired: bool)

  /** A lane with the job it runs and whether it has its thread. */
  datatype LaneState = LaneState(view: LaneView, running: Option<Running>, thread: bool)

  const EMPTY_LANE := LaneView([], map[], [])

  function Queue(l: LaneView, device: Name): seq<Job> {
    if device in l.pending then l.pending[device] else []
  }

  function Slot(l: LaneView, device: Name, channel: Name): seq<Job> {
    Filter(Queue(l, device), (j: Job) => j.channel == channel)
  }

  /** The position of the last job of `channel` in `q`, or -1. */
  function TailIndex(q: seq<Job>, channel: Name): (i: int)
    ensures -1 <= i < |q|
    ensures i >= 0 ==> q[i].channel == channel
    ensures forall k :: i < k < |q| ==> q[k].channel != channel
  {
    if q == [] then -1
    else if q[|q| - 1].channel == channel then |q| - 1
    else TailIndex(q[..|q| - 1], channel)
  }

  lemma {:induction false} SlotTail(q: seq<Job>, channel: Name)
    ensures var slot := Filter(q, (j: Job) => j.channel == channel);
            var i := TailIndex(q, channel);
            && (slot == [] <==> i == -1)
            && (slot != [] ==> slot[|slot| - 1] == q[i])
  {
    if q != [] {
      var front, last := q[..|q| - 1], q[|q| - 1];
      assert q == front + [last];
      FilterAppend(front, [last], (j: Job) => j.channel == channel);
      assert [last][1..] == [];
      SlotTail(front, channel);
    }
  }

  // ---- what a lane always satisfies ----

  ghost predicate ValidQueue(q: seq<Job>, key: Name, device: Name) {
    && q != [] && NoDup(q)
    && forall j :: j in q ==> j.kind != Revert && j.lane == key && j.device == device
  }

  /** `order` lists the devices with work once each; urgent holds the reverts. */
  ghost predicate ValidLane(l: LaneView, key: Name) {
    && NoDup(l.urgent)
    && (forall j :: j in l.urgent ==> j.kind == Revert && j.lane == key)
    && NoDup(l.order)
    && (forall d :: d in l.order <==> d in l.pending)
    && (forall d :: d in l.pending ==> ValidQueue(l.pending[d], key, d))
  }

  ghost predicate SlotsWithin(l: LaneView, cap: int) {
    forall d, c :: |Slot(l, d, c)| <= cap
  }

  /** A job waits in a lane where its own fields say. */
  predicate Waits(l: LaneView, j: Job) {
    j in l.urgent || j in Queue(l, j.device)
  }

  predicate HasJobs(l: LaneView) {
    l.urgent != [] || l.pending != map[]
  }

  // ---- admission ----

  datatype Admitted = Admitted(lane: LaneView, told: Option<(Job, Outcome)>)

  function Admit(l: LaneView, job: Job, cap: int): Admitted {
    if job.kind == Revert then
      Admitted(l.(urgent := l.urgent + [job]), None)
    else
      var q := Queue(l, job.device);
      var slot := Slot(l, job.device, job.channel);
      var i := TailIndex(q, job.channel);
      if job.kind == Refresh && slot != [] then
        Admitted(l, Some((job, PutOff)))
      else if i >= 0 && job.Mergeable() && q[i].Mergeable() && q[i].SameIntent(job) then
        Admitted(l.(pending := l.pending[job.device := q[i := job]]), Some((q[i], Superseded)))
      else if |slot| >= cap then
        Admitted(l, Some((job, QueueFull)))
      else
        Admitted(l.(pending := l.pending[job.device := q + [job]],
                    order := if job.device in l.pending then l.order else l.order + [job.device]),
                 None)
  }

  /** The job itself either waits now or is told why not, and nothing else moves
      but the one job it supersedes. */
  ghost predicate AdmitsOne(l: LaneView, job: Job, a: Admitted) {
    && (Waits(a.lane, job) <==> a.told == None || a.told.value.1 == Superseded)
    && (forall j :: j != job ==>
          (Waits(a.lane, j) <==> Waits(l, j) && !(a.told.Some? && a.told.value.0 == j)))
  }

  /** Who is told, and what: the job that was refused, or the one it superseded. */
  ghost predicate TellsRight(l: LaneView, job: Job, a: Admitted) {
    a.told.Some? ==>
      if a.told.value.0 == job then (a.told.value.1.PutOff? || a.told.value.1.QueueFull?) && a.lane == l
      else
        var prev := a.told.value.0;
        && a.told.value.1 == Superseded && Waits(l, prev) && prev.Mergeable() && job.Mergeable()
        && prev.SameIntent(job) && prev.lane == job.lane
  }

  lemma AdmitUrgent(l: LaneView, job: Job, key: Name)
    requires ValidLane(l, key) && job.lane == key && !Waits(l, job) && job.kind == Revert
    ensures var a := Admitted(l.(urgent := l.urgent + [job]), None);
            ValidLane(a.lane, key) && AdmitsOne(l, job, a)
  {
  }

  lemma AdmitReplaces(l: LaneView, job: Job, i: nat, key: Name)
    requires ValidLane(l, key) && job.lane == key && !Waits(l, job) && job.kind != Revert
    requires i < |Queue(l, job.device)|
    ensures var q := Queue(l, job.device);
            var a := Admitted(l.(pending := l.pending[job.device := q[i := job]]), Some((q[i], Superseded)));
            ValidLane(a.lane, key) && AdmitsOne(l, job, a) && Waits(l, q[i]) && q[i].lane == key
  {
    var q := Queue(l, job.device);
    ReplacedQueue(q, i, job, key);
    QueueChanged(l, job.device, q[i := job], key);
  }

  lemma AdmitAppends(l: LaneView, job: Job, key: Name)
    requires ValidLane(l, key) && job.lane == key && !Waits(l, job) && job.kind != Revert
    ensures var q := Queue(l, job.device);
            var a := Admitted(l.(pending := l.pending[job.device := q + [job]],
                                 order := if job.device in l.pending then l.order else l.order + [job.device]), None);
            ValidLane(a.lane, key) && AdmitsOne(l, job, a)
  {
    var q := Queue(l, job.device);
    AppendedQueue(q, job, key);
    QueueChanged(l, job.device, q + [job], key);
  }

  lemma AdmitPlaces(l: LaneView, job: Job, cap: int, key: Name)
    requires ValidLane(l, key) && job.lane == key && !Waits(l, job)
    ensures ValidLane(Admit(l, job, cap).lane, key)
    ensures AdmitsOne(l, job, Admit(l, job, cap)) && TellsRight(l, job, Admit(l, job, cap))
  {
    var a := Admit(l, job, cap);
    var q := Queue(l, job.device);
    if job.kind == Revert {
      AdmitUrgent(l, job, key);
    } else if a.told.None? {
      AdmitAppends(l, job, key);
    } else if a.told.value.1 == Superseded {
      AdmitReplaces(l, job, TailIndex(q, job.channel), key);
    }
  }

  /** What decides: a refresh is put off while its slot is not empty; a newer
      value takes the place, in the queue, of the last of its slot when both may
      coalesce and mean the same setting; a full slot refuses; else the job
      joins the end of its device's queue, a revert the end of the reverts. */
  lemma AdmitDecides(l: LaneView, job: Job, cap: int)
    ensures
      var a, slot, q := Admit(l, job, cap), Slot(l, job.device, job.channel), Queue(l, job.device);
      var newer := slot != [] && job.Mergeable() && slot[|slot| - 1].Mergeable() && slot[|slot| - 1].SameIntent(job);
      if job.kind == Revert then a == Admitted(l.(urgent := l.urgent + [job]), None)
      else if job.kind == Refresh && slot != [] then a == Admitted(l, Some((job, PutOff)))
      else if newer then
        && a.told == Some((slot[|slot| - 1], Superseded)) && a.lane.order == l.order
        && exists i :: 0 <= i < |q| && q[i] == slot[|slot| - 1] && Queue(a.lane, job.device) == q[i := job] &&
                       forall k :: i < k < |q| ==> q[k].channel != job.channel
      else if |slot| >= cap then a == Admitted(l, Some((job, QueueFull)))
      else
        && a.told.None? && Queue(a.lane, job.device) == q + [job]
        && a.lane.order == if job.device in l.pending then l.order else l.order + [job.device]
  {
    var q := Queue(l, job.device);
    SlotTail(q, job.channel);
    var i := TailIndex(q, job.channel);
  }

  lemma QueueChanged(l: LaneView, device: Name, q: seq<Job>, key: Name)
    requires ValidLane(l, key) && ValidQueue(q, key, device)
    ensures var l' := l.(pending := l.pending[device := q],
                         order := if device in l.pending then l.order else l.order + [device]);
            && ValidLane(l', key)
            && (forall j: Job :: j.device != device ==> Waits(l', j) == Waits(l, j))
            && (forall j: Job :: j.device == device ==> Waits(l', j) == (j in l.urgent || j in q))
  {
  }

  lemma ReplacedQueue(q: seq<Job>, i: nat, job: Job, key: Name)
    requires ValidQueue(q, key, job.device) && i < |q| && job !in q && job.lane == key && job.kind != Revert
    ensures ValidQueue(q[i := job], key, job.device)
    ensures forall j :: j in q[i := job] <==> j == job || (j in q && j != q[i])
  {
    var q' := q[i := job];
    assert q'[i] == job;
    forall j | j in q && j != q[i] ensures j in q' {
      var k :| 0 <= k < |q| && q[k] == j;
      assert q'[k] == j;
    }
  }

  lemma AppendedQueue(q: seq<Job>, job: Job, key: Name)
    requires (q == [] || ValidQueue(q, key, job.device)) && job !in q && job.lane == key && job.kind != Revert
    ensures ValidQueue(q + [job], key, job.device)
  {
  }

  lemma AdmitKeepsSlots(l: LaneView, job: Job, cap: int)
    requires SlotsWithin(l, cap)
    ensures SlotsWithin(Admit(l, job, cap).lane, cap)
  {
    var l' := Admit(l, job, cap).lane;
    forall d, c ensures |Slot(l', d, c)| <= cap {
      assert |Slot(l, d, c)| <= cap;
      if job.kind != Revert && d == job.device && l' != l {
        var q := Queue(l, d);
        var i := TailIndex(q, job.channel);
        if Admit(l, job, cap).told.Some? {
          ReplaceKeepsSlot(q, i, job, c);
        } else {
          FilterAppend(q, [job], (j: Job) => j.channel == c);
          assert [job][1..] == [];
          assert |Slot(l, d, job.channel)| < cap;
        }
      }
    }
  }

  lemma ReplaceKeepsSlot(q: seq<Job>, i: nat, job: Job, c: Name)
    requires i < |q| && q[i].channel == job.channel
    ensures |Filter(q[i := job], (j: Job) => j.channel == c)| == |Filter(q, (j: Job) => j.channel == c)|
  {
    var keep := (j: Job) => j.channel == c;
    assert q == q[..i] + ([q[i]] + q[i + 1..]);
    assert q[i := job] == q[..i] + ([job] + q[i + 1..]);
    FilterAppend(q[..i], [q[i]] + q[i + 1..], keep);
    FilterAppend(q[..i], [job] + q[i + 1..], keep);
    assert ([q[i]] + q[i + 1..])[1..] == q[i + 1..] == ([job] + q[i + 1..])[1..];
  }

  // ---- taking jobs back ----

  function Kept(q: seq<Job>, gone: set<Job>): seq<Job> {
    Filter(q, j => j !in gone)
  }

  /** The devices of `order` that still have work. */
  function WithWork(order: seq<Name>, pending: map<Name, seq<Job>>): seq<Name> {
    Filter(order, d => d in pending)
  }

  /** The lane once the jobs of `gone` left it; a device without work leaves the order. */
  function Drop(l: LaneView, gone: set<Job>): LaneView {
    var pending := map d | d in l.pending && Kept(l.pending[d], gone) != [] :: Kept(l.pending[d], gone);
    LaneView(Kept(l.urgent, gone), pending, WithWork(l.order, pending))
  }

  lemma KeptQueue(q: seq<Job>, gone: set<Job>, key: Name, d: Name)
    requires q == [] || ValidQueue(q, key, d)
    ensures forall j :: j in Kept(q, gone) <==> j in q && j !in gone
    ensures Kept(q, gone) != [] ==> ValidQueue(Kept(q, gone), key, d)
  {
    FilterMembers(q, j => j !in gone);
    FilterNoDup(q, j => j !in gone);
  }

  lemma DropQueues(l: LaneView, gone: set<Job>, key: Name)
    requires ValidLane(l, key)
    ensures forall d :: Queue(Drop(l, gone), d) == Kept(Queue(l, d), gone)
    ensures forall d, j :: j in Queue(Drop(l, gone), d) <==> j in Queue(l, d) && j !in gone
    ensures forall d :: d in Drop(l, gone).pending ==> d in l.pending && ValidQueue(Drop(l, gone).pending[d], key, d)
  {
    forall d
      ensures Queue(Drop(l, gone), d) == Kept(Queue(l, d), gone)
      ensures forall j :: j in Queue(Drop(l, gone), d) <==> j in Queue(l, d) && j !in gone
      ensures d in Drop(l, gone).pending ==> ValidQueue(Drop(l, gone).pending[d], key, d)
    {
      KeptQueue(Queue(l, d), gone, key, d);
    }
  }

  lemma DropUrgent(l: LaneView, gone: set<Job>)
    requires NoDup(l.urgent)
    ensures NoDup(Drop(l, gone).urgent)
    ensures forall j :: j in Drop(l, gone).urgent <==> j in l.urgent && j !in gone
  {
    FilterNoDup(l.urgent, j => j !in gone);
    FilterMembers(l.urgent, j => j !in gone);
  }

  lemma DropOrder(l: LaneView, gone: set<Job>)
    requires NoDup(l.order) && forall d :: d in l.pending ==> d in l.order
    ensures NoDup(Drop(l, gone).order)
    ensures forall d :: d in Drop(l, gone).order <==> d in Drop(l, gone).pending
  {
    var pending := Drop(l, gone).pending;
    FilterNoDup(l.order, d => d in pending);
    FilterMembers(l.order, d => d in pending);
  }

  lemma DropKeeps(l: LaneView, gone: set<Job>, key: Name)
    requires ValidLane(l, key)
    ensures ValidLane(Drop(l, gone), key)
    ensures forall j :: Waits(Drop(l, gone), j) <==> Waits(l, j) && j !in gone
    ensures forall d :: Queue(Drop(l, gone), d) == Kept(Queue(l, d), gone)
  {
    DropUrgent(l, gone);
    DropOrder(l, gone);
    DropQueues(l, gone, key);
    forall j ensures Waits(Drop(l, gone), j) <==> Waits(l, j) && j !in gone {
      DropWaits(l, gone, key, j);
    }
  }

  /** The devices that still have a job keep their order, and so do the reverts. */
  lemma DropKeepsOrder(l: LaneView, gone: set<Job>, key: Name)
    requires ValidLane(l, key)
    ensures Drop(l, gone).order == Filter(l.order, d => Kept(Queue(l, d), gone) != [])
    ensures Drop(l, gone).urgent == Filter(l.urgent, j => j !in gone)
  {
    var pending := Drop(l, gone).pending;
    forall d | d in l.order ensures (d in pending) == (Kept(Queue(l, d), gone) != []) {
      assert d in l.pending;
    }
    FilterAgree(l.order, d => d in pending, d => Kept(Queue(l, d), gone) != []);
  }

  lemma DropWaits(l: LaneView, gone: set<Job>, key: Name, j: Job)
    requires ValidLane(l, key)
    ensures Waits(Drop(l, gone), j) <==> Waits(l, j) && j !in gone
  {
    DropUrgent(l, gone);
    DropQueues(l, gone, key);
    KeptQueue(Queue(l, j.device), gone, key, j.device);
    assert Queue(Drop(l, gone), j.device) == Kept(Queue(l, j.device), gone);
  }

  lemma KeptTwice(q: seq<Job>, a: set<Job>, b: set<Job>)
    ensures Kept(Kept(q, a), b) == Kept(q, a + b)
  {
    FilterTwice(q, j => j !in a, j => j !in b, j => j !in a + b);
  }

  lemma DropTwice(l: LaneView, a: set<Job>, b: set<Job>)
    requires forall d :: d in l.order ==> d in l.pending
    ensures Drop(Drop(l, a), b) == Drop(l, a + b)
  {
    KeptTwice(l.urgent, a, b);
    var la, lab, lu := Drop(l, a), Drop(Drop(l, a), b), Drop(l, a + b);
    forall d | d in l.pending ensures Kept(Kept(l.pending[d], a), b) == Kept(l.pending[d], a + b) {
      KeptTwice(l.pending[d], a, b);
    }
    assert Kept([], b) == [];
    assert forall d :: d in lab.pending <==> d in lu.pending;
    assert lab.pending == lu.pending;
    FilterTwice(l.order, d => d in la.pending, d => d in lab.pending, d => d in lu.pending);
  }

  lemma {:induction false} KeptShorter(q: seq<Job>, gone: set<Job>, c: Name)
    ensures |Filter(Kept(q, gone), (j: Job) => j.channel == c)| <= |Filter(q, (j: Job) => j.channel == c)|
  {
    if q != [] {
      KeptShorter(q[1..], gone, c);
      FilterAppend(if q[0] !in gone then [q[0]] else [], Kept(q[1..], gone), (j: Job) => j.channel == c);
      assert [q[0]][1..] == [];
    }
  }

  lemma DropKeepsSlots(l: LaneView, gone: set<Job>, key: Name, cap: int)
    requires ValidLane(l, key) && SlotsWithin(l, cap)
    ensures SlotsWithin(Drop(l, gone), cap)
  {
    DropKeeps(l, gone, key);
    forall d, c ensures |Slot(Drop(l, gone), d, c)| <= cap {
      KeptShorter(Queue(l, d), gone, c);
      assert |Slot(l, d, c)| <= cap;
    }
  }

  // ---- picking ----

  datatype Picked = Picked(lane: LaneView, job: Option<Job>)

  /** A revert first; else the first device in the order gives its oldest job
      and goes to the end while it has more. A device without work is skipped. */
  function Next(l: LaneView): Picked
    decreases |l.order|
  {
    if l.urgent != [] then Picked(l.(urgent := l.urgent[1..]), Some(l.urgent[0]))
    else if l.order == [] then Picked(l, None)
    else
      var d := l.order[0];
      var q := Queue(l, d);
      if q == [] then Next(l.(pending := l.pending - {d}, order := l.order[1..]))
      else if |q| == 1 then Picked(l.(pending := l.pending - {d}, order := l.order[1..]), Some(q[0]))
      else Picked(l.(pending := l.pending[d := q[1..]], order := l.order[1..] + [d]), Some(q[0]))
  }

  lemma NextTakes(l: LaneView, key: Name)
    requires ValidLane(l, key)
    ensures var p := Next(l);
            && ValidLane(p.lane, key)
            && (p.job.None? <==> !HasJobs(l))
            && (p.job.None? ==> p.lane == l)
            && (p.job.Some? ==>
                  && Waits(l, p.job.value) && !Waits(p.lane, p.job.value)
                  && (forall j :: j != p.job.value ==> (Waits(p.lane, j) <==> Waits(l, j))))
  {
    if l.urgent != [] {
      assert l.urgent == [l.urgent[0]] + l.urgent[1..];
    } else if l.order != [] {
      NextTakesTurn(l, key);
    } else {
      assert l.pending == map[];
    }
  }

  /** The queues of the lane after the first device had its turn. */
  ghost predicate TurnTaken(l: LaneView, after: LaneView) {
    && l.order != [] && Queue(l, l.order[0]) != []
    && after.urgent == l.urgent
    && Queue(after, l.order[0]) == Queue(l, l.order[0])[1..]
    && forall x :: x != l.order[0] ==> Queue(after, x) == Queue(l, x)
  }

  lemma TurnIsTaken(l: LaneView, key: Name)
    requires ValidLane(l, key) && l.urgent == [] && l.order != []
    ensures Next(l).job == Some(Queue(l, l.order[0])[0]) && TurnTaken(l, Next(l).lane)
  {
    assert l.order[0] in l.order;
  }

  lemma TurnKeepsValid(l: LaneView, key: Name)
    requires ValidLane(l, key) && l.urgent == [] && l.order != []
    ensures ValidLane(Next(l).lane, key)
  {
    var p := Next(l);
    var d, rest := l.order[0], l.order[1..];
    var q := l.pending[d];
    assert q == [q[0]] + q[1..] && l.order == [d] + rest;
    assert forall x :: x in p.lane.order <==> x in p.lane.pending;
    assert q[1..] != [] ==> ValidQueue(q[1..], key, d);
  }

  lemma TurnWaits(l: LaneView, key: Name, after: LaneView)
    requires ValidLane(l, key) && l.urgent == [] && TurnTaken(l, after)
    ensures var job := Queue(l, l.order[0])[0];
            !Waits(after, job) && forall j :: j != job ==> (Waits(after, j) <==> Waits(l, j))
  {
    var d := l.order[0];
    var q := Queue(l, d);
    assert d in l.order && q == [q[0]] + q[1..];
    assert q[0] !in q[1..] && q[0].device == d;
    assert forall j :: j in q <==> j == q[0] || j in q[1..];
  }

  lemma NextTakesTurn(l: LaneView, key: Name)
    requires ValidLane(l, key) && l.urgent == [] && l.order != []
    ensures var p := Next(l); var d := l.order[0];
            && ValidLane(p.lane, key) && HasJobs(l) && p.lane.urgent == []
            && p.job == Some(Queue(l, d)[0])
            && Queue(p.lane, d) == Queue(l, d)[1..]
            && (forall x :: x != d ==> Queue(p.lane, x) == Queue(l, x))
            && !Waits(p.lane, p.job.value)
            && (forall j :: j != p.job.value ==> (Waits(p.lane, j) <==> Waits(l, j)))
  {
    TurnIsTaken(l, key);
    TurnKeepsValid(l, key);
    TurnWaits(l, key, Next(l).lane);
    assert l.order[0] in l.order;
  }

  lemma NextKeepsSlots(l: LaneView, key: Name, cap: int)
    requires ValidLane(l, key) && SlotsWithin(l, cap)
    ensures SlotsWithin(Next(l).lane, cap)
  {
    var l' := Next(l).lane;
    forall d, c ensures |Slot(l', d, c)| <= cap {
      assert |Slot(l, d, c)| <= cap;
      if l.urgent == [] && l.order != [] && d == l.order[0] {
        var q := l.pending[d];
        assert q == [q[0]] + q[1..];
      }
    }
  }
}
