/** The command dispatcher as a state machine: every step is one section the
    source runs under its lock, or one completion it makes outside it. */
module DispatchModel {
  import opened Prelude
  import opened LaneModel

  datatype Start = Start(job: Job, at: real, closing: bool, stopped: bool)

  /** `leaving` holds what was taken out under the lock and whose outcome is
      not told yet; `told` and `starts` are the history of a run. */
  datatype State = State(
    cap: nat, lanes: map<Name, LaneState>, known: map<nat, Job>, deadline: map<nat, Option<real>>,
    leaving: map<nat, Outcome>, done: map<nat, Outcome>, told: seq<nat>, starts: seq<Start>,
    now: real, closing: bool, stopping: bool, stopped: bool)

  function Init(cap: nat, now: real): State {
    State(cap, map[], map[], map[], map[], map[], [], [], now, false, false, false)
  }

  /** `BeginStop` and `EndStop` are the two halves of stop(): the flag is set
      before the lock is taken to cancel what waits. */
  datatype Event =
    | Submit(job: Job) | Tell(id: nat)
    | Withdraw(job: Job) | Cancel(device: Option<Name>) | Close | BeginStop | EndStop
    | Pick(key: Name) | Finish(key: Name, code: int) | Free(key: Name) | IdleEnd(key: Name)
    | Tick(dt: real)

  // ---- where a job is ----

  predicate Waiting(s: State, j: Job) {
    j.lane in s.lanes && Waits(s.lanes[j.lane].view, j)
  }

  predicate InRun(s: State, j: Job) {
    && j.lane in s.lanes && s.lanes[j.lane].running.Some? && s.lanes[j.lane].running.value.job == j
    && j.id !in s.done
  }

  /** Each submitted job is in exactly one place. */
  predicate InOnePlace(s: State, j: Job) {
    && (Waiting(s, j) || InRun(s, j) || j.id in s.leaving || j.id in s.done)
    && !(Waiting(s, j) && InRun(s, j))
    && (j.id in s.leaving ==> !Waiting(s, j) && !InRun(s, j) && j.id !in s.done)
    && (j.id in s.done ==> !Waiting(s, j))
  }

  // ---- the steps ----

  function Deadline(s: State, job: Job): Option<real> {
    if job.kind != Revert && job.maxAge.Some? && job.maxAge.value != 0.0 then Some(s.now + job.maxAge.value) else None
  }

  function LaneOf(s: State, key: Name): LaneState {
    if key in s.lanes then s.lanes[key] else LaneState(EMPTY_LANE, None, false)
  }

  function Registered(s: State, job: Job): State {
    s.(known := s.known[job.id := job], deadline := s.deadline[job.id := Deadline(s, job)])
  }

  function Submitted(s: State, job: Job): State {
    var s1 := Registered(s, job);
    if s.stopping || (s.closing && job.kind != Revert) then
      s1.(leaving := s.leaving[job.id := Stopping])
    else
      WithAdmitted(s1, job, Admit(LaneOf(s, job.lane).view, job, s.cap))
  }

  /** The lane as the admission left it; its thread is there unless the job was refused. */
  function WithAdmitted(s: State, job: Job, a: Admitted): State {
    var served := !(a.told.Some? && a.told.value.0 == job);
    var lane := LaneState(a.lane, LaneOf(s, job.lane).running, LaneOf(s, job.lane).thread || served);
    s.(lanes := s.lanes[job.lane := lane],
       leaving := if a.told.Some? then s.leaving[a.told.value.0.id := a.told.value.1] else s.leaving)
  }

  /** Every waiting job that `who` names is taken out, with `why`. */
  function TakenOut(s: State, who: Job -> bool, why: Outcome): State {
    var gone := set id | id in s.known && Waiting(s, s.known[id]) && who(s.known[id]) :: s.known[id];
    var ids := set j | j in gone :: j.id;
    s.(lanes := map k | k in s.lanes :: s.lanes[k].(view := Drop(s.lanes[k].view, gone)),
       leaving := s.leaving + map id | id in ids :: why)
  }

  predicate Anyone(j: Job) { true }

  predicate Late(s: State, job: Job) {
    job.id in s.deadline && s.deadline[job.id].Some? && s.now > s.deadline[job.id].value
  }

  predicate Enabled(s: State, e: Event) {
    match e
    case Submit(job) => job.id !in s.known
    case Tell(id) => id in s.leaving
    case Withdraw(job) => job.id in s.known && s.known[job.id] == job
    case EndStop => s.stopping
    case Pick(key) =>
      key in s.lanes && s.lanes[key].thread && s.lanes[key].running.None? && HasJobs(s.lanes[key].view)
    case Finish(key, _) =>
      key in s.lanes && s.lanes[key].running.Some? && s.lanes[key].running.value.job.id !in s.done
    case Free(key) =>
      key in s.lanes && s.lanes[key].running.Some? && s.lanes[key].running.value.job.id in s.done
    case IdleEnd(key) =>
      key in s.lanes && s.lanes[key].thread && s.lanes[key].running.None? && !HasJobs(s.lanes[key].view)
    case Tick(dt) => dt >= 0.0
    case _ => true
  }

  /** The lane gave `job`: it runs from now on, or it waited too long and will not. */
  function Taken(s: State, key: Name, view: LaneView, job: Job): State
    requires key in s.lanes
  {
    var late := Late(s, job);
    s.(lanes := s.lanes[key := s.lanes[key].(view := view, running := Some(Running(job, late)))],
       starts := if late then s.starts else s.starts + [Start(job, s.now, s.closing, s.stopped)])
  }

  function PickedFrom(s: State, key: Name): State
    requires key in s.lanes
  {
    var p := Next(s.lanes[key].view);
    if p.job.None? then s else Taken(s, key, p.lane, p.job.value)
  }

  function Completed(s: State, id: nat, why: Outcome): State {
    if id in s.done then s else s.(done := s.done[id := why], told := s.told + [id])
  }

  /** The jobs a cancellation names: one device's, or all. */
  function OfDevice(device: Option<Name>): Job -> bool {
    (j: Job) => device.None? || j.device == device.value
  }

  function Apply(s: State, e: Event): State
    requires Enabled(s, e)
  {
    match e
    case Submit(job) => Submitted(s, job)
    case Tell(id) => Completed(s.(leaving := s.leaving - {id}), id, s.leaving[id])
    case Withdraw(job) => TakenOut(s, j => j == job, Withdrawn)
    case Cancel(device) => TakenOut(s, OfDevice(device), Cancelled)
    case Close => TakenOut(s, (j: Job) => j.kind != Revert, Cancelled).(closing := true)
    case BeginStop => s.(stopping := true)
    case EndStop => TakenOut(s, Anyone, Cancelled).(stopped := true)
    case Pick(key) => PickedFrom(s, key)
    case Finish(key, code) =>
      var r := s.lanes[key].running.value;
      Completed(s, r.job.id, if r.expired then Expired else Ran(code))
    case Free(key) => s.(lanes := s.lanes[key := s.lanes[key].(running := None)])
    case IdleEnd(key) => s.(lanes := s.lanes - {key})
    case Tick(dt) => s.(now := s.now + dt)
  }

  // ---- the invariant ----

  ghost predicate LanesOk(s: State) {
    forall k :: k in s.lanes ==>
      && ValidLane(s.lanes[k].view, k)
      && SlotsWithin(s.lanes[k].view, s.cap)
      && (HasJobs(s.lanes[k].view) ==> s.lanes[k].thread)
      && (s.lanes[k].running.Some? ==> s.lanes[k].thread && s.lanes[k].running.value.job.lane == k)
  }

  ghost predicate Placed(s: State) {
    forall id :: id in s.known ==> s.known[id].id == id && InOnePlace(s, s.known[id])
  }

  /** What waits or runs was submitted. */
  ghost predicate Tracked(s: State) {
    && (forall j: Job :: Waiting(s, j) ==> j.id in s.known && s.known[j.id] == j)
    && (forall k :: k in s.lanes && s.lanes[k].running.Some? ==>
          s.lanes[k].running.value.job.id in s.known
          && s.known[s.lanes[k].running.value.job.id] == s.lanes[k].running.value.job)
  }

  /** Outcomes are told once each, and only of submitted jobs. */
  ghost predicate Told(s: State) {
    && s.leaving.Keys <= s.known.Keys && s.done.Keys <= s.known.Keys && s.deadline.Keys == s.known.Keys
    && (forall id :: id in s.leaving ==> !s.leaving[id].Ran? && !s.leaving[id].Expired?)
    && NoDup(s.told) && (forall id :: id in s.told <==> id in s.done)
  }

  /** What a job that started may still be: in its run, or told what it ran to. */
  ghost predicate StartedOk(s: State, st: Start) {
    var j := st.job;
    && j.id in s.known && j.id in s.deadline && s.known[j.id] == j
    && (if j.id in s.done then s.done[j.id].Ran?
        else InRun(s, j) && !s.lanes[j.lane].running.value.expired)
    && (s.deadline[j.id].Some? ==> st.at <= s.deadline[j.id].value)
    && (st.closing ==> j.kind == Revert) && !st.stopped
  }

  ghost predicate HistoryOk(s: State)
    requires s.deadline.Keys == s.known.Keys
  {
    && (forall i :: 0 <= i < |s.starts| ==> StartedOk(s, s.starts[i]))
    && (forall i, k :: 0 <= i < k < |s.starts| ==> s.starts[i].job != s.starts[k].job)
    && (s.closing ==> forall j: Job :: Waiting(s, j) ==> j.kind == Revert)
    && (s.stopped ==> s.stopping && forall j: Job :: !Waiting(s, j))
  }

  ghost predicate Inv(s: State) {
    LanesOk(s) && Placed(s) && Tracked(s) && Told(s) && HistoryOk(s)
  }

  lemma InitInv(cap: nat, now: real)
    ensures Inv(Init(cap, now))
  {
  }

  /** What submitting and taking back have in common: the lanes' runs go on,
      perhaps one new job comes in, and what leaves a lane is in `leaving`. */
  ghost predicate Requeued(s: State, s': State, entrant: Option<Job>) {
    RequeuedBooks(s, s', entrant) && RequeuedWaits(s, s', entrant)
  }

  ghost predicate RequeuedWaits(s: State, s': State, entrant: Option<Job>) {
    forall j: Job :: Waiting(s', j) <==>
      (Waiting(s, j) || entrant == Some(j)) && (j.id in s'.leaving ==> j.id in s.leaving)
  }

  ghost predicate RequeuedBooks(s: State, s': State, entrant: Option<Job>) {
    && s'.known == (if entrant.Some? then s.known[entrant.value.id := entrant.value] else s.known)
    && (entrant.Some? ==> entrant.value.id !in s.known)
    && s'.deadline.Keys == s'.known.Keys
    && (forall id :: id in s.deadline ==> id in s'.deadline && s'.deadline[id] == s.deadline[id])
    && s'.done == s.done && s'.told == s.told && s'.starts == s.starts
    && (forall k :: k in s'.lanes ==> s'.lanes[k].running == LaneOf(s, k).running)
    && (forall k :: k in s.lanes ==> k in s'.lanes)
    && (forall id :: id in s.leaving ==> id in s'.leaving && s'.leaving[id] == s.leaving[id])
    && (forall id :: id in s'.leaving && id !in s.leaving ==>
          && !s'.leaving[id].Ran? && !s'.leaving[id].Expired? && id in s'.known
          && (Waiting(s, s'.known[id]) || entrant == Some(s'.known[id])))
  }

  lemma RequeuedRuns(s: State, s': State, entrant: Option<Job>)
    requires Requeued(s, s', entrant)
    ensures forall j: Job :: InRun(s', j) <==> InRun(s, j)
  {
    forall j: Job ensures InRun(s', j) <==> InRun(s, j) {
      if j.lane in s.lanes { assert j.lane in s'.lanes; }
    }
  }

  lemma RequeuedOne(s: State, s': State, entrant: Option<Job>, id: nat)
    requires Inv(s) && Requeued(s, s', entrant) && id in s'.known
    ensures s'.known[id].id == id && InOnePlace(s', s'.known[id])
  {
    var j := s'.known[id];
    RequeuedRuns(s, s', entrant);
    if entrant == Some(j) {
      assert !InRun(s, j);
    } else {
      assert id in s.known && s.known[id] == j;
      assert InOnePlace(s, j);
      assert Waiting(s', j) <==> Waiting(s, j) && (j.id in s'.leaving ==> j.id in s.leaving);
      assert InRun(s', j) <==> InRun(s, j);
    }
  }

  lemma RequeuedPlaced(s: State, s': State, entrant: Option<Job>)
    requires Inv(s) && Requeued(s, s', entrant)
    ensures Placed(s')
  {
    forall id | id in s'.known ensures s'.known[id].id == id && InOnePlace(s', s'.known[id]) {
      RequeuedOne(s, s', entrant, id);
    }
  }

  lemma RequeuedTold(s: State, s': State, entrant: Option<Job>)
    requires Placed(s) && Told(s) && RequeuedBooks(s, s', entrant)
    ensures Told(s')
  {
  }

  lemma RequeuedTracked(s: State, s': State, entrant: Option<Job>)
    requires Inv(s) && Requeued(s, s', entrant)
    ensures Tracked(s') && Told(s')
  {
    RequeuedTold(s, s', entrant);
    forall j: Job | Waiting(s', j) ensures j.id in s'.known && s'.known[j.id] == j {
      assert entrant != Some(j) ==> Waiting(s, j);
    }
    forall k | k in s'.lanes && s'.lanes[k].running.Some?
      ensures var j := s'.lanes[k].running.value.job; j.id in s'.known && s'.known[j.id] == j
    {
      assert s'.lanes[k].running == LaneOf(s, k).running;
      assert k in s.lanes;
    }
  }

  lemma RequeuedHistory(s: State, s': State, entrant: Option<Job>)
    requires Inv(s) && Requeued(s, s', entrant)
    requires s'.closing == s.closing && s'.stopped == s.stopped && s'.stopping == s.stopping
    requires entrant.Some? ==>
      entrant.value.id in s'.leaving || (!s.stopping && (s.closing ==> entrant.value.kind == Revert))
    ensures HistoryOk(s')
  {
    forall i | 0 <= i < |s.starts| ensures StartedOk(s', s'.starts[i]) {
      assert StartedOk(s, s.starts[i]);
      StillStarted(s, s', s.starts[i]);
    }
  }

  /** What is known of one job before a step: where it may not be. */
  ghost predicate KnownOf(s: State, j: Job) {
    && (Waiting(s, j) ==> j.id in s.known && s.known[j.id] == j && j.id !in s.leaving)
  }

  lemma AdmittedMoves(s: State, job: Job, a: Admitted, j: Job)
    requires AdmitsOne(LaneOf(s, job.lane).view, job, a) && TellsRight(LaneOf(s, job.lane).view, job, a)
    requires job.id !in s.known && job.id !in s.leaving && KnownOf(s, job) && KnownOf(s, j)
    requires a.told.Some? ==> KnownOf(s, a.told.value.0)
    ensures var s' := WithAdmitted(Registered(s, job), job, a);
            Waiting(s', j) <==> (Waiting(s, j) || job == j) && (j.id in s'.leaving ==> j.id in s.leaving)
  {
    var s' := WithAdmitted(Registered(s, job), job, a);
    if a.told.Some? && a.told.value.0 != job {
      assert Waiting(s, a.told.value.0);
    }
    if j.lane != job.lane {
      assert Waiting(s', j) == Waiting(s, j);
    } else {
      assert Waiting(s', j) == Waits(a.lane, j);
      assert Waiting(s, j) == Waits(LaneOf(s, job.lane).view, j);
    }
  }

  lemma AdmittedWaits(s: State, job: Job, a: Admitted)
    requires AdmitsOne(LaneOf(s, job.lane).view, job, a) && TellsRight(LaneOf(s, job.lane).view, job, a)
    requires job.id !in s.known && job.id !in s.leaving && forall j: Job :: KnownOf(s, j)
    ensures RequeuedWaits(s, WithAdmitted(Registered(s, job), job, a), Some(job))
  {
    var s' := WithAdmitted(Registered(s, job), job, a);
    forall j: Job ensures Waiting(s', j) <==>
        (Waiting(s, j) || job == j) && (j.id in s'.leaving ==> j.id in s.leaving)
    {
      AdmittedMoves(s, job, a, j);
    }
  }

  lemma AdmittedBooks(s: State, job: Job, a: Admitted)
    requires TellsRight(LaneOf(s, job.lane).view, job, a)
    requires job.id !in s.known && job.id !in s.leaving && s.deadline.Keys == s.known.Keys
    requires a.told.Some? ==> KnownOf(s, a.told.value.0)
    ensures RequeuedBooks(s, WithAdmitted(Registered(s, job), job, a), Some(job))
  {
    var s' := WithAdmitted(Registered(s, job), job, a);
    if a.told.Some? && a.told.value.0 != job {
      assert Waiting(s, a.told.value.0);
    }
    assert forall k :: k in s'.lanes ==> s'.lanes[k].running == LaneOf(s, k).running;
  }

  lemma InvKnownOf(s: State)
    requires Inv(s)
    ensures forall j: Job :: KnownOf(s, j)
  {
    forall j: Job ensures KnownOf(s, j) {
      if Waiting(s, j) { assert InOnePlace(s, s.known[j.id]); }
    }
  }

  lemma AdmittedLanes(s: State, job: Job, a: Admitted)
    requires LanesOk(s) && TellsRight(LaneOf(s, job.lane).view, job, a)
    requires ValidLane(a.lane, job.lane) && SlotsWithin(a.lane, s.cap)
    ensures LanesOk(WithAdmitted(Registered(s, job), job, a))
  {
  }

  lemma SubmitRequeues(s: State, job: Job)
    requires Inv(s) && job.id !in s.known
    ensures Requeued(s, Submitted(s, job), Some(job)) && LanesOk(Submitted(s, job))
  {
    InvKnownOf(s);
    assert KnownOf(s, job);
    if s.stopping || (s.closing && job.kind != Revert) {
      RefusedRequeues(s, job);
    } else {
      var view := LaneOf(s, job.lane).view;
      EmptyIsValid(job.lane, s.cap);
      AdmitPlaces(view, job, s.cap, job.lane);
      AdmitKeepsSlots(view, job, s.cap);
      AdmittedWaits(s, job, Admit(view, job, s.cap));
      AdmittedBooks(s, job, Admit(view, job, s.cap));
      AdmittedLanes(s, job, Admit(view, job, s.cap));
    }
  }

  lemma RefusedRequeues(s: State, job: Job)
    requires LanesOk(s) && s.deadline.Keys == s.known.Keys && job.id !in s.known && job.id !in s.leaving
    requires forall j: Job :: KnownOf(s, j)
    ensures var s' := Registered(s, job).(leaving := s.leaving[job.id := Stopping]);
            Requeued(s, s', Some(job)) && LanesOk(s')
  {
    var s' := Registered(s, job).(leaving := s.leaving[job.id := Stopping]);
    forall j: Job ensures Waiting(s', j) <==>
        (Waiting(s, j) || job == j) && (j.id in s'.leaving ==> j.id in s.leaving)
    {
      assert KnownOf(s, j);
      assert Waiting(s', j) == Waiting(s, j);
    }
  }

  lemma EmptyIsValid(key: Name, cap: nat)
    ensures ValidLane(EMPTY_LANE, key) && SlotsWithin(EMPTY_LANE, cap)
  {
    assert forall d, c :: Slot(EMPTY_LANE, d, c) == [];
  }

  lemma SubmitKeeps(s: State, job: Job)
    requires Inv(s) && job.id !in s.known
    ensures Inv(Submitted(s, job))
  {
    SubmitRequeues(s, job);
    RequeueKeeps(s, Submitted(s, job), Some(job));
  }

  lemma RequeueKeeps(s: State, s': State, entrant: Option<Job>)
    requires Inv(s) && Requeued(s, s', entrant) && LanesOk(s')
    requires s'.closing == s.closing && s'.stopped == s.stopped && s'.stopping == s.stopping
    requires entrant.Some? ==>
      entrant.value.id in s'.leaving || (!s.stopping && (s.closing ==> entrant.value.kind == Revert))
    ensures Inv(s')
  {
    RequeuedTracked(s, s', entrant);
    RequeuedPlaced(s, s', entrant);
    RequeuedHistory(s, s', entrant);
  }

  // ---- taking back ----

  ghost function GoneJobs(s: State, who: Job -> bool): set<Job> {
    set id | id in s.known && Waiting(s, s.known[id]) && who(s.known[id]) :: s.known[id]
  }

  lemma DropsAll(s: State, gone: set<Job>, leaving: map<nat, Outcome>)
    requires LanesOk(s)
    ensures var s' := s.(lanes := map k | k in s.lanes :: s.lanes[k].(view := Drop(s.lanes[k].view, gone)), leaving := leaving);
            LanesOk(s') && forall j: Job :: Waiting(s', j) <==> Waiting(s, j) && j !in gone
  {
    forall k | k in s.lanes
      ensures ValidLane(Drop(s.lanes[k].view, gone), k) && SlotsWithin(Drop(s.lanes[k].view, gone), s.cap)
      ensures HasJobs(Drop(s.lanes[k].view, gone)) ==> HasJobs(s.lanes[k].view)
      ensures forall j :: Waits(Drop(s.lanes[k].view, gone), j) <==> Waits(s.lanes[k].view, j) && j !in gone
    {
      DropKeeps(s.lanes[k].view, gone, k);
      DropKeepsSlots(s.lanes[k].view, gone, k, s.cap);
      FilterMembers(s.lanes[k].view.urgent, j => j !in gone);
    }
  }

  lemma GoneAre(s: State, who: Job -> bool)
    requires forall j: Job :: KnownOf(s, j)
    ensures forall j: Job :: j in GoneJobs(s, who) <==> Waiting(s, j) && who(j)
  {
    forall j: Job ensures j in GoneJobs(s, who) <==> Waiting(s, j) && who(j) {
      assert KnownOf(s, j);
    }
  }

  lemma TakenOutWaits(s: State, who: Job -> bool, why: Outcome)
    requires LanesOk(s) && forall j: Job :: KnownOf(s, j)
    ensures LanesOk(TakenOut(s, who, why)) && RequeuedWaits(s, TakenOut(s, who, why), None)
    ensures forall j: Job :: Waiting(TakenOut(s, who, why), j) <==> Waiting(s, j) && !who(j)
  {
    var s' := TakenOut(s, who, why);
    var gone := GoneJobs(s, who);
    DropsAll(s, gone, s'.leaving);
    GoneAre(s, who);
    forall j: Job ensures Waiting(s', j) <==> Waiting(s, j) && (j.id in s'.leaving ==> j.id in s.leaving) {
      assert KnownOf(s, j);
      if Waiting(s, j) && j.id in s'.leaving {
        var g :| g in gone && g.id == j.id;
        assert KnownOf(s, g);
      }
    }
  }

  lemma TakenOutRequeues(s: State, who: Job -> bool, why: Outcome)
    requires Inv(s) && !why.Ran? && !why.Expired?
    ensures Requeued(s, TakenOut(s, who, why), None) && LanesOk(TakenOut(s, who, why))
    ensures forall j: Job :: Waiting(TakenOut(s, who, why), j) <==> Waiting(s, j) && !who(j)
  {
    InvKnownOf(s);
    TakenOutWaits(s, who, why);
    TakenOutBooks(s, who, why);
  }

  lemma TakenOutBooks(s: State, who: Job -> bool, why: Outcome)
    requires LanesOk(s) && (forall j: Job :: KnownOf(s, j)) && s.deadline.Keys == s.known.Keys && !why.Ran? && !why.Expired?
    ensures RequeuedBooks(s, TakenOut(s, who, why), None)
  {
    var s' := TakenOut(s, who, why);
    forall id | id in s'.leaving && id !in s.leaving
      ensures s'.leaving[id] == why && id in s'.known && Waiting(s, s'.known[id])
    {
      LeavingWaited(s, who, why, id);
    }
    forall id | id in s.leaving ensures id in s'.leaving && s'.leaving[id] == s.leaving[id] {
      LeavingStays(s, who, why, id);
    }
  }

  lemma LeavingWaited(s: State, who: Job -> bool, why: Outcome, id: nat)
    requires (forall j: Job :: KnownOf(s, j)) && id in TakenOut(s, who, why).leaving && id !in s.leaving
    ensures TakenOut(s, who, why).leaving[id] == why && id in s.known && Waiting(s, s.known[id])
  {
    GoneAre(s, who);
    var g :| g in GoneJobs(s, who) && g.id == id;
    assert Waiting(s, g) && KnownOf(s, g);
  }

  lemma LeavingStays(s: State, who: Job -> bool, why: Outcome, id: nat)
    requires (forall j: Job :: KnownOf(s, j)) && id in s.leaving
    ensures id in TakenOut(s, who, why).leaving && TakenOut(s, who, why).leaving[id] == s.leaving[id]
  {
    GoneAre(s, who);
    forall g | g in GoneJobs(s, who) ensures g.id != id {
      assert Waiting(s, g) && KnownOf(s, g);
    }
  }

  lemma TakenOutKeeps(s: State, who: Job -> bool, why: Outcome)
    requires Inv(s) && !why.Ran? && !why.Expired?
    ensures Inv(TakenOut(s, who, why))
  {
    TakenOutRequeues(s, who, why);
    RequeueKeeps(s, TakenOut(s, who, why), None);
  }

  // ---- the lane's thread ----

  /** What a pick is to the lane it is made from. */
  ghost predicate Gives(l: LaneView, view: LaneView, job: Job) {
    Waits(l, job) && forall j: Job :: Waits(view, j) <==> Waits(l, j) && j != job
  }

  lemma TakenMoves(s: State, key: Name, view: LaneView, job: Job)
    requires key in s.lanes && s.lanes[key].running.None? && Gives(s.lanes[key].view, view, job)
    requires job.lane == key && job.id !in s.done
    ensures forall j: Job :: Waiting(Taken(s, key, view, job), j) <==> Waiting(s, j) && j != job
    ensures forall j: Job :: InRun(Taken(s, key, view, job), j) <==> InRun(s, j) || j == job
  {
    var s' := Taken(s, key, view, job);
    forall j: Job
      ensures Waiting(s', j) <==> Waiting(s, j) && j != job
      ensures InRun(s', j) <==> InRun(s, j) || j == job
    {
      if j.lane != key { assert s'.lanes.Keys == s.lanes.Keys; }
    }
  }

  lemma TakenPlaced(s: State, key: Name, view: LaneView, job: Job)
    requires Placed(s) && Tracked(s) && Told(s)
    requires key in s.lanes && s.lanes[key].running.None? && Gives(s.lanes[key].view, view, job) && job.lane == key
    ensures job.id in s.known && s.known[job.id] == job && job.id !in s.done && Waiting(s, job)
    ensures Placed(Taken(s, key, view, job)) && Tracked(Taken(s, key, view, job)) && Told(Taken(s, key, view, job))
  {
    assert Waiting(s, job);
    assert InOnePlace(s, s.known[job.id]);
    TakenMoves(s, key, view, job);
  }

  /** A job that waits has not started. */
  lemma NotStarted(s: State, job: Job)
    requires Placed(s) && Told(s) && HistoryOk(s) && Waiting(s, job)
    ensures forall i :: 0 <= i < |s.starts| ==> s.starts[i].job != job
  {
    forall i | 0 <= i < |s.starts| ensures s.starts[i].job != job {
      assert StartedOk(s, s.starts[i]);
      assert InOnePlace(s, s.known[s.starts[i].job.id]);
    }
  }

  lemma TakenStarts(s: State, key: Name, view: LaneView, job: Job, i: nat)
    requires s.deadline.Keys == s.known.Keys && key in s.lanes && s.lanes[key].running.None? && job.lane == key
    requires job.id in s.known && s.known[job.id] == job && job.id !in s.done
    requires s.closing ==> job.kind == Revert
    requires !s.stopped
    requires i < |Taken(s, key, view, job).starts|
    requires i < |s.starts| ==> StartedOk(s, s.starts[i])
    ensures Taken(s, key, view, job).deadline == s.deadline && Taken(s, key, view, job).known == s.known
    ensures StartedOk(Taken(s, key, view, job), Taken(s, key, view, job).starts[i])
  {
    if i < |s.starts| {
      StillStarted(s, Taken(s, key, view, job), s.starts[i]);
    }
  }

  lemma TakenHistory(s: State, key: Name, view: LaneView, job: Job)
    requires Placed(s) && Tracked(s) && Told(s) && HistoryOk(s)
    requires key in s.lanes && s.lanes[key].running.None? && Gives(s.lanes[key].view, view, job) && job.lane == key
    ensures Taken(s, key, view, job).deadline == s.deadline && Taken(s, key, view, job).known == s.known
    ensures HistoryOk(Taken(s, key, view, job))
  {
    var s' := Taken(s, key, view, job);
    TakenPlaced(s, key, view, job);
    TakenMoves(s, key, view, job);
    NotStarted(s, job);
    forall i | 0 <= i < |s'.starts| ensures StartedOk(s', s'.starts[i]) {
      TakenStarts(s, key, view, job, i);
    }
    TakenApart(s, key, view, job);
  }

  lemma TakenApart(s: State, key: Name, view: LaneView, job: Job)
    requires key in s.lanes && forall i :: 0 <= i < |s.starts| ==> s.starts[i].job != job
    requires forall i, k :: 0 <= i < k < |s.starts| ==> s.starts[i].job != s.starts[k].job
    ensures var st := Taken(s, key, view, job).starts;
            forall i, k :: 0 <= i < k < |st| ==> st[i].job != st[k].job
  {
  }

  /** A start stays well recorded while the job's run, outcome and deadline stay. */
  lemma StillStarted(s: State, s': State, st: Start)
    requires s.deadline.Keys == s.known.Keys && StartedOk(s, st)
    requires st.job.id in s'.known && st.job.id in s'.deadline
    requires s'.known[st.job.id] == s.known[st.job.id] && s'.deadline[st.job.id] == s.deadline[st.job.id]
    requires st.job.id in s.done ==> st.job.id in s'.done && s'.done[st.job.id] == s.done[st.job.id]
    requires st.job.id !in s.done ==>
      (st.job.id !in s'.done && st.job.lane in s'.lanes
       && s'.lanes[st.job.lane].running == s.lanes[st.job.lane].running)
    ensures StartedOk(s', st)
  {
  }

  lemma PickKeeps(s: State, key: Name)
    requires Inv(s) && Enabled(s, Pick(key))
    ensures Inv(PickedFrom(s, key))
  {
    var view := s.lanes[key].view;
    NextTakes(view, key);
    NextKeepsSlots(view, key, s.cap);
    var p := Next(view);
    WaitsHere(view, key, p.job.value);
    TakenPlaced(s, key, p.lane, p.job.value);
    TakenHistory(s, key, p.lane, p.job.value);
    TakenLanes(s, key, p.lane, p.job.value);
  }

  lemma WaitsHere(l: LaneView, key: Name, j: Job)
    requires ValidLane(l, key) && Waits(l, j)
    ensures j.lane == key
  {
  }

  lemma TakenLanes(s: State, key: Name, view: LaneView, job: Job)
    requires LanesOk(s) && key in s.lanes && s.lanes[key].thread && job.lane == key
    requires ValidLane(view, key) && SlotsWithin(view, s.cap)
    ensures LanesOk(Taken(s, key, view, job))
  {
  }
}
