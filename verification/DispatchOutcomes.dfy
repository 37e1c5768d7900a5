/** What a run of the dispatcher owes each job: its deadline counted from when it
    was handed in, and an outcome that some step earned it. */
module DispatchOutcomes {
  import opened Prelude
  import opened LaneModel
  import opened DispatchModel
  import opened DispatchRuns

  // ---- a run and its beginnings ----

  lemma {:induction false} RunBegins(s0: State, events: seq<Event>, k: nat)
    requires Run(s0, events).Some? && k <= |events|
    ensures Run(s0, events[..k]).Some?
    decreases |events|
  {
    if k < |events| {
      var n := |events| - 1;
      RunBegins(s0, events[..n], k);
      assert events[..n][..k] == events[..k];
    } else {
      assert events[..k] == events;
    }
  }

  /** The state before event `k` of a run from the dispatcher's start. */
  ghost function At(cap: nat, t0: real, events: seq<Event>, k: nat): State
    requires Run(Init(cap, t0), events).Some? && k <= |events|
  {
    RunBegins(Init(cap, t0), events, k);
    Run(Init(cap, t0), events[..k]).value
  }

  lemma AtNext(cap: nat, t0: real, events: seq<Event>, k: nat)
    requires Run(Init(cap, t0), events).Some? && k < |events|
    ensures Enabled(At(cap, t0, events, k), events[k])
    ensures At(cap, t0, events, k + 1) == Apply(At(cap, t0, events, k), events[k])
    ensures Inv(At(cap, t0, events, k)) && Inv(At(cap, t0, events, k + 1))
  {
    RunBegins(Init(cap, t0), events, k);
    RunBegins(Init(cap, t0), events, k + 1);
    assert events[..k + 1][..k] == events[..k];
    InitInv(cap, t0);
    RunKeeps(Init(cap, t0), events[..k]);
    RunKeeps(Init(cap, t0), events[..k + 1]);
  }

  // ---- deadlines ----

  /** The job is one to be given up when it has waited longer than `m`. */
  predicate WaitsAtMost(job: Job, m: real) {
    job.kind != Revert && job.maxAge == Some(m) && m != 0.0
  }

  /** What is known of a job when it is handed in stays known. */
  ghost predicate KeepsKnown(s: State, s': State) {
    forall id :: id in s.known ==>
      id in s'.known && s'.known[id] == s.known[id] &&
      (id in s.deadline ==> id in s'.deadline && s'.deadline[id] == s.deadline[id])
  }

  lemma StepKeepsKnown(s: State, e: Event)
    requires Enabled(s, e)
    ensures KeepsKnown(s, Apply(s, e))
  {
    match e {
      case Pick(key) =>
        var p := Next(s.lanes[key].view);
        if p.job.Some? {
          TakenKeepsKnown(s, key, p.lane, p.job.value);
        }
      case Submit(job) => AdmittedKeepsKnown(s, job, Admit(LaneOf(s, job.lane).view, job, s.cap));
      case _ =>
    }
  }

  lemma TakenKeepsKnown(s: State, key: Name, view: LaneView, job: Job)
    requires key in s.lanes
    ensures KeepsKnown(s, Taken(s, key, view, job))
  {
  }

  lemma AdmittedKeepsKnown(s: State, job: Job, a: Admitted)
    requires job.id !in s.known
    ensures KeepsKnown(s, WithAdmitted(Registered(s, job), job, a))
  {
  }

  lemma KeepsKnownOn(s: State, mid: State, s': State)
    requires KeepsKnown(s, mid) && KeepsKnown(mid, s')
    ensures KeepsKnown(s, s')
  {
  }

  lemma NextKeepsKnown(cap: nat, t0: real, events: seq<Event>, k: nat)
    requires Run(Init(cap, t0), events).Some? && k < |events|
    ensures KeepsKnown(At(cap, t0, events, k), At(cap, t0, events, k + 1))
  {
    AtNext(cap, t0, events, k);
    StepKeepsKnown(At(cap, t0, events, k), events[k]);
  }

  lemma {:induction false} ChainKeepsKnown(trace: seq<State>, i: nat, k: nat)
    requires i <= k < |trace| && forall n: nat :: n + 1 < |trace| ==> KeepsKnown(trace[n], trace[n + 1])
    ensures KeepsKnown(trace[i], trace[k])
    decreases k
  {
    if i < k {
      ChainKeepsKnown(trace, i, k - 1);
      assert KeepsKnown(trace[k - 1], trace[k - 1 + 1]);
      KeepsKnownOn(trace[i], trace[k - 1], trace[k]);
    }
  }

  lemma KnownStays(cap: nat, t0: real, events: seq<Event>, i: nat, k: nat)
    requires Run(Init(cap, t0), events).Some? && i <= k <= |events|
    ensures KeepsKnown(At(cap, t0, events, i), At(cap, t0, events, k))
  {
    var trace := seq(|events| + 1, n requires 0 <= n <= |events| => At(cap, t0, events, n));
    forall n: nat | n + 1 < |trace| ensures KeepsKnown(trace[n], trace[n + 1]) {
      NextKeepsKnown(cap, t0, events, n);
    }
    ChainKeepsKnown(trace, i, k);
  }

  /** The job was handed in at `t`, and what it is and when it is given up is known. */
  ghost predicate DueFrom(s: State, job: Job, t: real) {
    && job.id in s.known && s.known[job.id] == job && job.id in s.deadline
    && (forall m :: WaitsAtMost(job, m) ==> s.deadline[job.id] == Some(t + m))
    && ((forall m :: !WaitsAtMost(job, m)) ==> s.deadline[job.id] == None)
  }

  lemma DueStays(s: State, s': State, job: Job, t: real)
    requires DueFrom(s, job, t) && KeepsKnown(s, s')
    ensures DueFrom(s', job, t)
  {
  }

  lemma RegisteredDue(s: State, job: Job)
    ensures DueFrom(Registered(s, job), job, s.now)
  {
    if job.maxAge.Some? {
      assert WaitsAtMost(job, job.maxAge.value) <==> job.kind != Revert && job.maxAge.value != 0.0;
    }
  }

  lemma HandedIn(s: State, job: Job)
    requires Enabled(s, Submit(job))
    ensures DueFrom(Apply(s, Submit(job)), job, s.now)
  {
    RegisteredDue(s, job);
    DueStays(Registered(s, job), Submitted(s, job), job, s.now);
  }

  /** After it was handed in as event `i`, a job has its deadline from that moment. */
  lemma DeadlineFromHandingIn(cap: nat, t0: real, events: seq<Event>, i: nat, k: nat, job: Job)
    requires Run(Init(cap, t0), events).Some? && i < k <= |events| && events[i] == Submit(job)
    ensures DueFrom(At(cap, t0, events, k), job, At(cap, t0, events, i).now)
  {
    AtNext(cap, t0, events, i);
    HandedIn(At(cap, t0, events, i), job);
    KnownStays(cap, t0, events, i + 1, k);
    DueStays(At(cap, t0, events, i + 1), At(cap, t0, events, k), job, At(cap, t0, events, i).now);
  }

  lemma AtEnd(cap: nat, t0: real, events: seq<Event>, s: State)
    requires Reached(cap, t0, events, s)
    ensures At(cap, t0, events, |events|) == s && Inv(s)
  {
    assert events[..|events|] == events;
    ReachedInv(cap, t0, events, s);
  }

  /** No job that is to be given up starts later than its time after it was handed in. */
  lemma StartsInTime(cap: nat, t0: real, events: seq<Event>, s: State, i: nat, m: real, n: nat)
    requires Reached(cap, t0, events, s) && i < |events| && events[i].Submit? && WaitsAtMost(events[i].job, m)
    requires n < |s.starts| && s.starts[n].job.id == events[i].job.id
    ensures s.starts[n].job == events[i].job && s.starts[n].at <= At(cap, t0, events, i).now + m
  {
    AtEnd(cap, t0, events, s);
    DeadlineFromHandingIn(cap, t0, events, i, |events|, events[i].job);
    assert StartedOk(s, s.starts[n]);
  }

  /** A pick gives the lane a job to run. */
  ghost predicate PicksJob(s: State, key: Name, job: Job) {
    key in s.lanes && Next(s.lanes[key].view).job == Some(job)
  }

  /** The job is to be given up by now. */
  ghost predicate TimeIsOver(job: Job, handedIn: real, now: real) {
    exists m :: WaitsAtMost(job, m) && now > handedIn + m
  }

  lemma LateIsOver(s: State, job: Job, t: real)
    requires DueFrom(s, job, t)
    ensures Late(s, job) <==> TimeIsOver(job, t, s.now)
  {
    if job.maxAge.Some? && WaitsAtMost(job, job.maxAge.value) {
      assert s.deadline[job.id] == Some(t + job.maxAge.value);
    } else {
      assert forall m :: !WaitsAtMost(job, m);
    }
  }

  /** A job that is picked starts there and then, unless it is one to be given up and
      its time is over: then it will be told that it expired. */
  lemma PickedStartsUnlessLate(cap: nat, t0: real, events: seq<Event>, i: nat, k: nat, job: Job)
    requires Run(Init(cap, t0), events).Some? && i < k < |events| && events[i] == Submit(job)
    requires events[k].Pick? && PicksJob(At(cap, t0, events, k), events[k].key, job)
    ensures
      var s, s' := At(cap, t0, events, k), At(cap, t0, events, k + 1);
      var over := TimeIsOver(job, At(cap, t0, events, i).now, s.now);
      && events[k].key in s'.lanes
      && s'.lanes[events[k].key].running == Some(Running(job, over))
      && s'.starts == if over then s.starts else s.starts + [Start(job, s.now, s.closing, s.stopped)]
  {
    AtNext(cap, t0, events, k);
    DeadlineFromHandingIn(cap, t0, events, i, k, job);
    LateIsOver(At(cap, t0, events, k), job, At(cap, t0, events, i).now);
  }

  // ---- outcomes ----

  /** Two jobs of one intent: all but the value agrees, and both may coalesce. */
  predicate MayTakePlace(older: Job, newer: Job) {
    && older.kind == Command && newer.kind == Command && older.coalesce && newer.coalesce
    && older.lane == newer.lane && older.device == newer.device && older.channel == newer.channel
    && older.command == newer.command
    && older.params - older.valueKeys == newer.params - older.valueKeys
  }

  /** The jobs of one device and channel that wait in a lane. */
  ghost function SlotOf(s: State, job: Job): seq<Job> {
    Slot(LaneOf(s, job.lane).view, job.device, job.channel)
  }

  /** What must happen to a job for an outcome to be its own. */
  ghost predicate Earns(s: State, e: Event, id: nat, why: Outcome) {
    match why
    case Stopping => e.Submit? && e.job.id == id && (s.stopping || (s.closing && e.job.kind != Revert))
    case PutOff => e.Submit? && e.job.id == id && e.job.kind == Refresh && SlotOf(s, e.job) != []
    case QueueFull => e.Submit? && e.job.id == id && e.job.kind != Revert && |SlotOf(s, e.job)| >= s.cap
    case Superseded =>
      e.Submit? && e.job.id != id && id in s.known && Waiting(s, s.known[id]) && MayTakePlace(s.known[id], e.job)
    case Withdrawn => e.Withdraw? && e.job.id == id && Waiting(s, e.job)
    case Cancelled =>
      && id in s.known && Waiting(s, s.known[id])
      && (|| (e.Cancel? && (e.device.None? || s.known[id].device == e.device.value))
          || (e.Close? && s.known[id].kind != Revert)
          || e.EndStop?)
    case Expired =>
      e.Pick? && id in s.known && PicksJob(s, e.key, s.known[id]) && Late(s, s.known[id])
    case Ran(code) =>
      && e.Finish? && e.code == code && id in s.known && e.key in s.lanes
      && s.lanes[e.key].running == Some(Running(s.known[id], false))
  }

  /** Some event of the run earned the job the outcome. */
  ghost predicate Earned(cap: nat, t0: real, events: seq<Event>, id: nat, why: Outcome)
    requires Run(Init(cap, t0), events).Some?
  {
    exists k: nat :: k < |events| && Earns(At(cap, t0, events, k), events[k], id, why)
  }

  lemma AtPrefix(cap: nat, t0: real, events: seq<Event>, n: nat, k: nat)
    requires Run(Init(cap, t0), events).Some? && k <= n <= |events| && Run(Init(cap, t0), events[..n]).Some?
    ensures At(cap, t0, events[..n], k) == At(cap, t0, events, k)
  {
    assert events[..n][..k] == events[..k];
  }

  lemma EarnedStays(cap: nat, t0: real, events: seq<Event>, id: nat, why: Outcome)
    requires Run(Init(cap, t0), events).Some? && events != []
    requires Run(Init(cap, t0), events[..|events| - 1]).Some?
    requires Earned(cap, t0, events[..|events| - 1], id, why)
    ensures Earned(cap, t0, events, id, why)
  {
    var n := |events| - 1;
    var k: nat :| k < n && Earns(At(cap, t0, events[..n], k), events[..n][k], id, why);
    AtPrefix(cap, t0, events, n, k);
  }

  lemma EarnedNow(cap: nat, t0: real, events: seq<Event>, s: State, id: nat, why: Outcome)
    requires Run(Init(cap, t0), events).Some? && events != []
    requires s == At(cap, t0, events, |events| - 1) && Earns(s, events[|events| - 1], id, why)
    ensures Earned(cap, t0, events, id, why)
  {
  }

  /** An outcome told or on its way to be told is old, or earned by the last step. */
  ghost predicate NewAreEarned(s: State, e: Event, s': State) {
    && (forall id :: id in s'.leaving ==>
          (id in s.leaving && s'.leaving[id] == s.leaving[id]) || Earns(s, e, id, s'.leaving[id]))
    && (forall id :: id in s'.done ==>
          || (id in s.done && s'.done[id] == s.done[id])
          || (id in s.leaving && s'.done[id] == s.leaving[id])
          || (s'.done[id] == Expired && RunsExpired(s, id))
          || Earns(s, e, id, s'.done[id]))
    && (forall id :: RunsExpired(s', id) ==> RunsExpired(s, id) || Earns(s, e, id, Expired))
  }

  /** The job is the running one of a lane, and expired before it could start. */
  ghost predicate RunsExpired(s: State, id: nat) {
    exists k :: k in s.lanes && s.lanes[k].running.Some? && s.lanes[k].running.value.job.id == id &&
                s.lanes[k].running.value.expired
  }

  lemma SameRuns(s: State, s': State)
    requires forall k :: k in s'.lanes && s'.lanes[k].running.Some? ==>
      k in s.lanes && s'.lanes[k].running == s.lanes[k].running
    ensures forall id :: RunsExpired(s', id) ==> RunsExpired(s, id)
  {
  }

  lemma SubmitEarns(s: State, job: Job)
    requires Inv(s) && Enabled(s, Submit(job))
    ensures NewAreEarned(s, Submit(job), Submitted(s, job))
  {
    var s', e := Submitted(s, job), Submit(job);
    var view := LaneOf(s, job.lane).view;
    if s.stopping || (s.closing && job.kind != Revert) {
      assert Earns(s, e, job.id, Stopping);
      SameRuns(s, s');
    } else {
      InvKnownOf(s);
      assert KnownOf(s, job);
      EmptyIsValid(job.lane, s.cap);
      AdmitPlaces(view, job, s.cap, job.lane);
      AdmittedEarns(s, job, Admit(view, job, s.cap));
    }
  }

  lemma AdmittedEarns(s: State, job: Job, a: Admitted)
    requires Inv(s) && Enabled(s, Submit(job)) && a == Admit(LaneOf(s, job.lane).view, job, s.cap)
    requires TellsRight(LaneOf(s, job.lane).view, job, a) && forall j: Job :: KnownOf(s, j)
    ensures NewAreEarned(s, Submit(job), WithAdmitted(Registered(s, job), job, a))
  {
    var view, s' := LaneOf(s, job.lane).view, WithAdmitted(Registered(s, job), job, a);
    AdmitDecides(view, job, s.cap);
    SameRuns(s, s');
    if a.told.Some? {
      var prev := a.told.value.0;
      if prev != job {
        assert Waiting(s, prev) && KnownOf(s, prev);
        assert Earns(s, Submit(job), prev.id, Superseded);
      } else {
        assert Earns(s, Submit(job), job.id, a.told.value.1);
      }
    }
  }

  lemma TakenOutEarns(s: State, e: Event, who: Job -> bool, why: Outcome, s': State)
    requires Inv(s) && s'.leaving == TakenOut(s, who, why).leaving && s'.done == s.done
    requires s'.lanes == TakenOut(s, who, why).lanes
    requires forall j: Job :: Waiting(s, j) && who(j) ==> Earns(s, e, j.id, why)
    ensures NewAreEarned(s, e, s')
  {
    InvKnownOf(s);
    SameRuns(s, s');
    forall id | id in s'.leaving && !(id in s.leaving && s'.leaving[id] == s.leaving[id])
      ensures Earns(s, e, id, s'.leaving[id])
    {
      if id in s.leaving {
        LeavingStays(s, who, why, id);
      } else {
        LeavingWaited(s, who, why, id);
        GoneAre(s, who);
        var g :| g in GoneJobs(s, who) && g.id == id;
        assert Earns(s, e, g.id, why);
      }
    }
  }

  lemma WaitingKnown(s: State, j: Job)
    requires Inv(s) && Waiting(s, j)
    ensures j.id in s.known && s.known[j.id] == j
  {
  }

  lemma WithdrawEarns(s: State, job: Job)
    requires Inv(s) && Enabled(s, Withdraw(job))
    ensures NewAreEarned(s, Withdraw(job), Apply(s, Withdraw(job)))
  {
    var who := (j: Job) => j == job;
    forall j: Job | Waiting(s, j) && who(j) ensures Earns(s, Withdraw(job), j.id, Withdrawn) {
      WaitingKnown(s, j);
    }
    TakenOutEarns(s, Withdraw(job), who, Withdrawn, Apply(s, Withdraw(job)));
  }

  lemma CancelEarns(s: State, device: Option<Name>)
    requires Inv(s)
    ensures NewAreEarned(s, Cancel(device), Apply(s, Cancel(device)))
  {
    forall j: Job | Waiting(s, j) && OfDevice(device)(j) ensures Earns(s, Cancel(device), j.id, Cancelled) {
      WaitingKnown(s, j);
    }
    TakenOutEarns(s, Cancel(device), OfDevice(device), Cancelled, Apply(s, Cancel(device)));
  }

  lemma CloseEarns(s: State)
    requires Inv(s)
    ensures NewAreEarned(s, Close, Apply(s, Close))
  {
    var who := (j: Job) => j.kind != Revert;
    forall j: Job | Waiting(s, j) && who(j) ensures Earns(s, Close, j.id, Cancelled) {
      WaitingKnown(s, j);
    }
    TakenOutEarns(s, Close, who, Cancelled, Apply(s, Close));
  }

  lemma EndStopEarns(s: State)
    requires Inv(s) && s.stopping
    ensures NewAreEarned(s, EndStop, Apply(s, EndStop))
  {
    forall j: Job | Waiting(s, j) && Anyone(j) ensures Earns(s, EndStop, j.id, Cancelled) {
      WaitingKnown(s, j);
    }
    TakenOutEarns(s, EndStop, Anyone, Cancelled, Apply(s, EndStop));
  }

  lemma PickEarns(s: State, key: Name)
    requires Inv(s) && Enabled(s, Pick(key))
    ensures NewAreEarned(s, Pick(key), PickedFrom(s, key))
  {
    var view := s.lanes[key].view;
    NextTakes(view, key);
    var job := Next(view).job.value;
    WaitsHere(view, key, job);
    TakenPlaced(s, key, Next(view).lane, job);
    TakenEarns(s, key, Next(view).lane, job);
  }

  lemma TakenEarns(s: State, key: Name, view: LaneView, job: Job)
    requires key in s.lanes && Next(s.lanes[key].view).job == Some(job) && job.id in s.known && s.known[job.id] == job
    ensures NewAreEarned(s, Pick(key), Taken(s, key, view, job))
  {
    var s' := Taken(s, key, view, job);
    forall id | RunsExpired(s', id) ensures RunsExpired(s, id) || Earns(s, Pick(key), id, Expired) {
      var k :| k in s'.lanes && s'.lanes[k].running.Some? && s'.lanes[k].running.value.job.id == id &&
               s'.lanes[k].running.value.expired;
      if k == key {
        assert PicksJob(s, key, job) && Late(s, job);
      } else {
        assert k in s.lanes && s.lanes[k].running == s'.lanes[k].running;
      }
    }
  }

  lemma FinishEarns(s: State, key: Name, code: int)
    requires Inv(s) && Enabled(s, Finish(key, code))
    ensures NewAreEarned(s, Finish(key, code), Apply(s, Finish(key, code)))
  {
    var r := s.lanes[key].running.value;
    SameRuns(s, Apply(s, Finish(key, code)));
    if r.expired {
      assert RunsExpired(s, r.job.id);
    } else {
      assert Earns(s, Finish(key, code), r.job.id, Ran(code));
    }
  }

  lemma TellEarns(s: State, id: nat)
    requires Enabled(s, Tell(id))
    ensures NewAreEarned(s, Tell(id), Apply(s, Tell(id)))
  {
    SameRuns(s, Apply(s, Tell(id)));
  }

  lemma QuietEarns(s: State, e: Event)
    requires Enabled(s, e) && (e.BeginStop? || e.Free? || e.IdleEnd? || e.Tick?)
    ensures NewAreEarned(s, e, Apply(s, e))
  {
    SameRuns(s, Apply(s, e));
  }

  lemma StepEarns(s: State, e: Event)
    requires Inv(s) && Enabled(s, e)
    ensures NewAreEarned(s, e, Apply(s, e))
  {
    match e {
      case Submit(job) => SubmitEarns(s, job);
      case Pick(key) => PickEarns(s, key);
      case Finish(key, code) => FinishEarns(s, key, code);
      case Withdraw(job) => WithdrawEarns(s, job);
      case Cancel(device) => CancelEarns(s, device);
      case Close => CloseEarns(s);
      case EndStop => EndStopEarns(s);
      case Tell(id) => TellEarns(s, id);
      case _ => QuietEarns(s, e);
    }
  }

  ghost predicate AllEarned(cap: nat, t0: real, events: seq<Event>)
    requires Run(Init(cap, t0), events).Some?
  {
    var s := Run(Init(cap, t0), events).value;
    && (forall id :: id in s.leaving ==> Earned(cap, t0, events, id, s.leaving[id]))
    && (forall id :: id in s.done ==> Earned(cap, t0, events, id, s.done[id]))
    && (forall id :: RunsExpired(s, id) ==> Earned(cap, t0, events, id, Expired))
  }

  lemma {:induction false} OutcomesAreEarned(cap: nat, t0: real, events: seq<Event>)
    requires Run(Init(cap, t0), events).Some?
    ensures AllEarned(cap, t0, events)
    decreases |events|
  {
    if events != [] {
      var n := |events| - 1;
      OutcomesAreEarned(cap, t0, events[..n]);
      AtNext(cap, t0, events, n);
      var s, s' := At(cap, t0, events, n), Run(Init(cap, t0), events).value;
      StepEarns(s, events[n]);
      assert events[..n + 1] == events;
      forall id | id in s'.leaving ensures Earned(cap, t0, events, id, s'.leaving[id]) {
        EarnedNext(cap, t0, events, s, id, s'.leaving[id]);
      }
      forall id | id in s'.done ensures Earned(cap, t0, events, id, s'.done[id]) {
        EarnedNext(cap, t0, events, s, id, s'.done[id]);
      }
      forall id | RunsExpired(s', id) ensures Earned(cap, t0, events, id, Expired) {
        EarnedNext(cap, t0, events, s, id, Expired);
      }
    }
  }

  lemma EarnedNext(cap: nat, t0: real, events: seq<Event>, s: State, id: nat, why: Outcome)
    requires Run(Init(cap, t0), events).Some? && events != []
    requires Run(Init(cap, t0), events[..|events| - 1]).Some? && s == At(cap, t0, events, |events| - 1)
    requires || Earned(cap, t0, events[..|events| - 1], id, why)
             || Earns(s, events[|events| - 1], id, why)
    ensures Earned(cap, t0, events, id, why)
  {
    if Earned(cap, t0, events[..|events| - 1], id, why) {
      EarnedStays(cap, t0, events, id, why);
    } else {
      EarnedNow(cap, t0, events, s, id, why);
    }
  }

  // ---- a job told that it expired ----

  lemma AtStart(cap: nat, t0: real, events: seq<Event>)
    requires Run(Init(cap, t0), events).Some?
    ensures At(cap, t0, events, 0) == Init(cap, t0)
  {
    assert events[..0] == [];
  }

  ghost predicate WasHandedIn(events: seq<Event>, k: nat, job: Job)
    requires k <= |events|
  {
    exists i: nat :: i < k && events[i] == Submit(job)
  }

  /** A step makes no job known but the one it hands in. */
  ghost predicate OnlyHandedIn(s: State, e: Event, s': State) {
    forall id :: id in s'.known ==> (id in s.known && s'.known[id] == s.known[id]) || e == Submit(s'.known[id])
  }

  lemma StepHandsIn(s: State, e: Event)
    requires Enabled(s, e)
    ensures OnlyHandedIn(s, e, Apply(s, e))
  {
    match e {
      case Submit(job) => AdmittedHandsIn(s, job, Admit(LaneOf(s, job.lane).view, job, s.cap));
      case Pick(key) =>
        assert Apply(s, e).known == s.known;
      case _ =>
    }
  }

  lemma AdmittedHandsIn(s: State, job: Job, a: Admitted)
    ensures OnlyHandedIn(s, Submit(job), WithAdmitted(Registered(s, job), job, a))
  {
  }

  lemma {:induction false} ChainHandsIn(trace: seq<State>, events: seq<Event>, k: nat, id: nat)
    requires |trace| == |events| + 1 && k < |trace| && trace[0].known == map[] && id in trace[k].known
    requires forall n: nat :: n < |events| ==> OnlyHandedIn(trace[n], events[n], trace[n + 1])
    ensures WasHandedIn(events, k, trace[k].known[id])
    decreases k
  {
    if k > 0 {
      assert OnlyHandedIn(trace[k - 1], events[k - 1], trace[k - 1 + 1]);
      if events[k - 1] != Submit(trace[k].known[id]) {
        ChainHandsIn(trace, events, k - 1, id);
      }
    }
  }

  lemma NextHandsIn(cap: nat, t0: real, events: seq<Event>, k: nat)
    requires Run(Init(cap, t0), events).Some? && k < |events|
    ensures OnlyHandedIn(At(cap, t0, events, k), events[k], At(cap, t0, events, k + 1))
  {
    AtNext(cap, t0, events, k);
    StepHandsIn(At(cap, t0, events, k), events[k]);
  }

  lemma KnownWasHandedIn(cap: nat, t0: real, events: seq<Event>, k: nat, id: nat)
    requires Run(Init(cap, t0), events).Some? && k <= |events| && id in At(cap, t0, events, k).known
    ensures WasHandedIn(events, k, At(cap, t0, events, k).known[id])
  {
    var trace := seq(|events| + 1, n requires 0 <= n <= |events| => At(cap, t0, events, n));
    forall n: nat | n < |events| ensures OnlyHandedIn(trace[n], events[n], trace[n + 1]) {
      NextHandsIn(cap, t0, events, n);
    }
    AtStart(cap, t0, events);
    ChainHandsIn(trace, events, k, id);
  }

  /** The job was handed in as event `i` and picked as event `k`, when it was to be
      given up `m` after it was handed in and that time was over. */
  ghost predicate PickedTooLate(cap: nat, t0: real, events: seq<Event>, i: nat, k: nat, m: real, id: nat)
    requires Run(Init(cap, t0), events).Some?
  {
    && i < k < |events| && events[i].Submit? && events[i].job.id == id && events[k].Pick?
    && PicksJob(At(cap, t0, events, k), events[k].key, events[i].job)
    && events[i].job.kind != Revert && events[i].job.maxAge == Some(m) && m != 0.0
    && At(cap, t0, events, k).now > At(cap, t0, events, i).now + m
  }

  /** Only a job that was picked too late is told that it expired. */
  lemma ExpiredWasTooLate(cap: nat, t0: real, events: seq<Event>, s: State, id: nat)
    requires Reached(cap, t0, events, s) && id in s.done && s.done[id] == Expired
    ensures exists i, k, m :: PickedTooLate(cap, t0, events, i, k, m, id)
  {
    OutcomesAreEarned(cap, t0, events);
    assert Earned(cap, t0, events, id, s.done[id]);
    var k: nat :| k < |events| && Earns(At(cap, t0, events, k), events[k], id, Expired);
    EarnedTooLate(cap, t0, events, k, id);
  }

  lemma EarnedTooLate(cap: nat, t0: real, events: seq<Event>, k: nat, id: nat)
    requires Run(Init(cap, t0), events).Some? && k < |events|
    requires Earns(At(cap, t0, events, k), events[k], id, Expired)
    ensures exists i, m :: PickedTooLate(cap, t0, events, i, k, m, id)
  {
    var s := At(cap, t0, events, k);
    AtNext(cap, t0, events, k);
    NumberedById(s, id);
    KnownWasHandedIn(cap, t0, events, k, id);
    var i: nat :| i < k && events[i] == Submit(s.known[id]);
    PickedLate(cap, t0, events, i, k, s.known[id]);
  }

  lemma PickedLate(cap: nat, t0: real, events: seq<Event>, i: nat, k: nat, job: Job)
    requires Run(Init(cap, t0), events).Some? && i < k < |events| && events[i] == Submit(job)
    requires events[k].Pick? && PicksJob(At(cap, t0, events, k), events[k].key, job)
    requires Late(At(cap, t0, events, k), job)
    ensures exists i, m :: PickedTooLate(cap, t0, events, i, k, m, job.id)
  {
    var t := At(cap, t0, events, i).now;
    DeadlineFromHandingIn(cap, t0, events, i, k, job);
    LateIsOver(At(cap, t0, events, k), job, t);
    var m :| WaitsAtMost(job, m) && At(cap, t0, events, k).now > t + m;
    assert PickedTooLate(cap, t0, events, i, k, m, job.id);
  }

  lemma NumberedById(s: State, id: nat)
    requires Inv(s) && id in s.known
    ensures s.known[id].id == id
  {
  }

  // ---- the flags and the clock ----

  function Ticked(events: seq<Event>): real {
    if events == [] then 0.0
    else
      var e := events[|events| - 1];
      Ticked(events[..|events| - 1]) + if e.Tick? then e.dt else 0.0
  }

  lemma FlagsNext(s: State, e: Event)
    requires Enabled(s, e)
    ensures
      var s' := Apply(s, e);
      && (s'.closing <==> s.closing || e == Close) && (s'.stopping <==> s.stopping || e == BeginStop)
      && (s'.stopped <==> s.stopped || e == EndStop)
      && s'.now == s.now + (if e.Tick? then e.dt else 0.0)
  {
    match e {
      case Submit(job) => AdmittedFlags(s, job, Admit(LaneOf(s, job.lane).view, job, s.cap));
      case Pick(key) =>
        var p := Next(s.lanes[key].view);
        if p.job.Some? { TakenFlags(s, key, p.lane, p.job.value); }
      case Withdraw(job) => TakenOutFlags(s, j => j == job, Withdrawn);
      case Cancel(device) => TakenOutFlags(s, OfDevice(device), Cancelled);
      case Close => TakenOutFlags(s, (j: Job) => j.kind != Revert, Cancelled);
      case EndStop => TakenOutFlags(s, Anyone, Cancelled);
      case _ =>
    }
  }

  predicate SameFlags(s: State, s': State) {
    s'.closing == s.closing && s'.stopping == s.stopping && s'.stopped == s.stopped && s'.now == s.now
  }

  lemma TakenFlags(s: State, key: Name, view: LaneView, job: Job)
    requires key in s.lanes
    ensures SameFlags(s, Taken(s, key, view, job))
  {
  }

  lemma TakenOutFlags(s: State, who: Job -> bool, why: Outcome)
    ensures SameFlags(s, TakenOut(s, who, why))
  {
  }

  lemma AdmittedFlags(s: State, job: Job, a: Admitted)
    ensures SameFlags(s, WithAdmitted(Registered(s, job), job, a))
  {
  }

  /** The dispatcher closes and stops when it is told to and not before, and its clock
      shows the time that went by. */
  lemma {:induction false} FlagsAre(cap: nat, t0: real, events: seq<Event>)
    requires Run(Init(cap, t0), events).Some?
    ensures
      var s := Run(Init(cap, t0), events).value;
      && (s.closing <==> Close in events) && (s.stopping <==> BeginStop in events) && (s.stopped <==> EndStop in events)
      && s.now == t0 + Ticked(events)
  {
    if events != [] {
      var n := |events| - 1;
      FlagsAre(cap, t0, events[..n]);
      FlagsNext(Run(Init(cap, t0), events[..n]).value, events[n]);
      assert events == events[..n] + [events[n]];
    }
  }

  // ---- what a call does to the jobs that wait ----

  /** A job that is handed in waits from then on unless the dispatcher stops or closes,
      it is a refresh of a channel where something waits, or its channel's slot is full
      and the last job there does not make room for it. */
  lemma SubmitTakes(s: State, job: Job)
    requires Inv(s) && Enabled(s, Submit(job))
    ensures
      var s', slot := Apply(s, Submit(job)), SlotOf(s, job);
      && (Waiting(s', job) <==> Enters(s, job, slot))
      && forall j: Job :: j != job ==>
           (Waiting(s', j) <==> Waiting(s, j) && !(Enters(s, job, slot) && MakesRoom(slot, job) && j == slot[|slot| - 1]))
  {
    if s.stopping || (s.closing && job.kind != Revert) {
      NewDoesNotWait(s, job);
      SameLanesWait(s, Submitted(s, job));
    } else {
      var l := LaneOf(s, job.lane).view;
      LaneIsValid(s, job.lane);
      InvKnownOf(s);
      NewDoesNotWait(s, job);
      assert !Waits(l, job);
      AdmitPlaces(l, job, s.cap, job.lane);
      SlotLanes(l, job, job.lane);
      AdmittedWho(l, job, s.cap);
      AdmittedTakes(s, job, Admit(l, job, s.cap));
      TakesAsTold(s, Submitted(s, job), job, SlotOf(s, job), Admit(l, job, s.cap).told);
    }
  }

  /** The last job of the slot gives its place to the new one. */
  predicate MakesRoom(slot: seq<Job>, job: Job) {
    slot != [] && MayTakePlace(slot[|slot| - 1], job)
  }

  predicate Enters(s: State, job: Job, slot: seq<Job>) {
    && !s.stopping
    && (job.kind == Revert ||
        (!s.closing && !(job.kind == Refresh && slot != []) && (MakesRoom(slot, job) || |slot| < s.cap)))
  }

  lemma TakesAsTold(s: State, s': State, job: Job, slot: seq<Job>, told: Option<(Job, Outcome)>)
    requires !(s.stopping || (s.closing && job.kind != Revert))
    requires told == if job.kind == Revert then None
                     else if job.kind == Refresh && slot != [] then Some((job, PutOff))
                     else if MakesRoom(slot, job) then Some((slot[|slot| - 1], Superseded))
                     else if |slot| >= s.cap then Some((job, QueueFull))
                     else None
    requires Waiting(s', job) <==> told == None || told.value.1 == Superseded
    requires forall j: Job :: j != job ==> (Waiting(s', j) <==> Waiting(s, j) && !(told.Some? && told.value.0 == j))
    ensures Waiting(s', job) <==> Enters(s, job, slot)
    ensures forall j: Job :: j != job ==>
      (Waiting(s', j) <==> Waiting(s, j) && !(Enters(s, job, slot) && MakesRoom(slot, job) && j == slot[|slot| - 1]))
  {
    assert MakesRoom(slot, job) ==> job.kind == Command;
  }

  lemma LaneIsValid(s: State, key: Name)
    requires LanesOk(s)
    ensures ValidLane(LaneOf(s, key).view, key)
  {
    EmptyIsValid(key, s.cap);
  }

  predicate HasThread(s: State, key: Name) {
    key in s.lanes && s.lanes[key].thread
  }

  /** Handing in a job starts its lane's thread exactly when the job waits from then on. */
  lemma SubmitStarts(s: State, job: Job, key: Name)
    requires Inv(s) && Enabled(s, Submit(job))
    ensures HasThread(Apply(s, Submit(job)), key) <==>
              HasThread(s, key) || (key == job.lane && Waiting(Apply(s, Submit(job)), job))
  {
    if !(s.stopping || (s.closing && job.kind != Revert)) {
      var l := LaneOf(s, job.lane).view;
      LaneIsValid(s, job.lane);
      NewDoesNotWait(s, job);
      AdmitPlaces(l, job, s.cap, job.lane);
      StartsAsTold(s, job, Admit(l, job, s.cap), key);
    } else {
      NewDoesNotWait(s, job);
      SameLanesWait(s, Submitted(s, job));
    }
  }

  lemma StartsAsTold(s: State, job: Job, a: Admitted, key: Name)
    requires AdmitsOne(LaneOf(s, job.lane).view, job, a) && TellsRight(LaneOf(s, job.lane).view, job, a)
    requires !Waits(LaneOf(s, job.lane).view, job)
    ensures
      var s' := WithAdmitted(Registered(s, job), job, a);
      HasThread(s', key) <==> HasThread(s, key) || (key == job.lane && Waiting(s', job))
  {
  }

  lemma NewDoesNotWait(s: State, job: Job)
    requires Tracked(s) && job.id !in s.known
    ensures !Waiting(s, job)
  {
  }

  lemma SlotLanes(l: LaneView, job: Job, key: Name)
    requires ValidLane(l, key)
    ensures forall j :: j in Slot(l, job.device, job.channel) ==>
      j in Queue(l, job.device) && j.channel == job.channel && j.kind != Revert && j.lane == key && j.device == job.device
  {
    FilterMembers(Queue(l, job.device), (j: Job) => j.channel == job.channel);
  }

  lemma AdmittedTakes(s: State, job: Job, a: Admitted)
    requires LanesOk(s) && AdmitsOne(LaneOf(s, job.lane).view, job, a)
    requires TellsRight(LaneOf(s, job.lane).view, job, a)
    ensures var s' := WithAdmitted(Registered(s, job), job, a);
            && (Waiting(s', job) <==> a.told == None || a.told.value.1 == Superseded)
            && forall j: Job :: j != job ==>
                 (Waiting(s', j) <==> Waiting(s, j) && !(a.told.Some? && a.told.value.0 == j))
  {
  }

  /** Who is told at admission, in the terms of the slot. */
  lemma AdmittedWho(l: LaneView, job: Job, cap: nat)
    requires forall j :: j in Slot(l, job.device, job.channel) ==>
      j.channel == job.channel && j.lane == job.lane && j.device == job.device
    ensures
      var a, slot := Admit(l, job, cap), Slot(l, job.device, job.channel);
      a.told == if job.kind == Revert then None
                else if job.kind == Refresh && slot != [] then Some((job, PutOff))
                else if MakesRoom(slot, job) then Some((slot[|slot| - 1], Superseded))
                else if |slot| >= cap then Some((job, QueueFull))
                else None
  {
    AdmitDecides(l, job, cap);
    var slot := Slot(l, job.device, job.channel);
    if slot != [] {
      assert slot[|slot| - 1] in slot;
    }
  }

  /** Cancelling takes away what waits for the device named, or for any when none is. */
  lemma CancelTakes(s: State, device: Option<Name>)
    requires Inv(s)
    ensures forall j: Job :: Waiting(Apply(s, Cancel(device)), j) <==>
              Waiting(s, j) && device.Some? && j.device != device.value
    ensures forall j: Job :: Waiting(s, j) && !Waiting(Apply(s, Cancel(device)), j) ==>
              IsTold(Apply(s, Cancel(device)), j, Cancelled)
  {
    var who := OfDevice(device);
    assert forall j: Job :: who(j) <==> device.None? || j.device == device.value;
    TakenOutRequeues(s, who, Cancelled);
    TakenOutTells(s, who, Cancelled);
    SameLanesWait(TakenOut(s, who, Cancelled), Apply(s, Cancel(device)));
  }

  /** Closing takes away everything but the reverts, stopping takes away those too. */
  lemma CloseTakes(s: State)
    requires Inv(s)
    ensures forall j: Job :: Waiting(Apply(s, Close), j) <==> Waiting(s, j) && j.kind == Revert
    ensures forall j: Job :: Waiting(s, j) && j.kind != Revert ==> IsTold(Apply(s, Close), j, Cancelled)
    ensures Apply(s, Close).closing
  {
    var who := (j: Job) => j.kind != Revert;
    TakenOutRequeues(s, who, Cancelled);
    TakenOutTells(s, who, Cancelled);
    SameLanesWait(TakenOut(s, who, Cancelled), Apply(s, Close));
  }

  lemma EndStopTakes(s: State)
    requires Inv(s) && s.stopping
    ensures forall j: Job :: !Waiting(Apply(s, EndStop), j)
    ensures forall j: Job :: Waiting(s, j) ==> IsTold(Apply(s, EndStop), j, Cancelled)
    ensures Apply(s, EndStop).stopped
  {
    TakenOutRequeues(s, Anyone, Cancelled);
    TakenOutTells(s, Anyone, Cancelled);
    SameLanesWait(TakenOut(s, Anyone, Cancelled), Apply(s, EndStop));
  }

  lemma WithdrawTakes(s: State, job: Job)
    requires Inv(s) && Enabled(s, Withdraw(job))
    ensures forall j: Job :: Waiting(Apply(s, Withdraw(job)), j) <==> Waiting(s, j) && j != job
    ensures Waiting(s, job) ==> IsTold(Apply(s, Withdraw(job)), job, Withdrawn)
  {
    var who := (j: Job) => j == job;
    TakenOutRequeues(s, who, Withdrawn);
    TakenOutTells(s, who, Withdrawn);
    SameLanesWait(TakenOut(s, who, Withdrawn), Apply(s, Withdraw(job)));
  }

  predicate IsTold(s: State, j: Job, why: Outcome) {
    j.id in s.leaving && s.leaving[j.id] == why
  }

  lemma SameLanesWait(s: State, s': State)
    requires s'.lanes == s.lanes
    ensures forall j: Job :: Waiting(s', j) == Waiting(s, j)
  {
  }

  lemma TakenOutTells(s: State, who: Job -> bool, why: Outcome)
    requires Inv(s)
    ensures forall j: Job :: Waiting(s, j) && who(j) ==> IsTold(TakenOut(s, who, why), j, why)
  {
    InvKnownOf(s);
    GoneAre(s, who);
    forall j: Job | Waiting(s, j) && who(j) ensures IsTold(TakenOut(s, who, why), j, why) {
      assert j in GoneJobs(s, who) && KnownOf(s, j);
    }
  }
}
