/** What holds in every state the dispatcher can reach, whatever the callers,
    the lanes' threads and the clock do. */
module DispatchRuns {
  import opened Prelude
  import opened LaneModel
  import opened DispatchModel

  /** A job is told its outcome: it leaves its run, or what was leaving. */
  ghost predicate MayTell(s: State, id: nat, why: Outcome) {
    && id in s.known && id !in s.done
    && (if id in s.leaving then !why.Ran? && !why.Expired?
        else InRun(s, s.known[id]) && why.Ran? == !s.lanes[s.known[id].lane].running.value.expired)
  }

  lemma CompletedMoves(s: State, id: nat, why: Outcome)
    requires id !in s.done
    ensures var s' := Completed(s.(leaving := s.leaving - {id}), id, why);
            && (forall j: Job :: Waiting(s', j) <==> Waiting(s, j))
            && (forall j: Job :: InRun(s', j) <==> InRun(s, j) && j.id != id)
  {
  }

  lemma CompletedPlaced(s: State, id: nat, why: Outcome)
    requires Placed(s) && Tracked(s) && Told(s) && MayTell(s, id, why)
    ensures var s' := Completed(s.(leaving := s.leaving - {id}), id, why);
            Placed(s') && Tracked(s') && Told(s')
  {
    var s' := Completed(s.(leaving := s.leaving - {id}), id, why);
    CompletedMoves(s, id, why);
    forall x | x in s'.known ensures s'.known[x].id == x && InOnePlace(s', s'.known[x]) {
      assert InOnePlace(s, s.known[x]) && InOnePlace(s, s.known[id]);
    }
  }

  lemma CompletedHistory(s: State, id: nat, why: Outcome)
    requires Placed(s) && Tracked(s) && Told(s) && HistoryOk(s) && MayTell(s, id, why)
    ensures var s' := Completed(s.(leaving := s.leaving - {id}), id, why);
            HistoryOk(s')
  {
    var s' := Completed(s.(leaving := s.leaving - {id}), id, why);
    forall i | 0 <= i < |s.starts| ensures StartedOk(s', s'.starts[i]) {
      CompletedStart(s, id, why, s.starts[i]);
    }
  }

  lemma CompletedStart(s: State, id: nat, why: Outcome, st: Start)
    requires Placed(s) && s.deadline.Keys == s.known.Keys && StartedOk(s, st) && MayTell(s, id, why)
    ensures StartedOk(Completed(s.(leaving := s.leaving - {id}), id, why), st)
  {
    assert InOnePlace(s, s.known[id]);
    assert st.job.id == id ==> st.job == s.known[id];
  }

  lemma CompletedKeeps(s: State, id: nat, why: Outcome)
    requires Inv(s) && MayTell(s, id, why)
    ensures Inv(Completed(s.(leaving := s.leaving - {id}), id, why))
  {
    CompletedPlaced(s, id, why);
    CompletedHistory(s, id, why);
  }

  /** A step that moves no job: flags, the clock, a lane that is free or ends. */
  lemma QuietKeeps(s: State, s': State)
    requires Inv(s) && LanesOk(s')
    requires s' == s.(lanes := s'.lanes, now := s'.now, closing := s'.closing, stopping := s'.stopping, stopped := s'.stopped)
    requires forall j: Job :: Waiting(s', j) <==> Waiting(s, j)
    requires forall j: Job :: InRun(s', j) <==> InRun(s, j)
    requires forall k :: k in s'.lanes && s'.lanes[k].running.Some? ==> k in s.lanes && s'.lanes[k].running == s.lanes[k].running
    requires s'.closing ==> forall j: Job :: Waiting(s, j) ==> j.kind == Revert
    requires s'.stopped ==> s'.stopping && forall j: Job :: !Waiting(s, j)
    ensures Inv(s')
  {
    forall i | 0 <= i < |s.starts| ensures StartedOk(s', s'.starts[i]) {
      QuietStart(s, s', s.starts[i]);
    }
    assert Placed(s');
    assert Tracked(s');
  }

  lemma QuietStart(s: State, s': State, st: Start)
    requires s.deadline.Keys == s.known.Keys && StartedOk(s, st)
    requires s'.known == s.known && s'.deadline == s.deadline && s'.done == s.done
    requires forall j: Job :: InRun(s', j) <==> InRun(s, j)
    requires forall k :: k in s'.lanes && s'.lanes[k].running.Some? ==> k in s.lanes && s'.lanes[k].running == s.lanes[k].running
    ensures StartedOk(s', st)
  {
  }

  lemma FreeMoves(s: State, key: Name)
    requires Enabled(s, Free(key))
    ensures var s' := Apply(s, Free(key));
            && (forall j: Job :: Waiting(s', j) <==> Waiting(s, j))
            && (forall j: Job :: InRun(s', j) <==> InRun(s, j))
  {
    var s' := Apply(s, Free(key));
    assert s'.lanes.Keys == s.lanes.Keys;
    assert forall k :: k in s.lanes ==> s'.lanes[k].view == s.lanes[k].view;
  }

  lemma IdleEndMoves(s: State, key: Name)
    requires Enabled(s, IdleEnd(key))
    ensures var s' := Apply(s, IdleEnd(key));
            && (forall j: Job :: Waiting(s', j) <==> Waiting(s, j))
            && (forall j: Job :: InRun(s', j) <==> InRun(s, j))
  {
    var view := s.lanes[key].view;
    assert view.pending == map[] && view.urgent == [];
    assert forall j: Job :: !Waits(view, j);
  }

  lemma FreeKeeps(s: State, key: Name)
    requires Inv(s) && Enabled(s, Free(key))
    ensures Inv(Apply(s, Free(key)))
  {
    FreeMoves(s, key);
    LanesStay(s, Apply(s, Free(key)));
    QuietKeeps(s, Apply(s, Free(key)));
  }

  lemma IdleEndKeeps(s: State, key: Name)
    requires Inv(s) && Enabled(s, IdleEnd(key))
    ensures Inv(Apply(s, IdleEnd(key)))
  {
    IdleEndMoves(s, key);
    LanesStay(s, Apply(s, IdleEnd(key)));
    QuietKeeps(s, Apply(s, IdleEnd(key)));
  }

  lemma LanesStay(s: State, s': State)
    requires LanesOk(s) && s'.cap == s.cap
    requires forall k :: k in s'.lanes ==>
      (k in s.lanes && s'.lanes[k].view == s.lanes[k].view && s'.lanes[k].thread == s.lanes[k].thread
       && (s'.lanes[k].running.Some? ==> s'.lanes[k].running == s.lanes[k].running))
    ensures LanesOk(s')
  {
  }

  lemma CloseKeeps(s: State)
    requires Inv(s)
    ensures Inv(Apply(s, Close))
  {
    var who := (j: Job) => j.kind != Revert;
    TakenOutKeeps(s, who, Cancelled);
    TakenOutRequeues(s, who, Cancelled);
    QuietKeeps(TakenOut(s, who, Cancelled), Apply(s, Close));
  }

  lemma EndStopKeeps(s: State)
    requires Inv(s) && s.stopping
    ensures Inv(Apply(s, EndStop))
  {
    var who := Anyone;
    TakenOutKeeps(s, who, Cancelled);
    TakenOutRequeues(s, who, Cancelled);
    QuietKeeps(TakenOut(s, who, Cancelled), Apply(s, EndStop));
  }

  lemma FinishKeeps(s: State, key: Name, code: int)
    requires Inv(s) && Enabled(s, Finish(key, code))
    ensures Inv(Apply(s, Finish(key, code)))
  {
    var r := s.lanes[key].running.value;
    assert InOnePlace(s, s.known[r.job.id]);
    assert s.leaving - {r.job.id} == s.leaving;
    CompletedKeeps(s, r.job.id, if r.expired then Expired else Ran(code));
  }

  lemma TellKeeps(s: State, id: nat)
    requires Inv(s) && Enabled(s, Tell(id))
    ensures Inv(Apply(s, Tell(id)))
  {
    assert InOnePlace(s, s.known[id]);
    CompletedKeeps(s, id, s.leaving[id]);
  }

  lemma StepKeeps(s: State, e: Event)
    requires Inv(s) && Enabled(s, e)
    ensures Inv(Apply(s, e))
  {
    match e
    case Submit(job) => SubmitKeeps(s, job);
    case Tell(id) => TellKeeps(s, id);
    case Withdraw(job) => TakenOutKeeps(s, j => j == job, Withdrawn);
    case Cancel(device) => TakenOutKeeps(s, OfDevice(device), Cancelled);
    case Close => CloseKeeps(s);
    case BeginStop => QuietKeeps(s, Apply(s, e));
    case EndStop => EndStopKeeps(s);
    case Pick(key) => PickKeeps(s, key);
    case Finish(key, code) => FinishKeeps(s, key, code);
    case Free(key) => FreeKeeps(s, key);
    case IdleEnd(key) => IdleEndKeeps(s, key);
    case Tick(dt) => QuietKeeps(s, Apply(s, e));
  }

  function Step(m: Option<State>, e: Event): Option<State> {
    if m.Some? && Enabled(m.value, e) then Some(Apply(m.value, e)) else None
  }

  /** The state a sequence of events leads to, if each is enabled in its turn. */
  function Run(s0: State, events: seq<Event>): Option<State> {
    if events == [] then Some(s0) else Step(Run(s0, events[..|events| - 1]), events[|events| - 1])
  }

  lemma {:induction false} RunKeeps(s0: State, events: seq<Event>)
    requires Inv(s0) && Run(s0, events).Some?
    ensures Inv(Run(s0, events).value)
  {
    if events != [] {
      RunKeeps(s0, events[..|events| - 1]);
      StepKeeps(Run(s0, events[..|events| - 1]).value, events[|events| - 1]);
    }
  }

  // ---- a verdict of a run is given only to a job that started ----

  ghost predicate HasStarted(s: State, id: nat) {
    exists i :: 0 <= i < |s.starts| && s.starts[i].job.id == id
  }

  ghost predicate RanStarted(s: State) {
    && (forall id :: id in s.done && s.done[id].Ran? ==> HasStarted(s, id))
    && (forall id :: id in s.leaving ==> !s.leaving[id].Ran?)
    && (forall k :: k in s.lanes && s.lanes[k].running.Some? && !s.lanes[k].running.value.expired ==>
          HasStarted(s, s.lanes[k].running.value.job.id))
  }

  lemma StepRanStarted(s: State, e: Event)
    requires RanStarted(s) && Enabled(s, e)
    ensures RanStarted(Apply(s, e))
  {
    match e {
      case Pick(key) =>
        var p := Next(s.lanes[key].view);
        if p.job.Some? { TakenRanStarted(s, key, p.lane, p.job.value); }
      case Submit(job) => AdmittedRanStarted(s, job, Admit(LaneOf(s, job.lane).view, job, s.cap));
      case Close => TakenOutRanStarted(s, (j: Job) => j.kind != Revert, Cancelled);
      case Cancel(device) => TakenOutRanStarted(s, OfDevice(device), Cancelled);
      case Withdraw(job) => TakenOutRanStarted(s, j => j == job, Withdrawn);
      case EndStop => TakenOutRanStarted(s, Anyone, Cancelled);
      case Tell(id) => ToldRanStarted(s, id, s.leaving[id]);
      case Finish(key, code) => FinishRanStarted(s, key, code);
      case _ => KeepRanStarted(s, Apply(s, e));
    }
  }

  lemma ToldRanStarted(s: State, id: nat, why: Outcome)
    requires RanStarted(s) && (why.Ran? ==> HasStarted(s, id))
    ensures RanStarted(Completed(s.(leaving := s.leaving - {id}), id, why))
  {
    SameStarts(s, Completed(s.(leaving := s.leaving - {id}), id, why));
  }

  lemma FinishRanStarted(s: State, key: Name, code: int)
    requires RanStarted(s) && Enabled(s, Finish(key, code))
    ensures RanStarted(Apply(s, Finish(key, code)))
  {
    SameStarts(s, Apply(s, Finish(key, code)));
  }

  lemma AdmittedRanStarted(s: State, job: Job, a: Admitted)
    requires RanStarted(s) && (a.told.Some? ==> !a.told.value.1.Ran?)
    ensures RanStarted(WithAdmitted(Registered(s, job), job, a))
    ensures RanStarted(Registered(s, job).(leaving := s.leaving[job.id := Stopping]))
  {
    KeepRanStarted(s, WithAdmitted(Registered(s, job), job, a));
    KeepRanStarted(s, Registered(s, job).(leaving := s.leaving[job.id := Stopping]));
  }

  lemma SameStarts(s: State, s': State)
    requires s.starts == s'.starts
    ensures forall id :: HasStarted(s, id) <==> HasStarted(s', id)
  {
  }

  /** Only a pick writes the history of starts, only a completion the outcomes. */
  lemma KeepRanStarted(s: State, s': State)
    requires RanStarted(s) && s'.starts == s.starts && s'.done == s.done
    requires forall id :: id in s'.leaving ==> (id in s.leaving && s'.leaving[id] == s.leaving[id]) || !s'.leaving[id].Ran?
    requires forall k :: k in s'.lanes && s'.lanes[k].running.Some? ==> k in s.lanes && s'.lanes[k].running == s.lanes[k].running
    ensures RanStarted(s')
  {
    SameStarts(s, s');
  }

  lemma TakenOutRanStarted(s: State, who: Job -> bool, why: Outcome)
    requires RanStarted(s) && !why.Ran?
    ensures RanStarted(TakenOut(s, who, why))
  {
    SameStarts(s, TakenOut(s, who, why));
  }

  lemma TakenRanStarted(s: State, key: Name, view: LaneView, job: Job)
    requires RanStarted(s) && key in s.lanes
    ensures RanStarted(Taken(s, key, view, job))
  {
    var s' := Taken(s, key, view, job);
    forall id | HasStarted(s, id) ensures HasStarted(s', id) {
      var i :| 0 <= i < |s.starts| && s.starts[i].job.id == id;
      assert s'.starts[i] == s.starts[i];
    }
    assert !Late(s, job) ==> s'.starts[|s.starts|].job == job;
  }

  lemma {:induction false} RunRanStarted(s0: State, events: seq<Event>)
    requires RanStarted(s0) && Run(s0, events).Some?
    ensures RanStarted(Run(s0, events).value)
  {
    if events != [] {
      RunRanStarted(s0, events[..|events| - 1]);
      StepRanStarted(Run(s0, events[..|events| - 1]).value, events[|events| - 1]);
    }
  }

  // ---- the theorems ----

  /** A state the dispatcher can be in: what some run from its start leads to. */
  ghost predicate Reached(cap: nat, t0: real, events: seq<Event>, s: State) {
    Run(Init(cap, t0), events) == Some(s)
  }

  lemma ReachedInv(cap: nat, t0: real, events: seq<Event>, s: State)
    requires Reached(cap, t0, events, s)
    ensures Inv(s) && RanStarted(s) && s.cap == cap
  {
    InitInv(cap, t0);
    RunKeeps(Init(cap, t0), events);
    RunRanStarted(Init(cap, t0), events);
    RunCap(Init(cap, t0), events);
  }

  /** Conservation: every submitted job is waiting, running, on its way out or
      told, never in two of these, and is told once. */
  lemma EveryJobIsInOnePlace(cap: nat, t0: real, events: seq<Event>, s: State)
    requires Reached(cap, t0, events, s)
    ensures forall id :: id in s.known ==> InOnePlace(s, s.known[id])
    ensures forall j: Job :: Waiting(s, j) || InRun(s, j) ==> j.id in s.known && s.known[j.id] == j
    ensures NoDup(s.told) && forall id :: id in s.told <==> id in s.done
  {
    ReachedInv(cap, t0, events, s);
  }

  /** A job starts at most once, by its deadline, and is told a run's verdict
      exactly when it started: one that was superseded, withdrawn, cancelled,
      refused or expired never ran. After close() only reverts start, after
      stop() returned nothing does. */
  lemma OnlyTheRightJobsStart(cap: nat, t0: real, events: seq<Event>, s: State)
    requires Reached(cap, t0, events, s)
    ensures forall i, k :: 0 <= i < k < |s.starts| ==> s.starts[i].job != s.starts[k].job
    ensures forall id :: id in s.done ==> (s.done[id].Ran? <==> HasStarted(s, id))
    ensures forall i :: 0 <= i < |s.starts| ==>
              var st := s.starts[i];
              && (st.job.id in s.deadline && s.deadline[st.job.id].Some? ==> st.at <= s.deadline[st.job.id].value)
              && (st.closing ==> st.job.kind == Revert) && !st.stopped
  {
    ReachedInv(cap, t0, events, s);
    forall id | id in s.done && HasStarted(s, id) ensures s.done[id].Ran? {
      var i :| 0 <= i < |s.starts| && s.starts[i].job.id == id;
      assert StartedOk(s, s.starts[i]);
    }
  }

  /** One wire, one command: two jobs of one lane that started and are not told
      yet are one job. */
  lemma OneRunPerLane(cap: nat, t0: real, events: seq<Event>, s: State, i: nat, k: nat)
    requires Reached(cap, t0, events, s)
    requires i < |s.starts| && k < |s.starts| && s.starts[i].job.lane == s.starts[k].job.lane
    requires s.starts[i].job.id !in s.done && s.starts[k].job.id !in s.done
    ensures i == k
  {
    ReachedInv(cap, t0, events, s);
    assert StartedOk(s, s.starts[i]) && StartedOk(s, s.starts[k]);
  }

  /** The steps a lane and its callers take to end the jobs they have. */
  predicate Serves(e: Event) {
    e.Tell? || e.Pick? || e.Finish? || e.Free?
  }

  ghost function Undone(s: State): set<nat> { s.known.Keys - s.done.Keys }
  ghost function Queued(s: State): set<nat> { set id | id in s.known && Waiting(s, s.known[id]) }
  ghost function Busy(s: State): set<Name> { set k | k in s.lanes && s.lanes[k].running.Some? }

  /** The serving steps still to come: each job not told is told once, each that
      waits is picked and its lane freed, each busy lane is freed. */
  ghost function Weight(s: State): nat {
    |Undone(s)| + 2 * |Queued(s)| + |Busy(s)|
  }

  lemma OneLess<T>(less: set<T>, more: set<T>, x: T)
    requires x in more && less == more - {x}
    ensures |less| == |more| - 1
  {
  }

  lemma SameQueued(s: State, s': State)
    requires s'.known == s.known && forall j: Job :: Waiting(s', j) <==> Waiting(s, j)
    ensures Queued(s') == Queued(s)
  {
  }

  lemma TellCosts(s: State, s': State, id: nat)
    requires id in s.known && id !in s.done
    requires s'.lanes == s.lanes && s'.known == s.known && s'.done.Keys == s.done.Keys + {id}
    ensures Weight(s') == Weight(s) - 1
  {
    SameLanes(s, s');
    OneLess(Undone(s'), Undone(s), id);
  }

  lemma SameLanes(s: State, s': State)
    requires s'.lanes == s.lanes && s'.known == s.known
    ensures |Queued(s')| == |Queued(s)| && |Busy(s')| == |Busy(s)|
  {
    SameQueued(s, s');
    assert Busy(s') == Busy(s);
  }

  /** The job at `key` went from waiting to running. */
  ghost predicate StartsRun(s: State, s': State, key: Name, job: Job) {
    && s'.known == s.known && s'.done == s.done && s'.lanes.Keys == s.lanes.Keys
    && key in s.lanes && s.lanes[key].running.None? && s'.lanes[key].running.Some?
    && (forall k :: k in s.lanes && k != key ==> s'.lanes[k].running == s.lanes[k].running)
    && job.id in s.known && s.known[job.id] == job && Waiting(s, job)
    && (forall j: Job :: Waiting(s', j) <==> Waiting(s, j) && j != job)
  }

  lemma StartCosts(s: State, s': State, key: Name, job: Job)
    requires StartsRun(s, s', key, job) && forall id :: id in s.known ==> s.known[id].id == id
    ensures Weight(s') == Weight(s) - 1
  {
    assert Undone(s') == Undone(s);
    OneLess(Queued(s'), Queued(s), job.id);
    assert Busy(s) == Busy(s') - {key} && key in Busy(s');
    OneLess(Busy(s), Busy(s'), key);
  }

  lemma PickStarts(s: State, key: Name) returns (job: Job)
    requires Inv(s) && Enabled(s, Pick(key))
    ensures StartsRun(s, PickedFrom(s, key), key, job)
  {
    var view := s.lanes[key].view;
    NextTakes(view, key);
    job := Next(view).job.value;
    WaitsHere(view, key, job);
    TakenPlaced(s, key, Next(view).lane, job);
    TakenMoves(s, key, Next(view).lane, job);
    TakenCap(s, key, Next(view).lane, job);
    TakenRuns(s, key, Next(view).lane, job);
  }

  lemma TakenRuns(s: State, key: Name, view: LaneView, job: Job)
    requires key in s.lanes
    ensures var s' := Taken(s, key, view, job);
            && s'.done == s.done && s'.lanes.Keys == s.lanes.Keys && s'.lanes[key].running.Some?
            && forall k :: k in s.lanes && k != key ==> s'.lanes[k].running == s.lanes[k].running
  {
    assert Taken(s, key, view, job).lanes.Keys == s.lanes.Keys + {key} == s.lanes.Keys;
  }

  lemma FreeCosts(s: State, key: Name)
    requires Enabled(s, Free(key))
    ensures Weight(Apply(s, Free(key))) == Weight(s) - 1
  {
    FreeMoves(s, key);
    var s' := Apply(s, Free(key));
    SameQueued(s, s');
    FreedLane(s, s', key);
  }

  lemma FreedLane(s: State, s': State, key: Name)
    requires key in s.lanes && s.lanes[key].running.Some?
    requires s'.lanes == s.lanes[key := s.lanes[key].(running := None)]
    ensures |Busy(s')| == |Busy(s)| - 1
  {
    assert s'.lanes.Keys == s.lanes.Keys + {key};
    OneLess(Busy(s'), Busy(s), key);
  }

  lemma FinishCosts(s: State, key: Name, code: int)
    requires Inv(s) && Enabled(s, Finish(key, code))
    ensures Weight(Apply(s, Finish(key, code))) == Weight(s) - 1
  {
    TellCosts(s, Apply(s, Finish(key, code)), s.lanes[key].running.value.job.id);
  }

  /** Every serving step costs one. */
  lemma ServingCosts(s: State, e: Event)
    requires Inv(s) && Enabled(s, e) && Serves(e)
    ensures Weight(Apply(s, e)) == Weight(s) - 1
  {
    match e {
      case Tell(id) =>
        assert InOnePlace(s, s.known[id]);
        TellCosts(s, Apply(s, e), id);
      case Finish(key, code) => FinishCosts(s, key, code);
      case Free(key) => FreeCosts(s, key);
      case Pick(key) =>
        var job := PickStarts(s, key);
        StartCosts(s, Apply(s, e), key, job);
    }
  }

  /** While a job is not told, some serving step is enabled. */
  lemma ServingGoesOn(s: State, id: nat) returns (e: Event)
    requires Inv(s) && id in s.known && id !in s.done
    ensures Serves(e) && Enabled(s, e)
  {
    var j := s.known[id];
    assert InOnePlace(s, j);
    if id in s.leaving {
      e := Tell(id);
    } else {
      var lane := s.lanes[j.lane];
      assert Waits(lane.view, j) ==> HasJobs(lane.view);
      e := if lane.running.None? then Pick(j.lane)
           else if lane.running.value.job.id in s.done then Free(j.lane) else Finish(j.lane, 0);
    }
  }

  /** Nothing is left for a lane or a caller to do. */
  ghost predicate Idle(s: State) {
    forall e :: Serves(e) ==> !Enabled(s, e)
  }

  lemma IdleTold(s: State)
    requires Inv(s) && Idle(s)
    ensures forall id :: id in s.known ==> id in s.done
  {
    forall id | id in s.known ensures id in s.done {
      if id !in s.done {
        var e := ServingGoesOn(s, id);
      }
    }
  }

  lemma IdleFree(s: State)
    requires Idle(s) && forall k :: k in s.lanes ==> (HasJobs(s.lanes[k].view) ==> s.lanes[k].thread)
    ensures forall k :: k in s.lanes ==> s.lanes[k].running.None?
    ensures forall j: Job :: !Waiting(s, j)
  {
    forall k | k in s.lanes ensures s.lanes[k].running.None? {
      assert !Enabled(s, Free(k)) && !Enabled(s, Finish(k, 0));
    }
    forall j: Job ensures !Waiting(s, j) {
      assert !Enabled(s, Pick(j.lane));
      if Waiting(s, j) {
        assert HasJobs(s.lanes[j.lane].view);
      }
    }
  }

  /** That is when nothing waits or runs and every job is told. */
  lemma IdleIsDone(s: State)
    requires Inv(s)
    ensures Idle(s) <==> Weight(s) == 0
  {
    if Idle(s) {
      IdleTold(s);
      IdleFree(s);
      assert Undone(s) == {} && Queued(s) == {} && Busy(s) == {};
    } else {
      var e :| Serves(e) && Enabled(s, e);
      ServingCosts(s, e);
    }
  }

  /** A run of serving steps has one step for each unit of weight it removes. */
  lemma {:induction false} ServingRunCosts(s: State, events: seq<Event>)
    requires Inv(s) && Run(s, events).Some? && forall e :: e in events ==> Serves(e)
    ensures var t := Run(s, events).value;
            Inv(t) && t.known == s.known && |events| + Weight(t) == Weight(s)
  {
    if events != [] {
      var n := |events| - 1;
      ServingRunCosts(s, events[..n]);
      var t, e := Run(s, events[..n]).value, events[n];
      ServingCosts(t, e);
      StepKeeps(t, e);
      StepCap(t, e);
    }
  }

  /** However the lanes and callers take turns, serving comes to its end after
      exactly so many steps as there were to come, and then every job is told:
      no lane ends with a job waiting, no job is stranded. */
  lemma EveryJobIsTold(s: State, events: seq<Event>)
    requires Inv(s) && Run(s, events).Some? && forall e :: e in events ==> Serves(e)
    ensures |events| <= Weight(s)
    ensures var t := Run(s, events).value;
            && (Idle(t) <==> |events| == Weight(s))
            && (Idle(t) ==> forall id :: id in s.known ==> id in t.done)
  {
    ServingRunCosts(s, events);
    var t := Run(s, events).value;
    IdleIsDone(t);
    if Idle(t) {
      IdleTold(t);
    }
  }

  /** And every run of serving steps can be carried on to that end. */
  lemma {:induction false} ServingEnds(s: State, events: seq<Event>) returns (rest: seq<Event>)
    requires Inv(s) && Run(s, events).Some? && forall e :: e in events ==> Serves(e)
    ensures forall e :: e in rest ==> Serves(e)
    ensures events <= rest && Run(s, rest).Some? && Idle(Run(s, rest).value)
    decreases Weight(s) - |events|
  {
    EveryJobIsTold(s, events);
    var t := Run(s, events).value;
    if Idle(t) {
      rest := events;
    } else {
      var e :| Serves(e) && Enabled(t, e);
      OneMoreServes(s, events, e);
      rest := ServingEnds(s, events + [e]);
    }
  }

  lemma OneMoreServes(s: State, events: seq<Event>, e: Event)
    requires Inv(s) && Run(s, events).Some? && (forall e :: e in events ==> Serves(e))
    requires Serves(e) && Enabled(Run(s, events).value, e)
    ensures Run(s, events + [e]).Some? && (forall e' :: e' in events + [e] ==> Serves(e'))
    ensures |events + [e]| <= Weight(s)
  {
    RunLast(s, events, e);
    EveryJobIsTold(s, events + [e]);
  }

  /** So wherever a run got to, serving on in any order leaves no submitted job
      untold. */
  lemma NoJobIsStranded(cap: nat, t0: real, events: seq<Event>, s: State, rest: seq<Event>)
    requires Reached(cap, t0, events, s)
    requires Run(s, rest).Some? && forall e :: e in rest ==> Serves(e)
    ensures |rest| <= 3 * |s.known| + |s.lanes|
    ensures Idle(Run(s, rest).value) ==> forall id :: id in s.known ==> id in Run(s, rest).value.done
  {
    ReachedInv(cap, t0, events, s);
    EveryJobIsTold(s, rest);
    Fewer(Undone(s), s.known.Keys);
    Fewer(Queued(s), s.known.Keys);
    Fewer(Busy(s), s.lanes.Keys);
  }

  lemma {:induction false} Fewer<T>(a: set<T>, b: set<T>)
    requires a <= b
    ensures |a| <= |b|
  {
    if a != {} {
      var x :| x in a;
      Fewer(a - {x}, b - {x});
    }
  }

  lemma RunLast(s: State, events: seq<Event>, e: Event)
    ensures Run(s, events + [e]) == Step(Run(s, events), e)
  {
    assert (events + [e])[..|events|] == events;
  }

  /** A lane with waiting jobs has its thread, and no slot is over its cap. */
  lemma LanesAreServed(cap: nat, t0: real, events: seq<Event>, s: State)
    requires Reached(cap, t0, events, s)
    ensures forall k :: k in s.lanes ==>
              (HasJobs(s.lanes[k].view) ==> s.lanes[k].thread) && SlotsWithin(s.lanes[k].view, cap)
  {
    ReachedInv(cap, t0, events, s);
  }

  lemma StepCap(s: State, e: Event)
    requires Enabled(s, e)
    ensures Apply(s, e).cap == s.cap && (Serves(e) ==> Apply(s, e).known == s.known)
  {
    match e
    case Submit(job) => AdmitCap(s, job, Admit(LaneOf(s, job.lane).view, job, s.cap));
    case Pick(key) => PickCap(s, key);
    case _ =>
  }

  lemma PickCap(s: State, key: Name)
    requires key in s.lanes
    ensures PickedFrom(s, key).cap == s.cap && PickedFrom(s, key).known == s.known
  {
    var p := Next(s.lanes[key].view);
    if p.job.Some? {
      TakenCap(s, key, p.lane, p.job.value);
    }
  }

  lemma TakenCap(s: State, key: Name, view: LaneView, job: Job)
    requires key in s.lanes
    ensures Taken(s, key, view, job).cap == s.cap && Taken(s, key, view, job).known == s.known
  {
  }

  lemma AdmitCap(s: State, job: Job, a: Admitted)
    ensures WithAdmitted(Registered(s, job), job, a).cap == s.cap
  {
  }

  lemma {:induction false} RunCap(s0: State, events: seq<Event>)
    requires Run(s0, events).Some?
    ensures Run(s0, events).value.cap == s0.cap
  {
    if events != [] {
      RunCap(s0, events[..|events| - 1]);
      StepCap(Run(s0, events[..|events| - 1]).value, events[|events| - 1]);
    }
  }
}
