/** The dispatcher object. Each method is one section the source runs under
    its lock, or one completion, and is proved to be one step of the model. */
module DispatcherObject {
  import opened Prelude
  import opened LaneModel
  import opened LaneObject
  import M = DispatchModel
  import R = DispatchRuns

  class CommandDispatcher {
    const slotCap: nat
    var lanes: map<Name, Lane>
    var deadline: map<nat, Option<real>>
    var result: map<nat, Outcome>      // the outcome of every job that is done
    var leaving: map<nat, Outcome>     // taken out under the lock, told after it
    var clock: real
    var closing: bool
    var stopFlag: bool
    ghost var known: map<nat, Job>
    ghost var told: seq<nat>
    ghost var starts: seq<M.Start>
    ghost var stopped: bool

    ghost function LaneStates(): map<Name, LaneState>
      reads this`lanes, lanes.Values
    {
      map k | k in lanes :: lanes[k].State()
    }

    ghost function View(): M.State
      reads this, lanes.Values
    {
      M.State(slotCap, LaneStates(), known, deadline, leaving, result, told, starts,
              clock, closing, stopFlag, stopped)
    }

    /** The lanes are separate objects, each under its own key. */
    ghost predicate Separate()
      reads this, lanes.Values
    {
      forall k :: k in lanes ==> lanes[k].key == k
    }

    constructor (slotCap: nat, now: real)
      ensures Separate() && View() == M.Init(slotCap, now)
    {
      this.slotCap := slotCap;
      lanes, deadline, result, leaving, clock := map[], map[], map[], map[], now;
      closing, stopFlag, known, told, starts, stopped := false, false, map[], [], [], false;
    }

    /** The lane of a key, made on demand. */
    method LaneFor(key: Name) returns (lane: Lane)
      requires Separate()
      modifies this`lanes
      ensures Separate() && lanes == old(lanes)[key := lane]
      ensures key in old(lanes) ==> lane == old(lanes)[key]
      ensures key !in old(lanes) ==> fresh(lane)
      ensures lane.State() == old(LaneOrNew(key))
      ensures forall k :: k in old(lanes) ==> LaneOrNew(k) == old(LaneOrNew(k))
    {
      if key !in lanes {
        var made := new Lane(key);
        lanes := lanes[key := made];
      }
      lane := lanes[key];
    }

    ghost function LaneOrNew(key: Name): LaneState
      reads this`lanes, lanes.Values
    {
      if key in lanes then lanes[key].State() else LaneState(EMPTY_LANE, None, false)
    }

    /** A job is placed in its lane, whose thread serves it; what it replaces,
        or the job itself when it is refused, is told outside the lock. */
    method Enqueue(job: Job) returns (back: Option<(Job, Outcome)>)
      requires Separate()
      modifies this`lanes, this`leaving, lanes.Values
      ensures Separate() && lanes.Keys == old(lanes.Keys) + {job.lane}
      ensures Admitted(lanes[job.lane].View(), back) == Admit(old(LaneOrNew(job.lane)).view, job, slotCap)
      ensures lanes[job.lane].State() ==
              LaneState(lanes[job.lane].View(), old(LaneOrNew(job.lane)).running,
                          old(LaneOrNew(job.lane)).thread || !(back.Some? && back.value.0 == job))
      ensures forall k :: k in lanes && k != job.lane ==> k in old(lanes) && lanes[k].State() == old(LaneOrNew(k))
      ensures leaving == if back.Some? then old(leaving)[back.value.0.id := back.value.1] else old(leaving)
    {
      var lane := LaneFor(job.lane);
      assert forall k :: k in lanes && k != job.lane ==> lanes[k] != lane;
      back := PlaceIn(lane, job);
      if back.Some? {
        leaving := leaving[back.value.0.id := back.value.1];
      }
    }

    /** The lane admits the job, and has its thread unless it refused it. */
    method PlaceIn(lane: Lane, job: Job) returns (back: Option<(Job, Outcome)>)
      modifies lane
      ensures Admitted(lane.View(), back) == Admit(old(lane.View()), job, slotCap)
      ensures lane.State() ==
              LaneState(lane.View(), old(lane.running), old(lane.hasThread) || !(back.Some? && back.value.0 == job))
    {
      back := lane.Place(job, slotCap);
      if back == None || back.value.0 != job {
        lane.hasThread := true;
      }
    }

    /** The job is known, and has its deadline. */
    method Register(job: Job)
      requires Separate()
      modifies this`deadline, this`known
      ensures Separate() && View() == M.Registered(old(View()), job)
    {
      deadline := deadline[job.id := if job.kind != Revert && job.maxAge.Some? && job.maxAge.value != 0.0
                                     then Some(clock + job.maxAge.value) else None];
      known := known[job.id := job];
      assert LaneStates() == old(LaneStates());
    }

    method Refuse(job: Job)
      requires Separate()
      modifies this`leaving
      ensures Separate() && View() == old(View()).(leaving := old(leaving)[job.id := Stopping])
    {
      leaving := leaving[job.id := Stopping];
      assert LaneStates() == old(LaneStates());
    }

    method Admit1(job: Job)
      requires Separate()
      modifies this`lanes, this`leaving, lanes.Values
      ensures Separate()
      ensures View() == M.WithAdmitted(old(View()), job, Admit(old(LaneOrNew(job.lane)).view, job, slotCap))
    {
      ghost var s := View();
      var back := Enqueue(job);
      AdmittedIs(s, View(), job, lanes[job.lane].View(), back);
    }

    /** A job is handed in: refused while the gateway stops, else admitted. */
    method Submit(job: Job)
      requires Separate()
      modifies this, lanes.Values
      ensures Separate() && View() == M.Submitted(old(View()), job)
    {
      Register(job);
      if stopFlag || (closing && job.kind != Revert) {
        Refuse(job);
      } else {
        Admit1(job);
      }
    }

    /** The outcome of a job that left is recorded, and its waiters wake. */
    method Tell(id: nat)
      requires Separate() && id in leaving
      modifies this`leaving, this`result, this`told
      ensures Separate() && View() == M.Apply(old(View()), M.Tell(id))
    {
      var why := leaving[id];
      leaving := leaving - {id};
      if id !in result {
        result := result[id := why];
        told := told + [id];
      }
    }

    /** The jobs of one lane that `who` names, taken out of it. */
    method Sweep(lane: Lane, who: Job -> bool) returns (out: seq<Job>)
      requires ValidLane(lane.View(), lane.key)
      modifies lane`urgent, lane`pending, lane`order
      ensures forall j :: j in out <==> Waits(old(lane.View()), j) && who(j)
      ensures lane.View() == Drop(old(lane.View()), AsSet(out))
    {
      ghost var l := lane.View();
      var jobs := lane.Jobs();
      out := [];
      DropNone(l, lane.key);
      assert AsSet([]) == {};
      for i := 0 to |jobs|
        invariant out == Filter(jobs[..i], who)
        invariant lane.View() == Drop(l, AsSet(out))
      {
        FilterNext(jobs, i, who);
        if who(jobs[i]) {
          DropMore(l, lane.key, out, jobs[i]);
          var _ := lane.Remove(jobs[i]);
          out := out + [jobs[i]];
        }
      }
      assert jobs[..|jobs|] == jobs;
      FilterMembers(jobs, who);
    }

    /** One lane's share of taking out `gone`, the waiting jobs that `who` names. */
    method TakeFrom(lane: Lane, who: Job -> bool, ghost gone: set<Job>, ghost was: LaneState) returns (out: seq<Job>)
      requires lane.State() == was && NamedIn(was.view, lane.key, who, gone)
      modifies lane
      ensures lane.State() == Swept(was, gone)
      ensures forall j :: j in out <==> j in gone && j.lane == lane.key
    {
      ghost var l := lane.View();
      out := Sweep(lane, who);
      SweptAre(l, lane.key, AsSet(out), gone);
    }

    method TakeFromOne(k: Name, who: Job -> bool, ghost gone: set<Job>, ghost was: LaneState) returns (out: seq<Job>)
      requires Separate() && k in lanes && lanes[k].State() == was && NamedIn(was.view, k, who, gone)
      modifies lanes[k]
      ensures LaneStates() == old(LaneStates())[k := Swept(was, gone)]
      ensures forall j :: j in out <==> j in gone && j.lane == k
    {
      out := TakeFrom(lanes[k], who, gone, was);
    }

    /** The lanes one after the other. */
    method TakeFromAll(who: Job -> bool, ghost gone: set<Job>, ghost was: map<Name, LaneState>)
      returns (out: seq<Job>)
      requires Separate() && LaneStates() == was
      requires forall k :: k in was ==> NamedIn(was[k].view, k, who, gone)
      requires forall j :: j in gone ==> j.lane in was
      modifies lanes.Values
      ensures LaneStates() == SweptBut(was, {}, gone)
      ensures forall j :: j in out <==> j in gone
    {
      out := [];
      var keys := lanes.Keys;
      NoneSwept(was, gone);
      while keys != {}
        invariant keys <= lanes.Keys == was.Keys && LaneStates() == SweptBut(was, keys, gone)
        invariant forall j :: j in out <==> j in gone && j.lane !in keys
        decreases keys
      {
        var k :| k in keys;
        assert lanes[k].State() == LaneStates()[k];
        var taken := TakeFromOne(k, who, gone, was[k]);
        OneMoreSwept(was, keys, gone, k);
        out := out + taken;
        keys := keys - {k};
      }
    }

    /** Every waiting job `who` names leaves its lane, to be told once the lock is free. */
    method TakeOut(who: Job -> bool, why: Outcome)
      requires Separate() && M.LanesOk(View()) && forall j: Job :: M.KnownOf(View(), j)
      modifies this`leaving, lanes.Values
      ensures Separate() && View() == M.TakenOut(old(View()), who, why)
    {
      ghost var s := View();
      M.GoneAre(s, who);
      ghost var gone := M.GoneJobs(s, who);
      forall k | k in s.lanes ensures NamedIn(s.lanes[k].view, k, who, gone) {
        assert s.lanes[k] == lanes[k].State();
      }
      var out := TakeFromAll(who, gone, s.lanes);
      assert AsSet(out) == gone;
      RecordAll(out, why);
      TakenOutIs(s, View(), who, why);
    }

    method Cancel(device: Option<Name>)
      requires Separate() && M.LanesOk(View()) && forall j: Job :: M.KnownOf(View(), j)
      modifies this`leaving, lanes.Values
      ensures Separate() && View() == M.Apply(old(View()), M.Cancel(device))
    {
      TakeOut(M.OfDevice(device), Cancelled);
    }

    /** Shutting down: only the reverts are still taken, what else waits is cancelled. */
    method Close()
      requires Separate() && M.LanesOk(View()) && forall j: Job :: M.KnownOf(View(), j)
      modifies this`leaving, this`closing, this`stopFlag, lanes.Values
      ensures Separate() && View() == M.Apply(old(View()), M.Close)
    {
      TakeOut((j: Job) => j.kind != Revert, Cancelled);
      SetFlags(true, stopFlag);
    }

    method SetFlags(closing: bool, stopFlag: bool)
      requires Separate()
      modifies this`closing, this`stopFlag
      ensures Separate() && View() == old(View()).(closing := closing, stopping := stopFlag)
    {
      this.closing, this.stopFlag := closing, stopFlag;
      assert LaneStates() == old(LaneStates());
    }

    method BeginStop()
      requires Separate()
      modifies this`closing, this`stopFlag
      ensures Separate() && View() == M.Apply(old(View()), M.BeginStop)
    {
      SetFlags(closing, true);
    }

    method EndStop()
      requires Separate() && stopFlag && M.LanesOk(View()) && forall j: Job :: M.KnownOf(View(), j)
      modifies this`leaving, this`stopped, lanes.Values
      ensures Separate() && View() == M.Apply(old(View()), M.EndStop)
    {
      EndStopIs(View());
      TakeOut(M.Anyone, Cancelled);
      SetStopped();
    }

    ghost method SetStopped()
      requires Separate()
      modifies this`stopped
      ensures Separate() && View() == old(View()).(stopped := true)
    {
      stopped := true;
      assert LaneStates() == old(LaneStates());
    }

    /** A caller takes its job back; false once it runs or is done. */
    method Withdraw(job: Job) returns (found: bool)
      requires Separate() && M.LanesOk(View()) && forall j: Job :: M.KnownOf(View(), j)
      modifies this`leaving, lanes.Values
      ensures found == old(M.Waiting(View(), job))
      ensures Separate() && View() == M.TakenOut(old(View()), j => j == job, Withdrawn)
    {
      ghost var s := View();
      found := false;
      if job.lane in lanes {
        assert lanes[job.lane].State() == s.lanes[job.lane];
        found := RemoveFrom(lanes[job.lane], job);
      }
      WithdrawnIs(s, View(), job);
    }

    method RemoveFrom(lane: Lane, job: Job) returns (found: bool)
      requires ValidLane(lane.View(), lane.key)
      modifies lane, this`leaving
      ensures lane.State() == Swept(old(lane.State()), {job})
      ensures found == old(Waits(lane.View(), job))
      ensures leaving == if found then old(leaving)[job.id := Withdrawn] else old(leaving)
    {
      found := lane.Remove(job);
      if found {
        leaving := leaving[job.id := Withdrawn];
      }
    }

    predicate TooLate(job: Job)
      reads this`deadline, this`clock
    {
      job.id in deadline && deadline[job.id].Some? && clock > deadline[job.id].value
    }

    /** The lane's next job starts, unless it waited too long. */
    method StartNext(lane: Lane) returns (job: Job)
      requires ValidLane(lane.View(), lane.key) && HasJobs(lane.View())
      modifies lane, this`starts
      ensures Picked(lane.View(), Some(job)) == Next(old(lane.View()))
      ensures lane.running == Some(Running(job, TooLate(job))) && lane.hasThread == old(lane.hasThread)
      ensures starts == if TooLate(job) then old(starts) else old(starts) + [M.Start(job, clock, closing, stopped)]
    {
      NextTakes(lane.View(), lane.key);
      var next := lane.PopNext();
      job := next.value;
      lane.running := Some(Running(job, TooLate(job)));
      if !TooLate(job) {
        starts := starts + [M.Start(job, clock, closing, stopped)];
      }
    }

    /** The lane's thread takes the next of the jobs that wait. */
    method PickNext(key: Name)
      requires Separate() && key in lanes && ValidLane(lanes[key].View(), key) && HasJobs(lanes[key].View())
      modifies lanes[key], this`starts
      ensures Separate() && View() == M.PickedFrom(old(View()), key)
    {
      ghost var s := View();
      assert lanes[key].State() == s.lanes[key];
      var job := StartNext(lanes[key]);
      TakenIs(s, View(), key, lanes[key].View(), job);
    }

    /** The running job's outcome is recorded. */
    method Finish(key: Name, code: int)
      requires Separate() && M.Enabled(View(), M.Finish(key, code))
      modifies this`result, this`told
      ensures Separate() && View() == M.Apply(old(View()), M.Finish(key, code))
    {
      var r := lanes[key].running.value;
      assert r == View().lanes[key].running.value;
      result := result[r.job.id := if r.expired then Expired else Ran(code)];
      told := told + [r.job.id];
      assert LaneStates() == old(LaneStates());
    }

    /** The lane is free for its next job. */
    method Free(key: Name)
      requires Separate() && M.Enabled(View(), M.Free(key))
      modifies lanes[key]
      ensures Separate() && View() == M.Apply(old(View()), M.Free(key))
    {
      ghost var s := View();
      lanes[key].running := None;
      assert LaneStates() == M.Apply(s, M.Free(key)).lanes;
    }

    /** A lane found empty when its thread has waited long enough is taken away. */
    method IdleEnd(key: Name)
      requires Separate() && M.Enabled(View(), M.IdleEnd(key))
      modifies this`lanes
      ensures Separate() && View() == M.Apply(old(View()), M.IdleEnd(key))
    {
      lanes := lanes - {key};
      assert LaneStates() == old(LaneStates()) - {key};
    }

    method RecordAll(jobs: seq<Job>, why: Outcome)
      modifies this`leaving
      ensures leaving == old(leaving) + Outcomes(IdsOf(AsSet(jobs)), why)
    {
      var i := 0;
      while i < |jobs|
        invariant 0 <= i <= |jobs|
        invariant leaving == old(leaving) + Outcomes(IdsOf(AsSet(jobs[..i])), why)
      {
        assert jobs[..i + 1] == jobs[..i] + [jobs[i]];
        assert IdsOf(AsSet(jobs[..i + 1])) == IdsOf(AsSet(jobs[..i])) + {jobs[i].id};
        OutcomesTwice(old(leaving), IdsOf(AsSet(jobs[..i])), {jobs[i].id}, why);
        leaving := leaving[jobs[i].id := why];
        i := i + 1;
      }
      assert jobs[..i] == jobs;
    }
  }

  lemma AdmittedIs(s: M.State, s': M.State, job: Job, view: LaneView, back: Option<(Job, Outcome)>)
    requires s'.lanes.Keys == s.lanes.Keys + {job.lane}
    requires s'.lanes[job.lane] == LaneState(view, M.LaneOf(s, job.lane).running,
                                               M.LaneOf(s, job.lane).thread || !(back.Some? && back.value.0 == job))
    requires forall k :: k in s'.lanes && k != job.lane ==> s'.lanes[k] == M.LaneOf(s, k)
    requires s' == s.(lanes := s'.lanes,
                      leaving := if back.Some? then s.leaving[back.value.0.id := back.value.1] else s.leaving)
    ensures s' == M.WithAdmitted(s, job, Admitted(view, back))
  {
    assert s'.lanes == s.lanes[job.lane := s'.lanes[job.lane]];
  }

  function Outcomes(ids: set<nat>, why: Outcome): map<nat, Outcome> {
    map id | id in ids :: why
  }

  lemma OutcomesTwice(m: map<nat, Outcome>, a: set<nat>, b: set<nat>, why: Outcome)
    ensures (m + Outcomes(a, why)) + Outcomes(b, why) == m + Outcomes(a + b, why)
    ensures forall id :: b == {id} ==> (m + Outcomes(a, why))[id := why] == m + Outcomes(a + b, why)
  {
  }

  lemma DropMore(l: LaneView, key: Name, out: seq<Job>, job: Job)
    requires ValidLane(l, key)
    ensures ValidLane(Drop(l, AsSet(out)), key)
    ensures Drop(Drop(l, AsSet(out)), {job}) == Drop(l, AsSet(out + [job]))
  {
    DropKeeps(l, AsSet(out), key);
    DropTwice(l, AsSet(out), {job});
    assert AsSet(out + [job]) == AsSet(out) + {job};
  }

  function Swept(lane: LaneState, gone: set<Job>): LaneState {
    lane.(view := Drop(lane.view, gone))
  }

  /** All lanes but those of some keys are swept. */
  ghost function SweptBut(was: map<Name, LaneState>, keys: set<Name>, gone: set<Job>): map<Name, LaneState> {
    map k | k in was :: if k in keys then was[k] else Swept(was[k], gone)
  }

  lemma NoneSwept(was: map<Name, LaneState>, gone: set<Job>)
    ensures SweptBut(was, was.Keys, gone) == was
  {
  }

  lemma OneMoreSwept(was: map<Name, LaneState>, keys: set<Name>, gone: set<Job>, k: Name)
    requires k in keys && k in was
    ensures SweptBut(was, keys, gone)[k := Swept(was[k], gone)] == SweptBut(was, keys - {k}, gone)
  {
  }

  lemma EndStopIs(s: M.State)
    requires s.stopping
    ensures M.Apply(s, M.EndStop) == M.TakenOut(s, M.Anyone, Cancelled).(stopped := true)
  {
  }

  lemma FilterNext(jobs: seq<Job>, i: nat, who: Job -> bool)
    requires i < |jobs|
    ensures Filter(jobs[..i + 1], who) == Filter(jobs[..i], who) + if who(jobs[i]) then [jobs[i]] else []
  {
    assert jobs[..i + 1] == jobs[..i] + [jobs[i]];
    FilterAppend(jobs[..i], [jobs[i]], who);
    assert [jobs[i]][1..] == [];
  }

  /** `gone` holds, of this lane, the waiting jobs that `who` names. */
  ghost predicate NamedIn(l: LaneView, key: Name, who: Job -> bool, gone: set<Job>) {
    ValidLane(l, key) && forall j: Job :: j.lane == key ==> (j in gone <==> Waits(l, j) && who(j))
  }

  lemma TakenIs(s: M.State, s': M.State, key: Name, view: LaneView, job: Job)
    requires key in s.lanes && s'.lanes.Keys == s.lanes.Keys
    requires forall k :: k in s.lanes && k != key ==> s'.lanes[k] == s.lanes[k]
    requires s'.lanes[key] == LaneState(view, Some(Running(job, M.Late(s, job))), s.lanes[key].thread)
    requires s' == s.(lanes := s'.lanes,
                      starts := if M.Late(s, job) then s.starts
                                else s.starts + [M.Start(job, s.now, s.closing, s.stopped)])
    requires Picked(view, Some(job)) == Next(s.lanes[key].view)
    ensures s' == M.PickedFrom(s, key)
  {
    assert s'.lanes == s.lanes[key := s'.lanes[key]];
  }

  /** Taking back one job touches its own lane only. */
  lemma WithdrawnIs(s: M.State, s': M.State, job: Job)
    requires M.LanesOk(s) && forall j: Job :: M.KnownOf(s, j)
    requires s'.lanes.Keys == s.lanes.Keys
    requires forall k :: k in s.lanes ==> s'.lanes[k] == if k == job.lane then Swept(s.lanes[k], {job}) else s.lanes[k]
    requires s' == s.(lanes := s'.lanes,
                      leaving := if M.Waiting(s, job) then s.leaving[job.id := Withdrawn] else s.leaving)
    ensures s' == M.TakenOut(s, j => j == job, Withdrawn)
  {
    var gone := if M.Waiting(s, job) then {job} else {};
    GoneIs(s, job);
    forall k | k in s.lanes ensures s'.lanes[k] == Swept(s.lanes[k], gone) {
      OneGone(s.lanes[k].view, k, job, gone);
    }
    OneOutcome(s.leaving, job, gone);
    TakenOutIs(s, s', j => j == job, Withdrawn);
  }

  lemma OneOutcome(m: map<nat, Outcome>, job: Job, gone: set<Job>)
    ensures gone == {} ==> m + Outcomes(IdsOf(gone), Withdrawn) == m
    ensures gone == {job} ==> m + Outcomes(IdsOf(gone), Withdrawn) == m[job.id := Withdrawn]
  {
  }

  lemma GoneIs(s: M.State, job: Job)
    requires forall j: Job :: M.KnownOf(s, j)
    ensures M.GoneJobs(s, j => j == job) == if M.Waiting(s, job) then {job} else {}
  {
    var who := j => j == job;
    M.GoneAre(s, who);
    assert forall j :: j in M.GoneJobs(s, who) <==> j == job && M.Waiting(s, job);
  }

  lemma OneGone(l: LaneView, key: Name, job: Job, gone: set<Job>)
    requires ValidLane(l, key)
    requires gone == {} || gone == {job}
    requires key == job.lane ==> (Waits(l, job) <==> job in gone)
    ensures Drop(l, gone) == if key == job.lane then Drop(l, {job}) else l
  {
    DropNone(l, key);
    if key == job.lane {
      DropSame(l, key, gone, {job});
    } else {
      DropSame(l, key, gone, {});
    }
  }

  lemma TakenOutIs(s: M.State, s': M.State, who: Job -> bool, why: Outcome)
    requires s'.lanes.Keys == s.lanes.Keys
    requires forall k :: k in s.lanes ==> s'.lanes[k] == Swept(s.lanes[k], M.GoneJobs(s, who))
    requires s' == s.(lanes := s'.lanes, leaving := s.leaving + Outcomes(IdsOf(M.GoneJobs(s, who)), why))
    ensures s' == M.TakenOut(s, who, why)
  {
  }

  lemma SweptAre(l: LaneView, key: Name, taken: set<Job>, gone: set<Job>)
    requires ValidLane(l, key)
    requires forall j :: j in taken ==> Waits(l, j)
    requires forall j: Job :: j.lane == key ==> (j in gone <==> j in taken)
    ensures (forall j :: j in taken <==> j in gone && j.lane == key) && Drop(l, taken) == Drop(l, gone)
  {
    DropSame(l, key, taken, gone);
  }

  function AsSet(q: seq<Job>): set<Job> {
    set j | j in q
  }

  function IdsOf(jobs: set<Job>): set<nat> {
    set j | j in jobs :: j.id
  }

  lemma DropSame(l: LaneView, key: Name, a: set<Job>, b: set<Job>)
    requires ValidLane(l, key)
    requires forall j :: Waits(l, j) ==> (j in a <==> j in b)
    ensures Drop(l, a) == Drop(l, b)
  {
    KeptSame(l.urgent, a, b);
    forall d | d in l.pending ensures Kept(l.pending[d], a) == Kept(l.pending[d], b) {
      assert forall j :: j in l.pending[d] ==> Waits(l, j);
      KeptSame(l.pending[d], a, b);
    }
    assert Drop(l, a).pending == Drop(l, b).pending;
  }

  lemma {:induction false} KeptSame(q: seq<Job>, a: set<Job>, b: set<Job>)
    requires forall j :: j in q ==> (j in a <==> j in b)
    ensures Kept(q, a) == Kept(q, b)
  {
    if q != [] {
      KeptSame(q[1..], a, b);
    }
  }

  lemma DropNone(l: LaneView, key: Name)
    requires ValidLane(l, key)
    ensures Drop(l, {}) == l
  {
    KeptAll(l.urgent);
    forall d | d in l.pending ensures Kept(l.pending[d], {}) == l.pending[d] {
      KeptAll(l.pending[d]);
    }
    assert Drop(l, {}).pending == l.pending;
    WithWorkWithout(l.order, l.pending, key);
  }

  lemma {:induction false} KeptAll(q: seq<Job>)
    ensures Kept(q, {}) == q
  {
    if q != [] {
      KeptAll(q[1..]);
    }
  }
}
