/** The throttle of linked calculations: a device is evaluated one at a time and
    not more often than every half second, and no report is lost. */
module Throttle {
  import opened Prelude

  const GAP := 0.5
  const SHORTEST := 0.01

  /** One evaluation: when it began and ended, and whether it was forced. */
  datatype Evaluation = Evaluation(start: real, end: Option<real>, forced: bool)

  /** One device: whether it is there and enabled, the lock, the last start, the
      timer, timers that went off and have not called yet; and what happened so
      far. `held` says that a report with a rerun was held back for which no
      evaluation has begun since. */
  datatype State = State(
    now: real, on: bool, running: bool, last: Option<real>, timer: Option<real>, calling: nat,
    held: bool, log: seq<Evaluation>)

  function Init(now: real): State {
    State(now, true, false, None, None, 0, false, [])
  }

  datatype Event = Report(force: bool, rerun: bool) | Finish | GoesOff | Calls | Switch(on: bool) | Tick(dt: real)

  function Max(a: real, b: real): real {
    if a >= b then a else b
  }

  /** At most one timer is pending, and none without a rerun to call. */
  function Trailed(s: State, delay: real, rerun: bool): State {
    if s.timer.Some? || !rerun then s else s.(timer := Some(s.now + Max(SHORTEST, delay)))
  }

  function HeldBack(s: State, delay: real, rerun: bool): State {
    Trailed(s, delay, rerun).(held := s.held || rerun)
  }

  function Reported(s: State, force: bool, rerun: bool): State {
    if !s.on then s
    else if s.running then HeldBack(s, GAP, rerun)
    else if !force && s.last.Some? && GAP - (s.now - s.last.value) > 0.0
    then HeldBack(s, GAP - (s.now - s.last.value), rerun)
    else Begun(s, force)
  }

  /** The state once an evaluation has begun. */
  function Begun(s: State, force: bool): State {
    s.(running := true, last := Some(s.now), held := false, log := s.log + [Evaluation(s.now, None, force)])
  }

  /** A timer's call: it reports again, with itself to be called again; on a
      device that is off now, what it was to judge is dropped. */
  function Called(s: State): State
    requires s.calling > 0
  {
    var t := s.(calling := s.calling - 1);
    if s.on then Reported(t, false, true) else t.(held := t.held && (t.timer.Some? || t.calling > 0))
  }

  predicate Enabled(s: State, e: Event) {
    match e
    case Report(_, _) => true
    case Switch(_) => true
    case Finish => s.running && s.log != []
    case GoesOff => s.timer.Some? && s.now >= s.timer.value
    case Calls => s.calling > 0
    case Tick(dt) => dt >= 0.0
  }

  function Apply(s: State, e: Event): State
    requires Enabled(s, e)
  {
    match e
    case Report(force, rerun) => Reported(s, force, rerun)
    case Switch(on) => s.(on := on)
    case Finish =>
      var n := |s.log| - 1;
      s.(running := false, log := s.log[n := s.log[n].(end := Some(s.now))])
    case GoesOff => s.(timer := None, calling := s.calling + 1)
    case Calls => Called(s)
    case Tick(dt) => s.(now := s.now + dt)
  }

  /** What the engine keeps of one device. */
  class LinkedRuns {
    var locked: bool
    var last: Option<real>
    var pending: Option<real>

    constructor ()
      ensures !locked && last == None && pending == None
    {
      locked, last, pending := false, None, None;
    }

    ghost predicate Is(s: State)
      reads this
    {
      locked == s.running && last == s.last && pending == s.timer
    }

    method Trail(now: real, delay: real, rerun: bool, ghost s: State)
      requires Is(s) && s.now == now
      modifies this`pending
      ensures Is(Trailed(s, delay, rerun))
    {
      if !rerun || pending.Some? {
        return;
      }
      pending := Some(now + Max(SHORTEST, delay));
    }

    /** A report: evaluate now, holding the lock, or leave it to the timer. `on`
        says that the device is there and enabled. */
    method RunLinked(on: bool, now: real, force: bool, rerun: bool, ghost s: State) returns (evaluate: bool)
      requires Is(s) && s.now == now && s.on == on
      modifies this
      ensures Is(Reported(s, force, rerun))
      ensures evaluate <==> |Reported(s, force, rerun).log| == |s.log| + 1
    {
      if !on {
        return false;
      }
      if locked {
        Trail(now, GAP, rerun, s);
        return false;
      }
      if last.Some? {
        var wait := GAP - (now - last.value);
        if !force && wait > 0.0 {
          Trail(now, wait, rerun, s);
          return false;
        }
      }
      last := Some(now);
      locked := true;
      return true;
    }
  }

  // ---- every run ----

  /** Evaluations come one after the other, and only the last may be open. */
  ghost predicate OneAtATime(s: State) {
    && (s.running ==> s.log != [] && s.log[|s.log| - 1].end.None?)
    && (forall i :: 0 <= i < |s.log| && (i < |s.log| - 1 || !s.running) ==>
          s.log[i].end.Some? && s.log[i].start <= s.log[i].end.value <= s.now)
    && (forall i, j :: 0 <= i < j < |s.log| ==> s.log[i].end.Some? && s.log[i].end.value <= s.log[j].start)
  }

  /** An evaluation nobody forced begins half a second after every earlier one. */
  ghost predicate Spaced(s: State) {
    && (forall i :: 0 <= i < |s.log| ==> s.last.Some? && s.log[i].start <= s.last.value <= s.now)
    && (s.last.Some? ==> s.log != [] && s.log[|s.log| - 1].start == s.last.value)
    && (forall i, j :: 0 <= i < j < |s.log| && !s.log[j].forced ==> s.log[j].start - s.log[i].start >= 0.5)
  }

  /** A report that was held back with a rerun has a timer, due within the gap, or a timer
      that is about to call. */
  ghost predicate NothingLost(s: State) {
    && (s.held ==> s.timer.Some? || s.calling > 0)
    && (s.timer.Some? ==> s.timer.value <= s.now + 0.5)
  }

  ghost predicate Inv(s: State) {
    OneAtATime(s) && Spaced(s) && NothingLost(s)
  }

  lemma BeginKeepsOrder(s: State, force: bool)
    requires OneAtATime(s) && Spaced(s) && !s.running
    requires force || s.last.None? || s.now - s.last.value >= GAP
    ensures OneAtATime(Begun(s, force)) && Spaced(Begun(s, force))
  {
    var t := Begun(s, force);
    forall i, j | 0 <= i < j < |t.log| && !t.log[j].forced ensures t.log[j].start - t.log[i].start >= GAP {
      if j < |s.log| {
        assert s.log[j].start - s.log[i].start >= GAP;
      }
    }
  }

  /** Only these parts of the state matter for the order of evaluations. */
  lemma SameOrder(s: State, t: State)
    requires OneAtATime(s) && Spaced(s)
    requires t.running == s.running && t.last == s.last && t.log == s.log && t.now >= s.now
    ensures OneAtATime(t) && Spaced(t)
  {
    forall i | 0 <= i < |t.log| ensures t.last.Some? && t.log[i].start <= t.last.value <= t.now {
      assert s.log[i].start <= s.last.value <= s.now;
    }
  }

  lemma ReportKeepsOrder(s: State, force: bool, rerun: bool)
    requires OneAtATime(s) && Spaced(s)
    ensures OneAtATime(Reported(s, force, rerun)) && Spaced(Reported(s, force, rerun))
  {
    var t := Reported(s, force, rerun);
    if t.log == s.log {
      SameOrder(s, t);
    } else {
      BeginKeepsOrder(s, force);
      assert t == Begun(s, force);
    }
  }

  lemma FinishKeepsOrder(s: State)
    requires OneAtATime(s) && Spaced(s) && Enabled(s, Finish)
    ensures OneAtATime(Apply(s, Finish)) && Spaced(Apply(s, Finish))
  {
  }

  lemma CallKeepsOrder(s: State)
    requires OneAtATime(s) && Spaced(s) && Enabled(s, Calls)
    ensures OneAtATime(Apply(s, Calls)) && Spaced(Apply(s, Calls))
  {
    var t := s.(calling := s.calling - 1);
    SameOrder(s, t);
    if s.on {
      ReportKeepsOrder(t, false, true);
    } else {
      SameOrder(t, Called(s));
    }
  }

  lemma StepKeepsOrder(s: State, e: Event, t: State)
    requires OneAtATime(s) && Spaced(s) && Enabled(s, e) && t == Apply(s, e)
    ensures OneAtATime(t) && Spaced(t)
  {
    if e.Report? {
      ReportKeepsOrder(s, e.force, e.rerun);
    } else if e.Finish? {
      FinishKeepsOrder(s);
    } else if e.Calls? {
      CallKeepsOrder(s);
    } else {
      SameOrder(s, t);
    }
  }

  lemma StepLosesNothing(s: State, e: Event)
    requires NothingLost(s) && Enabled(s, e) && (s.last.Some? ==> s.last.value <= s.now)
    ensures NothingLost(Apply(s, e))
  {
  }

  lemma StepKeeps(s: State, e: Event)
    requires Inv(s) && Enabled(s, e)
    ensures Inv(Apply(s, e))
  {
    if s.last.Some? {
      LastIsPast(s);
    }
    StepKeepsOrder(s, e, Apply(s, e));
    StepLosesNothing(s, e);
  }

  lemma LastIsPast(s: State)
    requires Spaced(s) && s.last.Some?
    ensures s.last.value <= s.now
  {
    assert s.log[0].start <= s.last.value;
  }

  function Run(s: State, events: seq<Event>): Option<State> {
    if events == [] then Some(s)
    else
      var n := |events| - 1;
      var t := Run(s, events[..n]);
      if t.Some? && Enabled(t.value, events[n]) then Some(Apply(t.value, events[n])) else None
  }

  /** Over every run from the start: one evaluation at a time, unforced ones half
      a second apart, and no report without an evaluation, a timer or a call to come. */
  lemma {:induction false} RunKeeps(now: real, events: seq<Event>)
    requires Run(Init(now), events).Some?
    ensures Inv(Run(Init(now), events).value)
  {
    if events != [] {
      RunKeeps(now, events[..|events| - 1]);
      StepKeeps(Run(Init(now), events[..|events| - 1]).value, events[|events| - 1]);
    }
  }

  /** A report on a device that is there evaluates at once, exactly when no evaluation is
      running and none began in the last half second or it is forced. Else, with a rerun,
      it is held for the one timer: the one there is, or one half a second on, or when
      the last evaluation is half a second old, but a hundredth of a second on at least. */
  lemma ReportIsExact(s: State, force: bool, rerun: bool)
    requires Inv(s)
    ensures
      var t := Apply(s, Report(force, rerun));
      var begins := s.on && !s.running && (force || forall i :: 0 <= i < |s.log| ==> s.now - s.log[i].start >= 0.5);
      && t.log == s.log + (if begins then [Evaluation(s.now, None, force)] else [])
      && (begins ==> t.running && !t.held && t.timer == s.timer)
      && (!begins && s.on && rerun ==> t.held && t.timer == if s.timer.Some? then s.timer else Some(NextTry(s)))
      && (!begins && !(s.on && rerun) ==> t == s)
  {
    if s.log != [] {
      var n := |s.log| - 1;
      assert s.last.Some? && s.log[n].start <= s.last.value;
      assert s.last == Some(s.log[n].start);
    } else {
      assert s.last.None?;
    }
  }

  function NextTry(s: State): real {
    if s.running || s.log == [] then s.now + 0.5
    else
      var due := s.log[|s.log| - 1].start + 0.5;
      if due >= s.now + 0.01 then due else s.now + 0.01
  }

  /** Whenever the running evaluation has ended, a report held back is judged by
      waiting half a second and serving the timer. */
  lemma HeldReportIsJudged(s: State)
    requires Inv(s) && s.on && s.held && !s.running && s.calling == 0
    ensures
      var t := Apply(s, Tick(0.5));
      && Enabled(t, GoesOff) && Enabled(Apply(t, GoesOff), Calls)
      && var u := Apply(Apply(t, GoesOff), Calls);
         !u.held && u.running && |u.log| == |s.log| + 1 && u.log[|s.log|].start == s.now + 0.5
  {
    if s.last.Some? {
      LastIsPast(s);
    }
    var t := Apply(s, Tick(0.5));
    assert Enabled(t, GoesOff);
    var v := Apply(t, GoesOff);
    assert v.calling == 1 && !v.running && v.last == s.last && v.now == s.now + 0.5;
    assert Apply(v, Calls) == Begun(v.(calling := 0), false);
  }

  /** A timer that is about to call judges the report at once, or leaves it to
      the next timer, never later than half a second. */
  lemma CallJudgesOrTrails(s: State)
    requires Inv(s) && s.on && s.calling > 0
    ensures
      var u := Apply(s, Calls);
      || (!u.held && u.running && u.last == Some(s.now))
      || (u.held && u.timer.Some? && u.timer.value <= s.now + 0.5)
  {
    if s.last.Some? {
      LastIsPast(s);
    }
    StepLosesNothing(s, Calls);
  }
}
