/** The hysteresis of a bridge alert: two polls over the limit fire it, two
    polls well under the limit clear it. */
module Hysteresis {
  import opened Prelude

  const FIRE_AFTER := 2
  const CLEAR_AFTER := 2
  const CLEAR_RATIO := 0.8

  /** One poll's measure and limit. */
  datatype Level = Level(val: real, lim: real)

  datatype Signal = Fire | Clear

  datatype State = State(over: nat, clean: nat, active: bool)

  const START := State(0, 0, false)

  predicate IsOver(l: Level) {
    l.val > l.lim
  }

  predicate IsLow(l: Level) {
    !IsOver(l) && l.val < CLEAR_RATIO * l.lim
  }

  /** The state one poll leaves. */
  function Next(s: State, l: Option<Level>): State {
    if l.None? then s
    else if IsOver(l.value) then State(s.over + 1, 0, s.active || s.over + 1 >= FIRE_AFTER)
    else if IsLow(l.value) then State(0, s.clean + 1, s.active && s.clean + 1 < CLEAR_AFTER)
    else State(0, 0, s.active)
  }

  /** What one poll sends: the change of the alert. */
  function Sent(s: State, l: Option<Level>): Option<Signal> {
    var t := Next(s, l);
    if t.active && !s.active then Some(Fire)
    else if s.active && !t.active then Some(Clear)
    else None
  }

  class Alert {
    var over: nat
    var clean: nat
    var active: bool

    function View(): State
      reads this
    {
      State(over, clean, active)
    }

    constructor ()
      ensures View() == START
    {
      over, clean, active := 0, 0, false;
    }

    method Step(level: Option<Level>) returns (signal: Option<Signal>)
      modifies this
      ensures View() == Next(old(View()), level)
      ensures signal == Sent(old(View()), level)
    {
      if level.None? {
        return None;
      }
      var val, lim := level.value.val, level.value.lim;
      if val > lim {
        over, clean := over + 1, 0;
        if !active && over >= FIRE_AFTER {
          active := true;
          return Some(Fire);
        }
      } else if val < CLEAR_RATIO * lim {
        clean, over := clean + 1, 0;
        if active && clean >= CLEAR_AFTER {
          active := false;
          return Some(Clear);
        }
      } else {
        over, clean := 0, 0;
      }
      return None;
    }
  }

  // ---- runs ----

  function After(polls: seq<Option<Level>>): State {
    if polls == [] then START else Next(After(polls[..|polls| - 1]), polls[|polls| - 1])
  }

  /** What poll `k` of a run sends. */
  function SentAt(polls: seq<Option<Level>>, k: nat): Option<Signal>
    requires k < |polls|
  {
    Sent(After(polls[..k]), polls[k])
  }

  /** The last poll that could be judged. */
  function LastJudged(polls: seq<Option<Level>>): Option<Level> {
    if polls == [] then None
    else if polls[|polls| - 1].Some? then polls[|polls| - 1]
    else LastJudged(polls[..|polls| - 1])
  }

  /** The last signal of a run. */
  function LastSent(polls: seq<Option<Level>>): Option<Signal> {
    if polls == [] then None
    else
      var n := |polls| - 1;
      if SentAt(polls, n).Some? then SentAt(polls, n) else LastSent(polls[..n])
  }

  /** The counters count the judged polls at the end of the run that agree, and
      an inactive alert has seen fewer than two over. */
  lemma {:induction false} CountersCount(polls: seq<Option<Level>>)
    ensures After(polls).over > 0 <==> LastJudged(polls).Some? && IsOver(LastJudged(polls).value)
    ensures After(polls).clean > 0 <==> LastJudged(polls).Some? && IsLow(LastJudged(polls).value)
    ensures !After(polls).active ==> After(polls).over < FIRE_AFTER
    ensures After(polls).active ==> After(polls).clean < CLEAR_AFTER
  {
    if polls != [] {
      CountersCount(polls[..|polls| - 1]);
    }
  }

  lemma {:induction false} ActiveMeansFired(polls: seq<Option<Level>>)
    ensures After(polls).active <==> LastSent(polls) == Some(Fire)
    ensures !After(polls).active <==> LastSent(polls) == Some(Clear) || LastSent(polls) == None
  {
    if polls != [] {
      var n := |polls| - 1;
      ActiveMeansFired(polls[..n]);
      assert polls[..n + 1] == polls;
    }
  }

  predicate WellUnder(l: Level) {
    l.val <= l.lim && l.val * 10.0 < l.lim * 8.0
  }

  /** A poll fires exactly when it and the judged poll before it were over the
      limit and the last signal was no fire; it clears exactly when both were
      under eight tenths of it, and not over, and the last signal was a fire. */
  lemma SignalsAreExact(polls: seq<Option<Level>>, k: nat)
    requires k < |polls|
    ensures
      var before, now := LastJudged(polls[..k]), polls[k];
      && (SentAt(polls, k) == Some(Fire) <==>
            now.Some? && now.value.val > now.value.lim && before.Some? && before.value.val > before.value.lim &&
            LastSent(polls[..k]) != Some(Fire))
      && (SentAt(polls, k) == Some(Clear) <==>
            now.Some? && WellUnder(now.value) && before.Some? && WellUnder(before.value) &&
            LastSent(polls[..k]) == Some(Fire))
  {
    CountersCount(polls[..k]);
    ActiveMeansFired(polls[..k]);
  }

  /** Signals alternate, a fire first. */
  lemma SignalsAlternate(polls: seq<Option<Level>>, k: nat)
    requires k < |polls| && SentAt(polls, k).Some?
    ensures SentAt(polls, k).value == if LastSent(polls[..k]) == Some(Fire) then Clear else Fire
  {
    ActiveMeansFired(polls[..k]);
  }
}
