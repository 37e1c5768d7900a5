/** The channel referee: who writes a channel, and the motor protection that
    holds a write back whoever asks. Times are seconds on a monotone clock. */
module Arbiter {
  import opened Prelude

  // ---- the protection, as a function of what the writes left ----

  datatype Channel = Channel(
    on: Option<bool>, onSince: Option<real>, offSince: Option<real>,
    starts: seq<real>, lastWrite: Option<real>)

  const UNKNOWN := Channel(None, None, None, [], None)
  const HOUR := 3600.0

  /** The settings of a channel; zero turns a limit off. */
  datatype Settings = Settings(minInterval: real, minOn: real, minOff: real, maxStarts: nat)

  datatype Reason = Interval | RunTime | StopTime | Starts

  datatype Hold = Hold(reason: Reason, left: real)

  /** The starts less than an hour old: older ones leave at the front. */
  function Recent(starts: seq<real>, now: real): seq<real> {
    if starts != [] && now - starts[0] >= HOUR then Recent(starts[1..], now) else starts
  }

  function Remaining(limit: real, since: Option<real>, now: real, reason: Reason): Option<Hold> {
    if limit != 0.0 && since.Some? && now - since.value < limit
    then Some(Hold(reason, limit - (now - since.value)))
    else None
  }

  /** The hold of too many starts in the last hour. */
  function CrowdHold(starts: seq<real>, max: nat, now: real): Option<Hold> {
    var recent := Recent(starts, now);
    if max != 0 && |recent| >= max then Some(Hold(Starts, HOUR - (now - recent[0]))) else None
  }

  /** The hold on starting or stopping. */
  function SwitchHold(c: Channel, s: Settings, turnsOn: bool, now: real): Option<Hold> {
    if !turnsOn then Remaining(s.minOn, c.onSince, now, RunTime)
    else
      var stopped := Remaining(s.minOff, c.offSince, now, StopTime);
      if stopped.Some? then stopped else CrowdHold(c.starts, s.maxStarts, now)
  }

  /** What stands in the way at `now` of a write after which the channel is `turnsOn`. */
  function HoldOf(c: Channel, s: Settings, turnsOn: Option<bool>, now: real): Option<Hold> {
    var interval := Remaining(s.minInterval, c.lastWrite, now, Interval);
    if interval.Some? then interval
    else if turnsOn.None? || turnsOn == c.on then None
    else SwitchHold(c, s, turnsOn.value, now)
  }

  /** A write was made. */
  function Noted(c: Channel, turnsOn: Option<bool>, now: real): Channel {
    var d := c.(lastWrite := Some(now));
    match turnsOn
    case None => d
    case Some(true) =>
      if c.on == Some(true) then d
      else d.(on := Some(true), onSince := Some(now), offSince := None, starts := c.starts + [now])
    case Some(false) =>
      if c.on == Some(false) then d
      else d.(on := Some(false), offSince := Some(now), onSince := None)
  }

  /** The device was found to hold this already. */
  function Learnt(c: Channel, turnsOn: Option<bool>, now: real): Channel {
    if turnsOn.None? || c.on.Some? then c
    else if turnsOn.value then c.(on := turnsOn, onSince := Some(now))
    else c.(on := turnsOn, offSince := Some(now))
  }

  // ---- the object the runtime keeps per channel ----

  class ChannelState {
    var on: Option<bool>
    var onSince: Option<real>
    var offSince: Option<real>
    var starts: seq<real>
    var lastWrite: Option<real>

    function View(): Channel
      reads this
    {
      Channel(on, onSince, offSince, starts, lastWrite)
    }

    constructor ()
      ensures View() == UNKNOWN
    {
      on, onSince, offSince, starts, lastWrite := None, None, None, [], None;
    }

    method StartsLastHour(now: real) returns (n: nat)
      modifies this`starts
      ensures starts == Recent(old(starts), now) && n == |starts|
    {
      while starts != [] && now - starts[0] >= HOUR
        invariant Recent(starts, now) == Recent(old(starts), now)
        decreases |starts|
      {
        starts := starts[1..];
      }
      n := |starts|;
    }

    /** Asking may drop old starts, and nothing else. */
    method HoldS(s: Settings, turnsOn: Option<bool>, now: real) returns (hold: Option<Hold>)
      modifies this`starts
      ensures hold == HoldOf(old(View()), s, turnsOn, now)
      ensures starts == old(starts) || starts == Recent(old(starts), now)
    {
      if s.minInterval != 0.0 && lastWrite.Some? && now - lastWrite.value < s.minInterval {
        return Some(Hold(Interval, s.minInterval - (now - lastWrite.value)));
      }
      if turnsOn.None? || turnsOn == on {
        return None;
      }
      if !turnsOn.value {
        if s.minOn != 0.0 && onSince.Some? && now - onSince.value < s.minOn {
          return Some(Hold(RunTime, s.minOn - (now - onSince.value)));
        }
        return None;
      }
      if s.minOff != 0.0 && offSince.Some? && now - offSince.value < s.minOff {
        return Some(Hold(StopTime, s.minOff - (now - offSince.value)));
      }
      if s.maxStarts != 0 {
        var n := StartsLastHour(now);
        if n >= s.maxStarts {
          return Some(Hold(Starts, HOUR - (now - starts[0])));
        }
      }
      return None;
    }

    method Reconcile(turnsOn: Option<bool>, now: real) returns (learnt: bool)
      modifies this
      ensures View() == Learnt(old(View()), turnsOn, now)
      ensures learnt <==> View() != old(View())
    {
      if turnsOn.None? || on.Some? {
        return false;
      }
      on := turnsOn;
      if turnsOn.value {
        onSince := Some(now);
      } else {
        offSince := Some(now);
      }
      learnt := true;
    }

    method Note(turnsOn: Option<bool>, now: real)
      modifies this
      ensures View() == Noted(old(View()), turnsOn, now)
    {
      lastWrite := Some(now);
      if turnsOn.None? {
        return;
      }
      if turnsOn.value && on != Some(true) {
        onSince, offSince := Some(now), None;
        starts := starts + [now];
      } else if !turnsOn.value && on != Some(false) {
        offSince, onSince := Some(now), None;
      }
      on := turnsOn;
    }
  }

  // ---- runs ----

  /** What happens to a channel: a write, something learnt from the device, or
      a look that drops old starts. */
  datatype Event =
    | Write(turnsOn: Option<bool>, at: real)
    | Learn(turnsOn: Option<bool>, at: real)
    | Look(at: real)

  function Next(c: Channel, e: Event): Channel {
    match e
    case Write(v, t) => Noted(c, v, t)
    case Learn(v, t) => Learnt(c, v, t)
    case Look(t) => c.(starts := Recent(c.starts, t))
  }

  /** The channel after a run from the gateway's start. */
  function Reach(events: seq<Event>): Channel {
    if events == [] then UNKNOWN
    else Next(Reach(events[..|events| - 1]), events[|events| - 1])
  }

  predicate Allowed(c: Channel, s: Settings, e: Event) {
    e.Write? ==> HoldOf(c, s, e.turnsOn, e.at).None?
  }

  /** The clock never runs back, and every write was made with no hold on it. */
  predicate Lawful(s: Settings, events: seq<Event>) {
    && (forall i, j :: 0 <= i < j < |events| ==> events[i].at <= events[j].at)
    && (forall k {:trigger Allowed(Reach(events[..k]), s, events[k])} ::
          0 <= k < |events| ==> Allowed(Reach(events[..k]), s, events[k]))
  }

  /** Whether the channel is on after some events: as the last write that said so
      left it, or as it was found before any did. */
  function OnOf(events: seq<Event>): Option<bool> {
    if events == [] then None
    else
      var before, e := OnOf(events[..|events| - 1]), events[|events| - 1];
      match e
      case Write(Some(v), _) => Some(v)
      case Learn(Some(v), _) => if before.None? then Some(v) else before
      case _ => before
  }

  lemma {:induction false} OnIs(events: seq<Event>)
    ensures Reach(events).on == OnOf(events)
  {
    if events != [] {
      OnIs(events[..|events| - 1]);
    }
  }

  /** Event `k` starts the motor, or finds it running for the first time. */
  predicate TurnsOn(events: seq<Event>, k: nat)
    requires k < |events|
  {
    OnOf(events[..k]) != Some(true) && OnOf(events[..k + 1]) == Some(true)
  }

  predicate TurnsOff(events: seq<Event>, k: nat)
    requires k < |events|
  {
    OnOf(events[..k]) != Some(false) && OnOf(events[..k + 1]) == Some(false)
  }

  lemma ReachNext(events: seq<Event>, k: nat)
    requires k < |events|
    ensures Reach(events[..k + 1]) == Next(Reach(events[..k]), events[k])
  {
    assert events[..k + 1][..k] == events[..k];
  }

  lemma LawfulPrefix(s: Settings, events: seq<Event>, k: nat)
    requires Lawful(s, events) && k <= |events|
    ensures Lawful(s, events[..k])
  {
    forall i | 0 <= i < k ensures Allowed(Reach(events[..k][..i]), s, events[..k][i]) {
      assert events[..k][..i] == events[..i];
    }
  }

  predicate NotBefore(t: real, since: Option<real>) {
    since.Some? && t <= since.value
  }

  /** What event `k` and the ones before it left behind of event `i`. */
  predicate Remembers(events: seq<Event>, c: Channel, i: nat)
    requires i < |events|
  {
    var t := events[i].at;
    && (events[i].Write? ==> NotBefore(t, c.lastWrite))
    && (TurnsOn(events, i) && c.on == Some(true) ==> NotBefore(t, c.onSince))
    && (TurnsOff(events, i) && c.on == Some(false) ==> NotBefore(t, c.offSince))
    && (TurnsOn(events, i) || TurnsOff(events, i) ==> c.on.Some?)
  }

  lemma RememberedNext(events: seq<Event>, c: Channel, e: Event, i: nat)
    requires i < |events| && Remembers(events, c, i) && events[i].at <= e.at
    ensures Remembers(events, Next(c, e), i)
  {
  }

  lemma RememberedAtOnce(events: seq<Event>, i: nat)
    requires i < |events|
    ensures Remembers(events, Reach(events[..i + 1]), i)
  {
    OnIs(events[..i]);
    OnIs(events[..i + 1]);
    ReachNext(events, i);
  }

  /** Each kind of instant is remembered, and no later than it was. */
  lemma {:induction false} Remembered(s: Settings, events: seq<Event>, k: nat, i: nat)
    requires Lawful(s, events) && i < k <= |events|
    ensures Remembers(events, Reach(events[..k]), i)
    decreases k
  {
    if i == k - 1 {
      RememberedAtOnce(events, i);
    } else {
      Remembered(s, events, k - 1, i);
      assert events[i].at <= events[k - 1].at;
      ReachNext(events, k - 1);
      RememberedNext(events, Reach(events[..k - 1]), events[k - 1], i);
    }
  }

  /** Any two writes are the minimum interval apart. */
  lemma WritesAreSpaced(s: Settings, events: seq<Event>, i: nat, j: nat)
    requires Lawful(s, events) && i < j < |events| && events[i].Write? && events[j].Write?
    ensures events[j].at - events[i].at >= s.minInterval
  {
    Remembered(s, events, j, i);
    var c, t := Reach(events[..j]), events[j].at;
    assert Allowed(c, s, events[j]) && events[i].at <= t;
    assert Remaining(s.minInterval, c.lastWrite, t, Interval).None?;
  }

  /** No stop comes within the minimum run time of any earlier start. */
  lemma RunsLastLongEnough(s: Settings, events: seq<Event>, i: nat, j: nat)
    requires Lawful(s, events) && i < j < |events| && TurnsOn(events, i)
    requires events[j].Write? && TurnsOff(events, j)
    ensures events[j].at - events[i].at >= s.minOn
  {
    OnIs(events[..j]);
    OnIs(events[..j + 1]);
    Remembered(s, events, j, i);
    ReachNext(events, j);
    var c, t := Reach(events[..j]), events[j].at;
    assert Allowed(c, s, events[j]) && events[i].at <= t;
    assert c.on.Some? && c.on.value;
    assert Remaining(s.minOn, c.onSince, t, RunTime).None?;
  }

  /** No start comes within the minimum stop time of any earlier stop. */
  lemma StopsLastLongEnough(s: Settings, events: seq<Event>, i: nat, j: nat)
    requires Lawful(s, events) && i < j < |events| && TurnsOff(events, i)
    requires events[j].Write? && TurnsOn(events, j)
    ensures events[j].at - events[i].at >= s.minOff
  {
    OnIs(events[..j]);
    OnIs(events[..j + 1]);
    Remembered(s, events, j, i);
    ReachNext(events, j);
    var c, t := Reach(events[..j]), events[j].at;
    assert Allowed(c, s, events[j]) && events[i].at <= t;
    assert c.on.Some? && !c.on.value;
    assert Remaining(s.minOff, c.offSince, t, StopTime).None?;
  }

  // ---- starts per hour ----

  /** The instants at which a write started the motor. */
  function StartTimes(events: seq<Event>): seq<real> {
    if events == [] then []
    else
      var n := |events| - 1;
      StartTimes(events[..n]) +
      if events[n].Write? && TurnsOn(events, n) then [events[n].at] else []
  }

  predicate Ordered(times: seq<real>) {
    forall i, j :: 0 <= i < j < |times| ==> times[i] <= times[j]
  }

  /** The channel's list is the end of all start times; what left it is an hour old. */
  predicate EndOf(kept: seq<real>, all: seq<real>, now: real) {
    && |kept| <= |all| && kept == all[|all| - |kept|..]
    && forall i :: 0 <= i < |all| - |kept| ==> now - all[i] >= HOUR
  }

  lemma {:induction false} RecentIsTail(starts: seq<real>, now: real)
    ensures |Recent(starts, now)| <= |starts|
    ensures Recent(starts, now) == starts[|starts| - |Recent(starts, now)|..]
    decreases |starts|
  {
    if starts != [] && now - starts[0] >= HOUR {
      RecentIsTail(starts[1..], now);
    }
  }

  lemma {:induction false} RecentDrops(starts: seq<real>, now: real, i: nat)
    requires i < |starts| - |Recent(starts, now)|
    ensures now - starts[i] >= HOUR
    decreases |starts|
  {
    RecentIsTail(starts[1..], now);
    if i > 0 {
      RecentDrops(starts[1..], now, i - 1);
    }
  }

  lemma RecentIsEnd(kept: seq<real>, all: seq<real>, now: real)
    requires EndOf(kept, all, now)
    ensures EndOf(Recent(kept, now), all, now)
  {
    RecentIsTail(kept, now);
    var r := Recent(kept, now);
    var n := |all| - |kept|;
    forall i | 0 <= i < |all| - |r| ensures now - all[i] >= HOUR {
      if i >= n {
        RecentDrops(kept, now, i - n);
        assert kept[i - n] == all[i];
      }
    }
  }

  /** The k-th start and the one `max` after it are an hour apart. */
  predicate Limited(times: seq<real>, max: nat) {
    forall i :: 0 <= i && i + max < |times| ==> times[i + max] - times[i] >= HOUR
  }

  predicate StartsOk(c: Channel, s: Settings, times: seq<real>, now: real) {
    && Ordered(times) && EndOf(c.starts, times, now)
    && (forall i :: 0 <= i < |times| ==> times[i] <= now)
    && (s.maxStarts > 0 ==> Limited(times, s.maxStarts))
  }

  lemma LimitedNext(times: seq<real>, max: nat, now: real, kept: seq<real>)
    requires Limited(times, max) && EndOf(kept, times, now) && |kept| < max
    ensures Limited(times + [now], max)
  {
    var more := times + [now];
    forall i | 0 <= i && i + max < |more| ensures more[i + max] - more[i] >= HOUR {
      if i + max < |times| {
        assert times[i + max] - times[i] >= HOUR;
      }
    }
  }

  lemma OneMoreStart(c: Channel, s: Settings, times: seq<real>, now: real)
    requires StartsOk(c, s, times, now) && c.on != Some(true)
    requires CrowdHold(c.starts, s.maxStarts, now).None?
    ensures StartsOk(Noted(c, Some(true), now), s, times + [now], now)
  {
    RecentIsEnd(c.starts, times, now);
    if s.maxStarts > 0 {
      LimitedNext(times, s.maxStarts, now, Recent(c.starts, now));
    }
  }

  lemma StartsOkLater(c: Channel, s: Settings, times: seq<real>, now: real, later: real)
    requires StartsOk(c, s, times, now) && now <= later
    ensures StartsOk(c, s, times, later)
  {
  }

  /** The start times after one more event. */
  function NextTimes(c: Channel, e: Event, times: seq<real>): seq<real> {
    if e.Write? && c.on != Some(true) && Next(c, e).on == Some(true) then times + [e.at] else times
  }

  lemma StartsOkNext(c: Channel, s: Settings, times: seq<real>, e: Event)
    requires StartsOk(c, s, times, e.at) && Allowed(c, s, e)
    ensures StartsOk(Next(c, e), s, NextTimes(c, e, times), e.at)
  {
    if e.Write? && c.on != Some(true) && e.turnsOn == Some(true) {
      assert SwitchHold(c, s, true, e.at).None?;
      OneMoreStart(c, s, times, e.at);
    } else if e.Look? {
      RecentIsEnd(c.starts, times, e.at);
    }
  }

  lemma StartTimesNext(events: seq<Event>, n: nat)
    requires |events| == n + 1
    ensures Reach(events) == Next(Reach(events[..n]), events[n])
    ensures StartTimes(events) == NextTimes(Reach(events[..n]), events[n], StartTimes(events[..n]))
  {
    ReachNext(events, n);
    OnIs(events[..n]);
    OnIs(events);
    assert events[..n + 1] == events;
    var times := StartTimes(events[..n]);
    assert times + [] == times;
  }

  lemma {:induction false} StartsStayOk(s: Settings, events: seq<Event>, now: real)
    requires Lawful(s, events)
    requires events != [] ==> events[|events| - 1].at <= now
    ensures StartsOk(Reach(events), s, StartTimes(events), now)
    decreases |events|
  {
    if events != [] {
      var n := |events| - 1;
      var e, c, times := events[n], Reach(events[..n]), StartTimes(events[..n]);
      LawfulPrefix(s, events, n);
      if n > 0 {
        assert events[n - 1].at <= e.at;
      }
      StartsStayOk(s, events[..n], e.at);
      assert Allowed(c, s, e);
      StartsOkNext(c, s, times, e);
      StartTimesNext(events, n);
      StartsOkLater(Reach(events), s, StartTimes(events), e.at, now);
    }
  }

  /** How many of `times` fall in the hour that begins at `from`. */
  function CountIn(times: seq<real>, from: real): nat {
    if times == [] then 0
    else (if from <= times[0] < from + 3600.0 then 1 else 0) + CountIn(times[1..], from)
  }

  lemma {:induction false} CountAppend(a: seq<real>, b: seq<real>, from: real)
    ensures CountIn(a + b, from) == CountIn(a, from) + CountIn(b, from)
    ensures CountIn(a, from) <= |a|
  {
    if a == [] {
      assert a + b == b;
    } else {
      assert (a + b)[0] == a[0] && (a + b)[1..] == a[1..] + b;
      CountAppend(a[1..], b, from);
    }
  }

  lemma {:induction false} CountLate(times: seq<real>, from: real)
    requires forall i :: 0 <= i < |times| ==> times[i] >= from + HOUR
    ensures CountIn(times, from) == 0
  {
    if times != [] {
      CountLate(times[1..], from);
    }
  }

  lemma {:induction false} AtMostInAnHour(times: seq<real>, max: nat, from: real)
    requires Ordered(times) && Limited(times, max)
    ensures CountIn(times, from) <= max
    decreases |times|
  {
    if times == [] {
    } else if times[0] < from {
      var rest := times[1..];
      forall i | 0 <= i && i + max < |rest| ensures rest[i + max] - rest[i] >= HOUR {
        assert times[i + 1 + max] - times[i + 1] >= HOUR;
      }
      AtMostInAnHour(rest, max, from);
    } else if |times| <= max {
      CountAppend(times, [], from);
      assert times + [] == times;
    } else {
      assert times[0 + max] - times[0] >= HOUR;
      assert times == times[..max] + times[max..];
      CountAppend(times[..max], times[max..], from);
      forall i | max <= i < |times| ensures times[i] >= from + HOUR {
        assert times[max] <= times[i];
      }
      CountLate(times[max..], from);
    }
  }

  /** No hour, wherever it begins, holds more starts than allowed. */
  lemma StartsAreLimited(s: Settings, events: seq<Event>, from: real)
    requires Lawful(s, events) && s.maxStarts > 0
    ensures CountIn(StartTimes(events), from) <= s.maxStarts
  {
    var now := if events == [] then 0.0 else events[|events| - 1].at;
    StartsStayOk(s, events, now);
    AtMostInAnHour(StartTimes(events), s.maxStarts, from);
  }

  // ---- exactly when a write is held ----

  datatype Which = Writes | Ons | Offs

  /** Event `k` is a write, turns the channel on, or turns it off. */
  predicate Is(which: Which, events: seq<Event>, k: nat)
    requires k < |events|
  {
    match which
    case Writes => events[k].Write?
    case Ons => TurnsOn(events, k)
    case Offs => TurnsOff(events, k)
  }

  lemma IsBefore(which: Which, events: seq<Event>, n: nat, k: nat)
    requires k < n <= |events|
    ensures Is(which, events[..n], k) <==> Is(which, events, k)
  {
    assert events[..n][..k] == events[..k] && events[..n][..k + 1] == events[..k + 1];
  }

  /** The instant is that of the latest such event, if there is one. */
  ghost predicate Latest(since: Option<real>, which: Which, events: seq<Event>) {
    && (forall k: nat :: k < |events| && Is(which, events, k) ==> since.Some? && events[k].at <= since.value)
    && (since.Some? ==> exists k: nat :: k < |events| && Is(which, events, k) && events[k].at == since.value)
  }

  predicate Clocked(events: seq<Event>, now: real) {
    && (forall i, j :: 0 <= i < j < |events| ==> events[i].at <= events[j].at)
    && (forall i :: 0 <= i < |events| ==> events[i].at <= now)
  }

  /** One more event: it is the latest of its kind, or the latest stays. */
  lemma LatestNext(was: Option<real>, since: Option<real>, which: Which, events: seq<Event>)
    requires events != [] && Clocked(events, events[|events| - 1].at)
    requires Latest(was, which, events[..|events| - 1])
    requires since == if Is(which, events, |events| - 1) then Some(events[|events| - 1].at) else was
    ensures Latest(since, which, events)
  {
    if Is(which, events, |events| - 1) {
      LatestNew(which, events);
    } else {
      LatestSame(was, which, events);
    }
  }

  lemma LatestSame(since: Option<real>, which: Which, events: seq<Event>)
    requires events != [] && Latest(since, which, events[..|events| - 1]) && !Is(which, events, |events| - 1)
    ensures Latest(since, which, events)
  {
    var n := |events| - 1;
    forall k: nat | k < |events| && Is(which, events, k) ensures since.Some? && events[k].at <= since.value {
      IsBefore(which, events, n, k);
      assert events[..n][k] == events[k];
    }
    if since.Some? {
      var k: nat :| k < n && Is(which, events[..n], k) && events[..n][k].at == since.value;
      IsBefore(which, events, n, k);
    }
  }

  lemma LatestNew(which: Which, events: seq<Event>)
    requires events != [] && Clocked(events, events[|events| - 1].at) && Is(which, events, |events| - 1)
    ensures Latest(Some(events[|events| - 1].at), which, events)
  {
  }

  /** What the channel keeps are the instants of the latest write and, unless it is
      off, of the latest event that turned it on, and the other way round. */
  ghost predicate KeepsLatest(events: seq<Event>, c: Channel) {
    && c.on == OnOf(events)
    && Latest(c.lastWrite, Writes, events)
    && (c.on != Some(false) ==> Latest(c.onSince, Ons, events))
    && (c.on != Some(true) ==> Latest(c.offSince, Offs, events))
  }

  lemma KeepsWrites(events: seq<Event>, c: Channel)
    requires events != [] && Clocked(events, events[|events| - 1].at)
    requires Latest(c.lastWrite, Writes, events[..|events| - 1])
    ensures Latest(Next(c, events[|events| - 1]).lastWrite, Writes, events)
  {
    LatestNext(c.lastWrite, Next(c, events[|events| - 1]).lastWrite, Writes, events);
  }

  lemma KeepsOns(events: seq<Event>, c: Channel)
    requires events != [] && Clocked(events, events[|events| - 1].at) && c.on == OnOf(events[..|events| - 1])
    requires c.on != Some(false) ==> Latest(c.onSince, Ons, events[..|events| - 1])
    ensures Next(c, events[|events| - 1]).on != Some(false) ==> Latest(Next(c, events[|events| - 1]).onSince, Ons, events)
  {
    var n := |events| - 1;
    var d := Next(c, events[n]);
    assert events[..n + 1] == events;
    if d.on == Some(true) && c.on != Some(true) {
      LatestNew(Ons, events);
    } else if d.on != Some(false) {
      LatestNext(c.onSince, d.onSince, Ons, events);
    }
  }

  lemma KeepsOffs(events: seq<Event>, c: Channel)
    requires events != [] && Clocked(events, events[|events| - 1].at) && c.on == OnOf(events[..|events| - 1])
    requires c.on != Some(true) ==> Latest(c.offSince, Offs, events[..|events| - 1])
    ensures Next(c, events[|events| - 1]).on != Some(true) ==> Latest(Next(c, events[|events| - 1]).offSince, Offs, events)
  {
    var n := |events| - 1;
    var d := Next(c, events[n]);
    assert events[..n + 1] == events;
    if d.on == Some(false) && c.on != Some(false) {
      LatestNew(Offs, events);
    } else if d.on != Some(true) {
      LatestNext(c.offSince, d.offSince, Offs, events);
    }
  }

  lemma OnNext(events: seq<Event>, c: Channel)
    requires events != [] && c.on == OnOf(events[..|events| - 1])
    ensures Next(c, events[|events| - 1]).on == OnOf(events)
  {
  }

  lemma KeepsNext(events: seq<Event>, c: Channel)
    requires events != [] && Clocked(events, events[|events| - 1].at)
    requires KeepsLatest(events[..|events| - 1], c)
    ensures KeepsLatest(events, Next(c, events[|events| - 1]))
  {
    OnNext(events, c);
    KeepsWrites(events, c);
    KeepsOns(events, c);
    KeepsOffs(events, c);
  }

  lemma {:induction false} ReachKeepsLatest(events: seq<Event>, now: real)
    requires Clocked(events, now)
    ensures KeepsLatest(events, Reach(events))
    decreases |events|
  {
    if events != [] {
      var n := |events| - 1;
      assert Clocked(events[..n], events[n].at);
      ReachKeepsLatest(events[..n], events[n].at);
      KeepsNext(events, Reach(events[..n]));
    }
  }

  lemma RemainingExactly(limit: real, since: Option<real>, now: real, reason: Reason, which: Which, events: seq<Event>)
    requires Latest(since, which, events) && Clocked(events, now)
    ensures Remaining(limit, since, now, reason).None? <==>
            forall k: nat :: k < |events| && Is(which, events, k) ==> now - events[k].at >= limit
  {
    if since.Some? {
      var k: nat :| k < |events| && Is(which, events, k) && events[k].at == since.value;
      assert now - events[k].at >= 0.0;
    }
  }

  /** How many of some instants are less than an hour old. */
  function Young(times: seq<real>, now: real): nat {
    if times == [] then 0 else (if now - times[0] < 3600.0 then 1 else 0) + Young(times[1..], now)
  }

  lemma {:induction false} YoungAdd(a: seq<real>, b: seq<real>, now: real)
    ensures Young(a + b, now) == Young(a, now) + Young(b, now)
  {
    if a == [] {
      assert a + b == b;
    } else {
      assert (a + b)[0] == a[0] && (a + b)[1..] == a[1..] + b;
      YoungAdd(a[1..], b, now);
    }
  }

  lemma {:induction false} NoneYoung(times: seq<real>, now: real)
    requires forall i :: 0 <= i < |times| ==> now - times[i] >= 3600.0
    ensures Young(times, now) == 0
  {
    if times != [] {
      NoneYoung(times[1..], now);
    }
  }

  lemma {:induction false} AllYoung(times: seq<real>, now: real)
    requires forall i :: 0 <= i < |times| ==> now - times[i] < 3600.0
    ensures Young(times, now) == |times|
  {
    if times != [] {
      AllYoung(times[1..], now);
    }
  }

  lemma RecentAreYoung(kept: seq<real>, all: seq<real>, now: real)
    requires Ordered(all) && EndOf(kept, all, now)
    ensures |Recent(kept, now)| == Young(all, now)
  {
    var r := Recent(kept, now);
    RecentIsEnd(kept, all, now);
    var n := |all| - |r|;
    assert all == all[..n] + all[n..] && all[n..] == r;
    YoungAdd(all[..n], r, now);
    NoneYoung(all[..n], now);
    if r != [] {
      RecentFirst(kept, now);
      forall i | 0 <= i < |r| ensures now - r[i] < 3600.0 {
        assert r[0] == all[n] && r[i] == all[n + i];
      }
    }
    AllYoung(r, now);
  }

  const FREE := Settings(0.0, 0.0, 0.0, 0)

  lemma FreeIsLawful(events: seq<Event>, now: real)
    requires Clocked(events, now)
    ensures Lawful(FREE, events)
  {
  }

  lemma CrowdExactly(events: seq<Event>, max: nat, now: real)
    requires Clocked(events, now)
    ensures CrowdHold(Reach(events).starts, max, now).None? <==> max == 0 || Young(StartTimes(events), now) < max
  {
    FreeIsLawful(events, now);
    StartsStayOk(FREE, events, now);
    RecentAreYoung(Reach(events).starts, StartTimes(events), now);
  }

  /** No hold but the interval keeps back a write that leaves the channel `v`: a stop
      is free the run time after the latest start, a start the stop time after the
      latest stop, and with fewer starts in the last hour than allowed. */
  ghost predicate SwitchIsFree(events: seq<Event>, s: Settings, v: bool, now: real) {
    if v then
      && (forall k: nat :: k < |events| && TurnsOff(events, k) ==> now - events[k].at >= s.minOff)
      && (s.maxStarts == 0 || Young(StartTimes(events), now) < s.maxStarts)
    else forall k: nat :: k < |events| && TurnsOn(events, k) ==> now - events[k].at >= s.minOn
  }

  lemma SwitchExactly(events: seq<Event>, s: Settings, v: bool, now: real)
    requires Clocked(events, now) && OnOf(events) != Some(v)
    ensures SwitchHold(Reach(events), s, v, now).None? <==> SwitchIsFree(events, s, v, now)
  {
    var c := Reach(events);
    ReachKeepsLatest(events, now);
    if v {
      RemainingExactly(s.minOff, c.offSince, now, StopTime, Offs, events);
      CrowdExactly(events, s.maxStarts, now);
      assert forall k: nat :: k < |events| ==> (Is(Offs, events, k) <==> TurnsOff(events, k));
    } else {
      RemainingExactly(s.minOn, c.onSince, now, RunTime, Ons, events);
      assert forall k: nat :: k < |events| ==> (Is(Ons, events, k) <==> TurnsOn(events, k));
    }
  }

  /** Exactly when a channel that any events led to is free to be written: the
      interval after every write, and where the write changes on or off, the
      protection of that. */
  lemma HeldExactly(events: seq<Event>, s: Settings, turnsOn: Option<bool>, now: real)
    requires Clocked(events, now)
    ensures HoldOf(Reach(events), s, turnsOn, now).None? <==>
            && (forall k: nat :: k < |events| && events[k].Write? ==> now - events[k].at >= s.minInterval)
            && (turnsOn.None? || turnsOn == OnOf(events) || SwitchIsFree(events, s, turnsOn.value, now))
  {
    var c := Reach(events);
    ReachKeepsLatest(events, now);
    RemainingExactly(s.minInterval, c.lastWrite, now, Interval, Writes, events);
    assert forall k: nat :: k < |events| ==> (Is(Writes, events, k) <==> events[k].Write?);
    if turnsOn.Some? && turnsOn != OnOf(events) {
      SwitchExactly(events, s, turnsOn.value, now);
    }
  }

  lemma SpacedExactly(events: seq<Event>, limit: real, now: real)
    requires Clocked(events, now)
    ensures Remaining(limit, Reach(events).lastWrite, now, Interval).None? <==>
            forall k: nat :: k < |events| && events[k].Write? ==> now - events[k].at >= limit
  {
    ReachKeepsLatest(events, now);
    RemainingExactly(limit, Reach(events).lastWrite, now, Interval, Writes, events);
    assert forall k: nat :: k < |events| ==> (Is(Writes, events, k) <==> events[k].Write?);
  }

  lemma RestedExactly(events: seq<Event>, limit: real, now: real)
    requires Clocked(events, now) && OnOf(events) != Some(true)
    ensures Remaining(limit, Reach(events).offSince, now, StopTime).None? <==>
            forall k: nat :: k < |events| && TurnsOff(events, k) ==> now - events[k].at >= limit
  {
    ReachKeepsLatest(events, now);
    RemainingExactly(limit, Reach(events).offSince, now, StopTime, Offs, events);
    assert forall k: nat :: k < |events| ==> (Is(Offs, events, k) <==> TurnsOff(events, k));
  }

  lemma ReasonIs(c: Channel, s: Settings, turnsOn: Option<bool>, now: real)
    requires HoldOf(c, s, turnsOn, now).Some?
    ensures HoldOf(c, s, turnsOn, now).value.reason ==
            if Remaining(s.minInterval, c.lastWrite, now, Interval).Some? then Interval
            else if turnsOn == Some(false) then RunTime
            else if Remaining(s.minOff, c.offSince, now, StopTime).Some? then StopTime
            else Starts
    ensures Remaining(s.minInterval, c.lastWrite, now, Interval).None? ==> turnsOn.Some? && turnsOn != c.on
  {
  }

  /** Which reason is told: the interval when a write is too recent, else of a stop the run
      time, of a start the stop time when a stop is too recent, else the starts. */
  lemma ReasonTold(events: seq<Event>, s: Settings, turnsOn: Option<bool>, now: real)
    requires Clocked(events, now) && HoldOf(Reach(events), s, turnsOn, now).Some?
    ensures
      var spaced := forall k: nat :: k < |events| && events[k].Write? ==> now - events[k].at >= s.minInterval;
      var rested := forall k: nat :: k < |events| && TurnsOff(events, k) ==> now - events[k].at >= s.minOff;
      HoldOf(Reach(events), s, turnsOn, now).value.reason ==
        if !spaced then Interval else if turnsOn == Some(false) then RunTime else if !rested then StopTime else Starts
  {
    ReachKeepsLatest(events, now);
    ReasonIs(Reach(events), s, turnsOn, now);
    SpacedExactly(events, s.minInterval, now);
    if turnsOn == Some(true) && OnOf(events) != Some(true) {
      RestedExactly(events, s.minOff, now);
    }
  }

  // ---- waiting ----

  lemma {:induction false} RecentShrinks(starts: seq<real>, now: real, later: real)
    requires now <= later
    ensures Recent(Recent(starts, now), later) == Recent(starts, later)
    ensures |Recent(starts, later)| <= |Recent(starts, now)|
    decreases |starts|
  {
    RecentIsTail(starts, later);
    if starts != [] && now - starts[0] >= HOUR {
      RecentShrinks(starts[1..], now, later);
    }
  }

  lemma CrowdStaysClear(starts: seq<real>, max: nat, now: real, later: real)
    requires CrowdHold(starts, max, now).None? && now <= later
    ensures CrowdHold(starts, max, later).None?
  {
    RecentShrinks(starts, now, later);
  }

  /** A hold that has cleared stays clear as long as nothing is written or learnt. */
  lemma ClearStaysClear(c: Channel, s: Settings, turnsOn: Option<bool>, now: real, later: real)
    requires HoldOf(c, s, turnsOn, now).None? && now <= later
    ensures HoldOf(c, s, turnsOn, later).None?
  {
    assert Remaining(s.minInterval, c.lastWrite, later, Interval).None?;
    if turnsOn == Some(true) && turnsOn != c.on {
      CrowdStaysClear(c.starts, s.maxStarts, now, later);
    }
  }

  lemma CrowdAfterLook(starts: seq<real>, max: nat, now: real, later: real)
    requires now <= later
    ensures CrowdHold(Recent(starts, now), max, later) == CrowdHold(starts, max, later)
  {
    RecentShrinks(starts, now, later);
  }

  /** Looking, or asking earlier, changes no later answer. */
  lemma LookingChangesNothing(c: Channel, s: Settings, turnsOn: Option<bool>, now: real, later: real)
    requires now <= later
    ensures HoldOf(Next(c, Look(now)), s, turnsOn, later) == HoldOf(c, s, turnsOn, later)
  {
    CrowdAfterLook(c.starts, s.maxStarts, now, later);
  }

  /** How many starts at the front are no later than `t`. */
  function Leading(starts: seq<real>, t: real): nat {
    if starts != [] && starts[0] <= t then 1 + Leading(starts[1..], t) else 0
  }

  lemma {:induction false} LeadingLeave(starts: seq<real>, t: real)
    ensures |Recent(starts, t + HOUR)| == |starts| - Leading(starts, t)
  {
    if starts != [] && starts[0] <= t {
      LeadingLeave(starts[1..], t);
    }
  }

  lemma {:induction false} RecentFirst(starts: seq<real>, now: real)
    requires Recent(starts, now) != []
    ensures now - Recent(starts, now)[0] < HOUR
  {
    if starts != [] && now - starts[0] >= HOUR {
      RecentFirst(starts[1..], now);
    }
  }

  lemma CrowdWaitEnds(starts: seq<real>, max: nat, now: real)
    requires CrowdHold(starts, max, now).Some?
    ensures
      var left, recent := CrowdHold(starts, max, now).value.left, Recent(starts, now);
      left > 0.0 && recent != [] &&
      (CrowdHold(starts, max, now + left).None? <==> |recent| - Leading(recent, recent[0]) < max)
  {
    var recent := Recent(starts, now);
    RecentFirst(starts, now);
    LeadingLeave(recent, recent[0]);
    RecentShrinks(starts, now, recent[0] + HOUR);
    assert now + (HOUR - (now - recent[0])) == recent[0] + HOUR;
  }

  /** The wait is positive, and when it ends the reason given for it is gone;
      for the starts limit, exactly when few enough starts remain once those
      of the oldest instant are an hour old. */
  lemma WaitEndsTheReason(c: Channel, s: Settings, turnsOn: Option<bool>, now: real)
    requires HoldOf(c, s, turnsOn, now).Some?
    ensures
      var h := HoldOf(c, s, turnsOn, now).value;
      var after := HoldOf(c, s, turnsOn, now + h.left);
      var recent := Recent(c.starts, now);
      && h.left > 0.0
      && (h.reason != Starts ==> after.None? || after.value.reason != h.reason)
      && (h.reason == Starts ==>
            recent != [] &&
            (after.None? <==> |recent| - Leading(recent, recent[0]) < s.maxStarts))
  {
    var h := HoldOf(c, s, turnsOn, now).value;
    if h.reason == Starts {
      CrowdWaitEnds(c.starts, s.maxStarts, now);
      var later := now + h.left;
      assert Remaining(s.minInterval, c.lastWrite, later, Interval).None?;
      assert Remaining(s.minOff, c.offSince, later, StopTime).None?;
    }
  }

  lemma CrowdLeft(starts: seq<real>, max: nat, now: real, d: real)
    requires CrowdHold(starts, max, now).Some? && 0.0 <= d < CrowdHold(starts, max, now).value.left
    ensures var h, later := CrowdHold(starts, max, now).value, CrowdHold(starts, max, now + d);
            later.Some? && later.value == Hold(Starts, h.left - d)
  {
    var recent := Recent(starts, now);
    RecentShrinks(starts, now, now + d);
    assert now + d - recent[0] < HOUR;
    assert Recent(recent, now + d) == recent;
  }

  /** And it is no longer than it has to be: until then the same reason holds, with
      what is left of the wait. */
  lemma WaitIsLeast(c: Channel, s: Settings, turnsOn: Option<bool>, now: real, d: real)
    requires HoldOf(c, s, turnsOn, now).Some? && 0.0 <= d < HoldOf(c, s, turnsOn, now).value.left
    ensures var h := HoldOf(c, s, turnsOn, now).value;
            HoldOf(c, s, turnsOn, now + d) == Some(Hold(h.reason, h.left - d))
  {
    if HoldOf(c, s, turnsOn, now).value.reason == Starts {
      CrowdLeft(c.starts, s.maxStarts, now, d);
    }
  }

  lemma YoungIsAmongTheLast(times: seq<real>, max: nat, i: nat, now: real)
    requires Limited(times, max) && i < |times|
    requires forall k :: 0 <= k < |times| ==> times[k] <= now
    ensures now - times[i] < HOUR ==> |times| - i <= max
  {
    if i + max < |times| {
      assert times[i + max] - times[i] >= HOUR;
    }
  }

  lemma RecentWithin(s: Settings, c: Channel, times: seq<real>, now: real)
    requires StartsOk(c, s, times, now) && s.maxStarts > 0
    ensures |Recent(c.starts, now)| <= s.maxStarts
  {
    var recent, max := Recent(c.starts, now), s.maxStarts;
    RecentIsEnd(c.starts, times, now);
    if recent != [] {
      RecentFirst(c.starts, now);
      var i := |times| - |recent|;
      assert times[i] == recent[0];
      YoungIsAmongTheLast(times, max, i, now);
    }
  }

  lemma FewWaitsEnd(s: Settings, c: Channel, now: real)
    requires HoldOf(c, s, Some(true), now).Some?
    requires HoldOf(c, s, Some(true), now).value.reason == Starts
    requires |Recent(c.starts, now)| <= s.maxStarts
    ensures HoldOf(c, s, Some(true), now + HoldOf(c, s, Some(true), now).value.left).None?
  {
    WaitEndsTheReason(c, s, Some(true), now);
    LeadingOne(Recent(c.starts, now));
  }

  /** Under fixed settings the list never exceeds the limit. */
  lemma RecentIsLimited(s: Settings, events: seq<Event>, now: real)
    requires Lawful(s, events) && s.maxStarts > 0
    requires events != [] ==> events[|events| - 1].at <= now
    ensures |Recent(Reach(events).starts, now)| <= s.maxStarts
  {
    StartsStayOk(s, events, now);
    RecentWithin(s, Reach(events), StartTimes(events), now);
  }

  /** So the wait for the starts limit always ends it. */
  lemma LawfulWaitsEnd(s: Settings, events: seq<Event>, c: Channel, now: real)
    requires Lawful(s, events) && c == Reach(events)
    requires events != [] ==> events[|events| - 1].at <= now
    requires HoldOf(c, s, Some(true), now).Some? && HoldOf(c, s, Some(true), now).value.reason == Starts
    ensures HoldOf(c, s, Some(true), now + HoldOf(c, s, Some(true), now).value.left).None?
  {
    RecentIsLimited(s, events, now);
    FewWaitsEnd(s, c, now);
  }

  lemma OneMore(s: Settings, events: seq<Event>, c: Channel, e: Event)
    requires Lawful(s, events) && c == Reach(events) && Allowed(c, s, e)
    requires events != [] ==> events[|events| - 1].at <= e.at
    ensures Lawful(s, events + [e]) && Reach(events + [e]) == Next(c, e)
  {
    ReachMore(events, e);
    ClockMore(s, events, e);
    AllowedMore(s, events, e);
  }

  lemma AllowedMore(s: Settings, events: seq<Event>, e: Event)
    requires Lawful(s, events) && Allowed(Reach(events), s, e)
    ensures
      var more := events + [e];
      forall k {:trigger Allowed(Reach(more[..k]), s, more[k])} ::
        0 <= k < |more| ==> Allowed(Reach(more[..k]), s, more[k])
  {
    forall k | 0 <= k < |events + [e]| ensures Allowed(Reach((events + [e])[..k]), s, (events + [e])[k]) {
      StillAllowed(s, events, e, k);
    }
  }

  lemma ReachMore(events: seq<Event>, e: Event)
    ensures Reach(events + [e]) == Next(Reach(events), e)
  {
    assert (events + [e])[..|events|] == events;
  }

  lemma ClockMore(s: Settings, events: seq<Event>, e: Event)
    requires Lawful(s, events) && (events != [] ==> events[|events| - 1].at <= e.at)
    ensures forall i, j :: 0 <= i < j < |events + [e]| ==> (events + [e])[i].at <= (events + [e])[j].at
  {
    var n := |events|;
    forall i | 0 <= i < n ensures events[i].at <= e.at {
      assert i < n - 1 ==> events[i].at <= events[n - 1].at;
    }
  }

  lemma StillAllowed(s: Settings, events: seq<Event>, e: Event, k: nat)
    requires Lawful(s, events) && Allowed(Reach(events), s, e) && k <= |events|
    ensures Allowed(Reach((events + [e])[..k]), s, (events + [e])[k])
  {
    if k < |events| {
      assert (events + [e])[..k] == events[..k];
      assert Allowed(Reach(events[..k]), s, events[k]);
    } else {
      assert (events + [e])[..k] == events;
    }
  }

  /** The settings before and after a limit of starts was lowered. */
  const WAS := Settings(0.0, 0.0, 0.0, 3)
  const LOWERED := Settings(0.0, 0.0, 0.0, 1)

  /** Two starts, and a stop after each. */
  const TWO_STARTS: seq<Event> :=
    [Write(Some(true), 0.0)] + [Write(Some(false), 1.0)] + [Write(Some(true), 2.0)] + [Write(Some(false), 3.0)]

  /** The limit of starts was lowered under a channel that had used more of them:
      the wait that is answered then does not end the hold. */
  lemma LoweredLimitHoldsOn()
    ensures Lawful(WAS, TWO_STARTS)
    ensures
      var c := Reach(TWO_STARTS);
      && HoldOf(c, LOWERED, Some(true), 10.0) == Some(Hold(Starts, 3590.0))
      && HoldOf(c, LOWERED, Some(true), 10.0 + 3590.0) == Some(Hold(Starts, 2.0))
  {
    TwoStartsLeave();
    var starts := [0.0, 2.0];
    assert starts[1..] == [2.0] && Recent(starts, 10.0) == starts;
    assert Recent(starts, 3600.0) == Recent([2.0], 3600.0) == [2.0];
  }

  const ONCE := Channel(Some(true), Some(0.0), None, [0.0], Some(0.0))
  const STOPPED := Channel(Some(false), None, Some(1.0), [0.0], Some(1.0))
  const TWICE := Channel(Some(true), Some(2.0), None, [0.0, 2.0], Some(2.0))

  lemma EachIsAllowed()
    ensures Allowed(UNKNOWN, WAS, Write(Some(true), 0.0)) && Next(UNKNOWN, Write(Some(true), 0.0)) == ONCE
    ensures Allowed(ONCE, WAS, Write(Some(false), 1.0)) && Next(ONCE, Write(Some(false), 1.0)) == STOPPED
    ensures Allowed(STOPPED, WAS, Write(Some(true), 2.0)) && Next(STOPPED, Write(Some(true), 2.0)) == TWICE
    ensures Allowed(TWICE, WAS, Write(Some(false), 3.0))
  {
    assert Recent([0.0], 2.0) == [0.0];
    assert [] + [0.0] == [0.0] && [0.0] + [2.0] == [0.0, 2.0];
  }

  lemma TwoStartsLeave()
    ensures Lawful(WAS, TWO_STARTS)
    ensures Reach(TWO_STARTS) == Channel(Some(false), None, Some(3.0), [0.0, 2.0], Some(3.0))
  {
    EachIsAllowed();
    var on, off, on2 := Write(Some(true), 0.0), Write(Some(false), 1.0), Write(Some(true), 2.0);
    OneMore(WAS, [], UNKNOWN, on);
    assert [] + [on] == [on];
    OneMore(WAS, [on], ONCE, off);
    OneMore(WAS, [on] + [off], STOPPED, on2);
    OneMore(WAS, [on] + [off] + [on2], TWICE, Write(Some(false), 3.0));
  }

  lemma LeadingOne(starts: seq<real>)
    requires starts != []
    ensures Leading(starts, starts[0]) >= 1
  {
  }

  // ---- the copy a partner gateway keeps ----

  /** Instants travel as ages. */
  datatype Mirror = Mirror(
    on: Option<bool>, onAge: Option<real>, offAge: Option<real>,
    startAges: seq<real>, writeAge: Option<real>)

  function Age(t: Option<real>, now: real): Option<real> {
    if t.Some? then Some(now - t.value) else None
  }

  function Ages(times: seq<real>, now: real): (r: seq<real>)
    ensures |r| == |times| && forall i :: 0 <= i < |r| ==> r[i] == now - times[i]
  {
    if times == [] then [] else [now - times[0]] + Ages(times[1..], now)
  }

  function ExportMirror(c: Channel, now: real): Mirror {
    Mirror(c.on, Age(c.onSince, now), Age(c.offSince, now), Ages(c.starts, now), Age(c.lastWrite, now))
  }

  function FromMirror(m: Mirror, now: real): Channel {
    Channel(m.on, Age(m.onAge, now), Age(m.offAge, now), Ages(m.startAges, now), Age(m.writeAge, now))
  }

  function Later(e: Event, ahead: real): Event {
    match e
    case Write(v, t) => Write(v, t + ahead)
    case Learn(v, t) => Learn(v, t + ahead)
    case Look(t) => Look(t + ahead)
  }

  /** The same channel on a clock that is `ahead` of it. */
  predicate Shifted(c: Channel, d: Channel, ahead: real) {
    && c.on == d.on && |c.starts| == |d.starts|
    && Moved(c.onSince, d.onSince, ahead) && Moved(c.offSince, d.offSince, ahead) && Moved(c.lastWrite, d.lastWrite, ahead)
    && forall i :: 0 <= i < |c.starts| ==> d.starts[i] == c.starts[i] + ahead
  }

  predicate Moved(t: Option<real>, u: Option<real>, ahead: real) {
    t.Some? == u.Some? && (t.Some? ==> u.value == t.value + ahead)
  }

  lemma MirrorIsShifted(c: Channel, here: real, there: real)
    ensures Shifted(c, FromMirror(ExportMirror(c, here), there), there - here)
  {
  }

  lemma {:induction false} RecentShifted(a: seq<real>, b: seq<real>, ahead: real, now: real)
    requires |a| == |b| && forall i :: 0 <= i < |a| ==> b[i] == a[i] + ahead
    ensures |Recent(b, now + ahead)| == |Recent(a, now)|
    ensures forall i :: 0 <= i < |Recent(a, now)| ==> Recent(b, now + ahead)[i] == Recent(a, now)[i] + ahead
    decreases |a|
  {
    if a != [] && now - a[0] >= HOUR {
      RecentShifted(a[1..], b[1..], ahead, now);
    }
  }

  lemma CrowdShifted(a: seq<real>, b: seq<real>, ahead: real, max: nat, now: real)
    requires |a| == |b| && forall i :: 0 <= i < |a| ==> b[i] == a[i] + ahead
    ensures CrowdHold(b, max, now + ahead) == CrowdHold(a, max, now)
  {
    RecentShifted(a, b, ahead, now);
  }

  lemma RemainingShifted(limit: real, t: Option<real>, u: Option<real>, ahead: real, now: real, reason: Reason)
    requires Moved(t, u, ahead)
    ensures Remaining(limit, u, now + ahead, reason) == Remaining(limit, t, now, reason)
  {
  }

  lemma ShiftedHolds(c: Channel, d: Channel, ahead: real, s: Settings, turnsOn: Option<bool>, now: real)
    requires Shifted(c, d, ahead)
    ensures HoldOf(d, s, turnsOn, now + ahead) == HoldOf(c, s, turnsOn, now)
  {
    RemainingShifted(s.minInterval, c.lastWrite, d.lastWrite, ahead, now, Interval);
    RemainingShifted(s.minOn, c.onSince, d.onSince, ahead, now, RunTime);
    RemainingShifted(s.minOff, c.offSince, d.offSince, ahead, now, StopTime);
    CrowdShifted(c.starts, d.starts, ahead, s.maxStarts, now);
  }

  lemma ShiftedWrite(c: Channel, d: Channel, ahead: real, e: Event, f: Event)
    requires Shifted(c, d, ahead) && e.Write? && f == Later(e, ahead)
    ensures Shifted(Next(c, e), Next(d, f), ahead)
  {
  }

  lemma ShiftedLearn(c: Channel, d: Channel, ahead: real, e: Event, f: Event)
    requires Shifted(c, d, ahead) && e.Learn? && f == Later(e, ahead)
    ensures Shifted(Next(c, e), Next(d, f), ahead)
  {
  }

  lemma ShiftedLook(c: Channel, d: Channel, ahead: real, e: Event, f: Event)
    requires Shifted(c, d, ahead) && e.Look? && f == Later(e, ahead)
    ensures Shifted(Next(c, e), Next(d, f), ahead)
  {
    RecentShifted(c.starts, d.starts, ahead, e.at);
  }

  lemma ShiftedNext(c: Channel, d: Channel, ahead: real, e: Event, f: Event)
    requires Shifted(c, d, ahead) && f == Later(e, ahead)
    ensures Shifted(Next(c, e), Next(d, f), ahead)
  {
    if e.Write? {
      ShiftedWrite(c, d, ahead, e, f);
    } else if e.Learn? {
      ShiftedLearn(c, d, ahead, e, f);
    } else {
      ShiftedLook(c, d, ahead, e, f);
    }
  }

  function Onwards(c: Channel, events: seq<Event>): Channel
    decreases |events|
  {
    if events == [] then c else Onwards(Next(c, events[0]), events[1..])
  }

  function AllLater(events: seq<Event>, ahead: real): (r: seq<Event>)
    ensures |r| == |events|
  {
    if events == [] then [] else [Later(events[0], ahead)] + AllLater(events[1..], ahead)
  }

  lemma {:induction false} ShiftedOnwards(c: Channel, d: Channel, ahead: real, events: seq<Event>)
    requires Shifted(c, d, ahead)
    ensures Shifted(Onwards(c, events), Onwards(d, AllLater(events, ahead)), ahead)
    decreases |events|
  {
    if events != [] {
      ShiftedNext(c, d, ahead, events[0], Later(events[0], ahead));
      ShiftedOnwards(Next(c, events[0]), Next(d, Later(events[0], ahead)), ahead, events[1..]);
    }
  }

  /** Mirroring changes no decision: whatever happens after the hand-over, the
      partner's copy answers at each instant as the original would have. */
  lemma MirrorDecidesAlike(c: Channel, here: real, there: real, events: seq<Event>,
                           s: Settings, turnsOn: Option<bool>, now: real)
    ensures
      var copy := FromMirror(ExportMirror(c, here), there);
      HoldOf(Onwards(copy, AllLater(events, there - here)), s, turnsOn, now + (there - here))
        == HoldOf(Onwards(c, events), s, turnsOn, now)
  {
    var copy, ahead := FromMirror(ExportMirror(c, here), there), there - here;
    MirrorIsShifted(c, here, there);
    ShiftedOnwards(c, copy, ahead, events);
    ShiftedHolds(Onwards(c, events), Onwards(copy, AllLater(events, ahead)), ahead, s, turnsOn, now);
  }
}
