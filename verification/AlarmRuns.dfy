/** One alarm over any run of rounds, from the start or from when it was last
    forgotten, with a fixed hold time and a clock that never runs back. */
module AlarmRuns {
  import opened Prelude
  import opened Alarms

  predicate Clocked(rounds: seq<Round>) {
    forall i, j :: 0 <= i < j < |rounds| ==> rounds[i].at <= rounds[j].at
  }

  function After(rounds: seq<Round>, forS: real): Option<Alarm> {
    if rounds == [] then None
    else Step(After(rounds[..|rounds| - 1], forS), rounds[|rounds| - 1], forS).0
  }

  /** What round `k` sends. */
  function SentAt(rounds: seq<Round>, forS: real, k: nat): seq<Notice>
    requires k < |rounds|
  {
    Step(After(rounds[..k], forS), rounds[k], forS).1
  }

  /** The value last announced and not cleared since. */
  function Announced(rounds: seq<Round>, forS: real): Option<Name> {
    if rounds == [] then None
    else
      var n := |rounds| - 1;
      var sent := SentAt(rounds, forS, n);
      if sent == [] then Announced(rounds[..n], forS)
      else if sent[0].Raised? then Some(sent[0].value)
      else None
  }

  /** The alarm is active or unknown in rounds i..n. */
  predicate NeverAway(rounds: seq<Round>, i: nat, n: nat)
    requires n <= |rounds|
  {
    forall j :: i <= j < n ==> rounds[j].active.Some? || !rounds[j].known
  }

  /** What is remembered after some rounds, in terms of the rounds. */
  ghost predicate Remembers(rounds: seq<Round>, forS: real, a: Alarm, now: real) {
    && (a.fired ==> now - a.since >= forS)
    && (!a.fired ==> exists i: nat :: Begins(rounds, a.since, i))
    && (a.clearSince.Some? ==> a.fired && forall j :: 0 <= j < |rounds| && rounds[j].active.Some? ==>
                                                       rounds[j].at <= a.clearSince.value)
  }

  /** Round `i` is active, at `since`, and the alarm was not away from it on. */
  predicate Begins(rounds: seq<Round>, since: real, i: nat) {
    i < |rounds| && rounds[i].active.Some? && rounds[i].at == since && NeverAway(rounds, i, |rounds|)
  }

  lemma BeginsGoesOn(rounds: seq<Round>, r: Round, since: real, i: nat)
    requires Begins(rounds, since, i) && (r.active.Some? || !r.known)
    ensures Begins(rounds + [r], since, i)
  {
  }

  lemma StillBegins(rounds: seq<Round>, forS: real, a: Alarm, now: real, r: Round)
    requires Remembers(rounds, forS, a, now) && !a.fired && (r.active.Some? || !r.known)
    ensures exists i: nat :: Begins(rounds + [r], a.since, i)
  {
    var i: nat :| Begins(rounds, a.since, i);
    BeginsGoesOn(rounds, r, a.since, i);
  }

  lemma RemembersNext(rounds: seq<Round>, forS: real, st: Option<Alarm>, now: real, r: Round)
    requires now <= r.at && forall j :: 0 <= j < |rounds| ==> rounds[j].at <= now
    requires st.Some? ==> Remembers(rounds, forS, st.value, now)
    ensures Step(st, r, forS).0.Some? ==> Remembers(rounds + [r], forS, Step(st, r, forS).0.value, r.at)
  {
    var more, next := rounds + [r], Step(st, r, forS).0;
    if next.Some? && !next.value.fired {
      if st.Some? && !st.value.fired {
        StillBegins(rounds, forS, st.value, now, r);
      } else if st.None? {
        assert Begins(more, r.at, |rounds|);
      }
    }
  }

  predicate Agrees(st: Option<Alarm>, announced: Option<Name>) {
    announced == if st.Some? && st.value.fired then Some(st.value.value) else None
  }

  lemma AgreesNext(rounds: seq<Round>, forS: real, st: Option<Alarm>, now: real, r: Round, announced: Option<Name>)
    requires now <= r.at && Agrees(st, announced)
    requires st.Some? ==> Remembers(rounds, forS, st.value, now)
    ensures
      var one := Step(st, r, forS);
      |one.1| <= 1 &&
      Agrees(one.0, if one.1 == [] then announced else if one.1[0].Raised? then Some(one.1[0].value) else None)
  {
  }

  /** After every run: the alarm is remembered, and counts as announced exactly
      when its value was sent and not cleared since. */
  lemma {:induction false} RunRemembers(rounds: seq<Round>, forS: real, now: real)
    requires Clocked(rounds) && forall j :: 0 <= j < |rounds| ==> rounds[j].at <= now
    ensures After(rounds, forS).Some? ==> Remembers(rounds, forS, After(rounds, forS).value, now)
    ensures Agrees(After(rounds, forS), Announced(rounds, forS))
    decreases |rounds|
  {
    if rounds != [] {
      var n := |rounds| - 1;
      var before, r, st := rounds[..n], rounds[n], After(rounds[..n], forS);
      var last := if n > 0 then rounds[n - 1].at else r.at;
      RunRemembers(before, forS, last);
      assert before + [r] == rounds;
      RemembersNext(before, forS, st, last, r);
      AgreesNext(before, forS, st, last, r, Announced(before, forS));
    }
  }

  lemma Before(rounds: seq<Round>, forS: real, k: nat)
    requires Clocked(rounds) && k < |rounds|
    ensures After(rounds[..k], forS).Some? ==> Remembers(rounds[..k], forS, After(rounds[..k], forS).value, rounds[k].at)
    ensures Agrees(After(rounds[..k], forS), Announced(rounds[..k], forS))
  {
    RunRemembers(rounds[..k], forS, rounds[k].at);
  }

  // ---- what is sent, and when ----

  /** How long an alarm has to be away before it is cleared: its own hold time, and a
      minute at least. */
  function ClearTime(forS: real): real {
    if forS >= 60.0 then forS else 60.0
  }

  /** A clear is sent only for an alarm that is announced, and only when no
      round was active in the hold time before it. */
  lemma ClearsAreEarned(rounds: seq<Round>, forS: real, k: nat, j: nat)
    requires Clocked(rounds) && j < k < |rounds|
    requires SentAt(rounds, forS, k) == [Cleared]
    ensures Announced(rounds[..k], forS).Some? && rounds[k].known && rounds[k].active.None?
    ensures rounds[j].active.Some? ==> rounds[k].at - rounds[j].at >= ClearTime(forS)
  {
    Before(rounds, forS, k);
    assert rounds[..k][j] == rounds[j];
  }

  /** An announcement is news: another value than the one announced before. */
  lemma AnnouncementsAreNews(rounds: seq<Round>, forS: real, k: nat)
    requires Clocked(rounds) && k < |rounds| && SentAt(rounds, forS, k) != [] && SentAt(rounds, forS, k)[0].Raised?
    ensures rounds[k].active.Some? && SentAt(rounds, forS, k) == [Raised(rounds[k].active.value.value, rounds[k].active.value.danger)]
    ensures Announced(rounds[..k], forS) != Some(rounds[k].active.value.value)
  {
    Before(rounds, forS, k);
  }

  /** The first announcement is earned: the alarm was not away for its hold time. */
  lemma AnnouncementsAreEarned(rounds: seq<Round>, forS: real, k: nat)
    requires Clocked(rounds) && k < |rounds| && SentAt(rounds, forS, k) != [] && SentAt(rounds, forS, k)[0].Raised?
    requires Announced(rounds[..k], forS).None?
    ensures exists i: nat :: i <= k && rounds[i].active.Some? && rounds[k].at - rounds[i].at >= forS &&
                             NeverAway(rounds, i, k + 1)
  {
    Before(rounds, forS, k);
    var st := After(rounds[..k], forS);
    if st.Some? {
      var i: nat :| Begins(rounds[..k], st.value.since, i);
      assert rounds[i] == rounds[..k][i];
      forall j | i <= j < k + 1 ensures rounds[j].active.Some? || !rounds[j].known {
        if j < k {
          assert rounds[..k][j] == rounds[j];
        }
      }
      assert NeverAway(rounds, i, k + 1);
    } else {
      assert NeverAway(rounds, k, k + 1);
    }
  }

  /** A round in which the alarm is unknown sends nothing and changes nothing. */
  lemma UnknownChangesNothing(rounds: seq<Round>, forS: real, k: nat)
    requires k < |rounds| && rounds[k].active.None? && !rounds[k].known
    ensures SentAt(rounds, forS, k) == [] && After(rounds[..k + 1], forS) == After(rounds[..k], forS)
  {
    assert rounds[..k + 1][..k] == rounds[..k];
  }

  lemma AfterNext(rounds: seq<Round>, forS: real, k: nat)
    requires k < |rounds|
    ensures After(rounds[..k + 1], forS) == Step(After(rounds[..k], forS), rounds[k], forS).0
  {
    assert rounds[..k + 1][..k] == rounds[..k];
  }

  /** As long as the alarm is not away, what is remembered began no later. */
  lemma {:induction false} SinceAtMost(rounds: seq<Round>, forS: real, i: nat, n: nat)
    requires Clocked(rounds) && i < n <= |rounds| && rounds[i].active.Some? && NeverAway(rounds, i, n)
    ensures After(rounds[..n], forS).Some? && After(rounds[..n], forS).value.since <= rounds[i].at
    decreases n
  {
    var k := n - 1;
    AfterNext(rounds, forS, k);
    if k == i {
      SinceNow(rounds, forS, i);
    } else {
      SinceAtMost(rounds, forS, i, k);
    }
  }

  lemma SinceNow(rounds: seq<Round>, forS: real, i: nat)
    requires Clocked(rounds) && i < |rounds| && rounds[i].active.Some?
    ensures After(rounds[..i + 1], forS).Some? && After(rounds[..i + 1], forS).value.since <= rounds[i].at
    decreases i
  {
    AfterNext(rounds, forS, i);
    RunSince(rounds, forS, i);
  }

  lemma {:induction false} RunSince(rounds: seq<Round>, forS: real, i: nat)
    requires Clocked(rounds) && i < |rounds|
    ensures After(rounds[..i], forS).Some? ==> After(rounds[..i], forS).value.since <= rounds[i].at
    decreases i
  {
    if i > 0 {
      AfterNext(rounds, forS, i - 1);
      RunSince(rounds, forS, i - 1);
      assert rounds[i - 1].at <= rounds[i].at;
    }
  }

  /** No announcement is missed: an alarm active now, and not away for its hold
      time, stands announced with the value it has now. */
  lemma NoAlarmIsMissed(rounds: seq<Round>, forS: real, i: nat, k: nat)
    requires Clocked(rounds) && i <= k < |rounds| && rounds[i].active.Some? && rounds[k].active.Some?
    requires NeverAway(rounds, i, k + 1) && rounds[k].at - rounds[i].at >= forS
    ensures Announced(rounds[..k + 1], forS) == Some(rounds[k].active.value.value)
  {
    SinceAtMost(rounds, forS, i, k + 1);
    AfterNext(rounds, forS, k);
    RunRemembers(rounds[..k + 1], forS, rounds[k].at);
  }

  /** The alarm is known to be away in rounds i..n. */
  predicate Away(rounds: seq<Round>, i: nat, n: nat)
    requires n <= |rounds|
  {
    forall j :: i <= j < n ==> rounds[j].active.None? && rounds[j].known
  }

  lemma {:induction false} AwaySince(rounds: seq<Round>, forS: real, i: nat, n: nat)
    requires Clocked(rounds) && i < n <= |rounds| && Away(rounds, i, n)
    ensures var st := After(rounds[..n], forS);
            st.None? || (st.value.fired && st.value.clearSince.Some? && st.value.clearSince.value <= rounds[i].at)
    decreases n
  {
    var k := n - 1;
    AfterNext(rounds, forS, k);
    if k > i {
      AwaySince(rounds, forS, i, k);
    } else {
      ClearSinceBefore(rounds, forS, i);
    }
  }

  lemma {:induction false} ClearSinceBefore(rounds: seq<Round>, forS: real, i: nat)
    requires Clocked(rounds) && i < |rounds|
    ensures var st := After(rounds[..i], forS);
            st.Some? && st.value.clearSince.Some? ==> st.value.clearSince.value <= rounds[i].at
    decreases i
  {
    if i > 0 {
      AfterNext(rounds, forS, i - 1);
      ClearSinceBefore(rounds, forS, i - 1);
      assert rounds[i - 1].at <= rounds[i].at;
    }
  }

  /** No clear is missed: an alarm known to be away for the hold time stands
      announced no more. */
  lemma NoClearIsMissed(rounds: seq<Round>, forS: real, i: nat, k: nat)
    requires Clocked(rounds) && i <= k < |rounds| && Away(rounds, i, k + 1)
    requires rounds[k].at - rounds[i].at >= ClearTime(forS)
    ensures Announced(rounds[..k + 1], forS).None?
  {
    assert i < k;
    AwaySince(rounds, forS, i, k);
    AfterNext(rounds, forS, k);
    RunRemembers(rounds[..k + 1], forS, rounds[k].at);
  }
}
