/** A device's declared alarms as alerts: announced when they last, announced
    again when their value changes, cleared when they stay away. */
module Alarms {
  import opened Prelude

  const CLEAR_HOLD := 60.0

  /** The alarm a round reports active: its value and how grave it is. */
  datatype Active = Active(value: Name, danger: bool)

  /** What is remembered of an alarm. */
  datatype Alarm = Alarm(since: real, fired: bool, value: Name, clearSince: Option<real>)

  datatype Notice = Raised(value: Name, danger: bool) | Cleared

  function Max(a: real, b: real): real {
    if a >= b then a else b
  }

  // ---- one alarm, one round ----

  /** An alarm in one round: active, or else known to be inactive or not. */
  datatype Round = Round(active: Option<Active>, known: bool, at: real)

  function Inactive(st: Option<Alarm>, r: Round, forS: real): (Option<Alarm>, seq<Notice>) {
    if !r.known then (st, [])
    else if st.Some? && st.value.fired then
      var since := if st.value.clearSince.Some? then st.value.clearSince.value else r.at;
      if r.at - since < Max(forS, CLEAR_HOLD) then (Some(st.value.(clearSince := Some(since))), [])
      else (None, [Cleared])
    else (None, [])
  }

  function Seen(st: Option<Alarm>, cur: Active, at: real): Alarm {
    if st.Some? && st.value.value == cur.value then st.value.(clearSince := None)
    else Alarm(if st.Some? then st.value.since else at, false, cur.value, None)
  }

  function Step(st: Option<Alarm>, r: Round, forS: real): (Option<Alarm>, seq<Notice>) {
    if r.active.None? then Inactive(st, r, forS)
    else
      var a := Seen(st, r.active.value, r.at);
      if !a.fired && r.at - a.since >= forS
      then (Some(a.(fired := true)), [Raised(a.value, r.active.value.danger)])
      else (Some(a), [])
  }

  // ---- the tracker: all alarms of all devices ----

  datatype Key = Key(device: Name, field: Name)

  datatype Declared = Declared(field: Name, forS: real)

  datatype Told = Told(key: Key, notice: Notice)

  type Memory = map<Key, Alarm>

  function Recall(m: Memory, k: Key): Option<Alarm> {
    if k in m then Some(m[k]) else None
  }

  function Kept(m: Memory, k: Key, st: Option<Alarm>): Memory {
    if st.Some? then m[k := st.value] else m - {k}
  }

  function RoundOf(field: Name, active: map<Name, Active>, known: Option<set<Name>>, at: real): Round {
    Round(if field in active then Some(active[field]) else None, known.None? || field in known.value, at)
  }

  function Tagged(k: Key, notices: seq<Notice>): seq<Told> {
    if notices == [] then [] else Tagged(k, notices[..|notices| - 1]) + [Told(k, notices[|notices| - 1])]
  }

  /** A round of one device: its declared alarms, one after the other. */
  function RoundAll(m: Memory, device: Name, declared: seq<Declared>, active: map<Name, Active>,
                    known: Option<set<Name>>, at: real): (Memory, seq<Told>)
  {
    if declared == [] then (m, [])
    else
      var n := |declared| - 1;
      var front := RoundAll(m, device, declared[..n], active, known, at);
      var k := Key(device, declared[n].field);
      var one := Step(Recall(front.0, k), RoundOf(k.field, active, known, at), declared[n].forS);
      (Kept(front.0, k, one.0), front.1 + Tagged(k, one.1))
  }

  predicate Declares(declared: seq<Declared>, field: Name) {
    exists i :: 0 <= i < |declared| && declared[i].field == field
  }

  lemma DeclaresNext(declared: seq<Declared>, i: nat)
    requires i < |declared|
    ensures forall f :: Declares(declared[..i + 1], f) <==> Declares(declared[..i], f) || f == declared[i].field
  {
    forall f ensures Declares(declared[..i + 1], f) <==> Declares(declared[..i], f) || f == declared[i].field {
      if Declares(declared[..i], f) {
        var j :| 0 <= j < i && declared[..i][j].field == f;
        assert declared[..i + 1][j].field == f;
      }
      assert declared[..i + 1][i] == declared[i];
    }
  }

  class AlarmTracker {
    var state: Memory

    constructor ()
      ensures state == map[]
    {
      state := map[];
    }

    /** A round of one device; `seen` gathers the alarms it declares. */
    method Update(device: Name, declared: seq<Declared>, active: map<Name, Active>,
                  known: Option<set<Name>>, now: real, seen0: set<Key>) returns (told: seq<Told>, seen: set<Key>)
      modifies this
      ensures (state, told) == RoundAll(old(state), device, declared, active, known, now)
      ensures forall k :: k in seen <==> k in seen0 || (k.device == device && Declares(declared, k.field))
    {
      told, seen := [], seen0;
      for i := 0 to |declared|
        invariant (state, told) == RoundAll(old(state), device, declared[..i], active, known, now)
        invariant forall k :: k in seen <==> k in seen0 || (k.device == device && Declares(declared[..i], k.field))
      {
        assert declared[..i + 1][..i] == declared[..i];
        seen := seen + {Key(device, declared[i].field)};
        DeclaresNext(declared, i);
        var notices := UpdateOne(device, declared[i], active, known, now);
        told := told + Tagged(Key(device, declared[i].field), notices);
      }
      assert declared[..|declared|] == declared;
    }

    /** The body of the loop: one declared alarm. */
    method UpdateOne(device: Name, a: Declared, active: map<Name, Active>, known: Option<set<Name>>, now: real)
      returns (notices: seq<Notice>)
      modifies this
      ensures
        var k := Key(device, a.field);
        var one := Step(Recall(old(state), k), RoundOf(a.field, active, known, now), a.forS);
        state == Kept(old(state), k, one.0) && notices == one.1
    {
      var k := Key(device, a.field);
      notices := [];
      if a.field !in active {
        if known.Some? && a.field !in known.value {
          assert k in state ==> state[k := state[k]] == state;
          assert k !in state ==> state - {k} == state;
          return;
        }
        if k in state && state[k].fired {
          var st := state[k];
          if st.clearSince.None? {
            st := st.(clearSince := Some(now));
          }
          if now - st.clearSince.value < Max(a.forS, CLEAR_HOLD) {
            state := state[k := st];
            return;
          }
          notices := [Cleared];
        }
        state := state - {k};
        return;
      }
      var cur := active[a.field];
      var st: Alarm;
      if k in state && state[k].value == cur.value {
        st := state[k].(clearSince := None);
      } else {
        st := Alarm(if k in state then state[k].since else now, false, cur.value, None);
      }
      if !st.fired && now - st.since >= a.forS {
        st := st.(fired := true);
        notices := [Raised(st.value, cur.danger)];
      }
      state := state[k := st];
    }

    /** Only alarms of present devices stay; of those evaluated this round, only
        the ones seen in it. */
    method Retain(devices: set<Name>, seen: Option<set<Key>>, evaluated: set<Name>)
      modifies this
      ensures forall k :: k in state <==>
        k in old(state) && k.device in devices && !(seen.Some? && k.device in evaluated && k !in seen.value)
      ensures forall k :: k in state ==> state[k] == old(state)[k]
    {
      state := map k | k in state && k.device in devices &&
                       !(seen.Some? && k.device in evaluated && k !in seen.value) :: state[k];
    }
  }

  // ---- the tracker treats each alarm by itself ----

  function About(told: seq<Told>, k: Key): seq<Notice> {
    if told == [] then []
    else
      var n := |told| - 1;
      About(told[..n], k) + if told[n].key == k then [told[n].notice] else []
  }

  lemma {:induction false} AboutAppend(a: seq<Told>, b: seq<Told>, k: Key)
    ensures About(a + b, k) == About(a, k) + About(b, k)
    decreases |b|
  {
    if b == [] {
      assert a + b == a;
    } else {
      var n := |b| - 1;
      assert (a + b)[..|a + b| - 1] == a + b[..n] && (a + b)[|a + b| - 1] == b[n];
      AboutAppend(a, b[..n], k);
    }
  }

  lemma {:induction false} AboutTagged(own: Key, notices: seq<Notice>, k: Key)
    ensures About(Tagged(own, notices), k) == if k == own then notices else []
  {
    if notices != [] {
      var n := |notices| - 1;
      AboutTagged(own, notices[..n], k);
      var tagged := Tagged(own, notices);
      assert tagged[..|tagged| - 1] == Tagged(own, notices[..n]);
      assert notices[..n] + [notices[n]] == notices;
    }
  }

  /** The other alarms keep their state and nothing is said of them. */
  lemma {:induction false} OthersUntouched(m: Memory, device: Name, declared: seq<Declared>, active: map<Name, Active>,
                                           known: Option<set<Name>>, at: real, k: Key)
    requires k.device == device ==> forall i :: 0 <= i < |declared| ==> declared[i].field != k.field
    ensures Recall(RoundAll(m, device, declared, active, known, at).0, k) == Recall(m, k)
    ensures About(RoundAll(m, device, declared, active, known, at).1, k) == []
    decreases |declared|
  {
    if declared != [] {
      var n := |declared| - 1;
      OthersUntouched(m, device, declared[..n], active, known, at, k);
      var front := RoundAll(m, device, declared[..n], active, known, at);
      var own := Key(device, declared[n].field);
      var one := Step(Recall(front.0, own), RoundOf(own.field, active, known, at), declared[n].forS);
      AboutAppend(front.1, Tagged(own, one.1), k);
      AboutTagged(own, one.1, k);
    }
  }

  /** An alarm declared once takes exactly its own step in the round. */
  lemma {:induction false} RoundIsPerAlarm(m: Memory, device: Name, declared: seq<Declared>, active: map<Name, Active>,
                                           known: Option<set<Name>>, at: real, i: nat)
    requires i < |declared|
    requires forall j :: 0 <= j < |declared| && j != i ==> declared[j].field != declared[i].field
    ensures
      var k := Key(device, declared[i].field);
      var all := RoundAll(m, device, declared, active, known, at);
      (Recall(all.0, k), About(all.1, k)) == Step(Recall(m, k), RoundOf(k.field, active, known, at), declared[i].forS)
    decreases |declared|
  {
    var n := |declared| - 1;
    var k := Key(device, declared[i].field);
    var front := RoundAll(m, device, declared[..n], active, known, at);
    var own := Key(device, declared[n].field);
    var one := Step(Recall(front.0, own), RoundOf(own.field, active, known, at), declared[n].forS);
    AboutAppend(front.1, Tagged(own, one.1), k);
    AboutTagged(own, one.1, k);
    if i == n {
      OthersUntouched(m, device, declared[..n], active, known, at, k);
      assert [] + one.1 == one.1;
    } else {
      RoundIsPerAlarm(m, device, declared[..n], active, known, at, i);
      var before := About(front.1, k);
      assert before + [] == before;
    }
  }
}
