/** The lane as the object the dispatcher updates in place. */
module LaneObject {
  import opened Prelude
  import opened LaneModel

  class Lane {
    const key: Name
    var urgent: seq<Job>
    var pending: map<Name, seq<Job>>
    var order: seq<Name>
    var running: Option<Running>
    var hasThread: bool

    constructor (key: Name)
      ensures this.key == key && View() == EMPTY_LANE && running == None && !hasThread
    {
      this.key := key;
      urgent, pending, order, running, hasThread := [], map[], [], None, false;
    }

    ghost function View(): LaneView
      reads this
    {
      LaneView(urgent, pending, order)
    }

    ghost function State(): LaneState
      reads this
    {
      LaneState(View(), running, hasThread)
    }

    /** Everything that waits: the reverts, then each device's queue. */
    method Jobs() returns (js: seq<Job>)
      requires ValidLane(View(), key)
      ensures forall j :: j in js <==> Waits(View(), j)
    {
      js := urgent;
      var devices := pending.Keys;
      ghost var seen: set<Name> := {};
      while devices != {}
        invariant seen + devices == pending.Keys && seen !! devices
        invariant forall j: Job :: j in js <==> j in urgent || (j.device in seen && j in pending[j.device])
        decreases devices
      {
        var d :| d in devices;
        js := js + pending[d];
        assert forall j :: j in pending[d] ==> j.device == d;
        devices, seen := devices - {d}, seen + {d};
      }
      assert seen == pending.Keys;
    }

    /** Take one job back, if it waits here. */
    method Remove(job: Job) returns (found: bool)
      requires ValidLane(View(), key)
      modifies this`urgent, this`pending, this`order
      ensures found == Waits(old(View()), job)
      ensures View() == Drop(old(View()), {job})
    {
      DropOne(View(), key, job);
      if job in urgent {
        urgent := WithoutFirst(urgent, job);
        found := true;
      } else if job.device !in pending || job !in pending[job.device] {
        found := false;
      } else {
        var q := WithoutFirst(pending[job.device], job);
        found := true;
        if q != [] {
          pending := pending[job.device := q];
        } else {
          pending := pending - {job.device};
          order := WithoutFirst(order, job.device);
        }
      }
    }

    /** The next job of the lane: a revert, else the next device's oldest. */
    method PopNext() returns (job: Option<Job>)
      modifies this`urgent, this`pending, this`order
      ensures Picked(View(), job) == Next(old(View()))
    {
      if urgent != [] {
        job := Some(urgent[0]);
        urgent := urgent[1..];
        return;
      }
      job := None;
      while order != []
        invariant urgent == [] && Next(View()) == Next(old(View()))
        decreases |order|
      {
        var d := order[0];
        order := order[1..];
        if d !in pending || pending[d] == [] {
          pending := pending - {d};
        } else {
          var q := pending[d];
          job := Some(q[0]);
          if |q| > 1 {
            pending := pending[d := q[1..]];
            order := order + [d];
          } else {
            pending := pending - {d};
          }
          return;
        }
      }
    }

    /** Place a job: what it replaces, or the job itself when it is refused, comes back. */
    method Place(job: Job, cap: int) returns (told: Option<(Job, Outcome)>)
      modifies this`urgent, this`pending, this`order
      ensures Admitted(View(), told) == Admit(old(View()), job, cap)
    {
      if job.kind == Revert {
        urgent := urgent + [job];
        return None;
      }
      var q := if job.device in pending then pending[job.device] else [];
      var slot := Filter(q, (j: Job) => j.channel == job.channel);
      if job.kind == Refresh && slot != [] {
        return Some((job, PutOff));
      }
      SlotTail(q, job.channel);
      if slot != [] {
        var tail := slot[|slot| - 1];
        if job.Mergeable() && tail.Mergeable() && tail.SameIntent(job) {
          var i := LastOf(q, job.channel);
          pending := pending[job.device := q[i := job]];
          return Some((tail, Superseded));
        }
      }
      if |slot| >= cap {
        return Some((job, QueueFull));
      }
      if job.device !in pending {
        order := order + [job.device];
      }
      pending := pending[job.device := q + [job]];
      return None;
    }
  }

  /** The last job of a channel, found by going back from the end. */
  method LastOf(q: seq<Job>, channel: Name) returns (i: int)
    ensures i == TailIndex(q, channel)
  {
    i := |q| - 1;
    while i >= 0 && q[i].channel != channel
      invariant -1 <= i < |q| && TailIndex(q, channel) == TailIndex(q[..i + 1], channel)
    {
      assert q[..i + 1][..i] == q[..i];
      i := i - 1;
    }
    if i >= 0 { assert q[..i + 1][i] == q[i]; }
  }

  function Without<T(==)>(s: seq<T>, x: T): seq<T> {
    Filter(s, y => y != x)
  }

  /** `s` without the first occurrence of `x`. */
  method WithoutFirst<T(==,!new)>(s: seq<T>, x: T) returns (r: seq<T>)
    requires x in s && NoDup(s)
    ensures r == Without(s, x)
  {
    var i := 0;
    while s[i] != x
      invariant 0 <= i < |s| && x !in s[..i]
      decreases |s| - i
    {
      i := i + 1;
    }
    r := s[..i] + s[i + 1..];
    WithoutAt(s, i);
  }

  lemma {:induction false} WithoutNone<T>(s: seq<T>, x: T)
    requires x !in s
    ensures Without(s, x) == s
  {
    if s != [] {
      WithoutNone(s[1..], x);
    }
  }

  lemma {:induction false} WithoutAt<T(!new)>(s: seq<T>, i: nat)
    requires i < |s| && NoDup(s)
    ensures Without(s, s[i]) == s[..i] + s[i + 1..]
  {
    if i == 0 {
      WithoutNone(s[1..], s[0]);
    } else {
      WithoutAt(s[1..], i - 1);
      assert s[..i] == [s[0]] + s[1..][..i - 1];
    }
  }

  lemma {:induction false} KeptWithout(q: seq<Job>, job: Job)
    ensures Kept(q, {job}) == Without(q, job)
    ensures job !in q ==> Kept(q, {job}) == q
  {
    if q != [] {
      KeptWithout(q[1..], job);
    }
  }

  lemma {:induction false} WithWorkWithout(order: seq<Name>, pending: map<Name, seq<Job>>, d: Name)
    ensures (forall x :: x in order ==> (x in pending <==> x != d)) ==> WithWork(order, pending) == Without(order, d)
    ensures (forall x :: x in order ==> x in pending) ==> WithWork(order, pending) == order
  {
    if order != [] {
      WithWorkWithout(order[1..], pending, d);
    }
  }

  /** The queues once one job is dropped: its device's without it, or no more. */
  ghost function QueuesWithout(l: LaneView, job: Job): map<Name, seq<Job>> {
    var q := Without(Queue(l, job.device), job);
    if job !in Queue(l, job.device) then l.pending
    else if q == [] then l.pending - {job.device} else l.pending[job.device := q]
  }

  lemma DropAt(l: LaneView, key: Name, job: Job, x: Name)
    requires ValidLane(l, key) && x in l.pending
    ensures var kept := Kept(l.pending[x], {job});
            if kept == [] then x !in QueuesWithout(l, job)
            else x in QueuesWithout(l, job) && QueuesWithout(l, job)[x] == kept
  {
    KeptWithout(l.pending[x], job);
    assert l.pending[x] != [];
    assert x != job.device ==> job !in l.pending[x];
  }

  lemma DropPending(l: LaneView, key: Name, job: Job)
    requires ValidLane(l, key)
    ensures Drop(l, {job}).pending == QueuesWithout(l, job)
  {
    forall x | x in l.pending
      ensures var kept := Kept(l.pending[x], {job});
              if kept == [] then x !in QueuesWithout(l, job)
              else x in QueuesWithout(l, job) && QueuesWithout(l, job)[x] == kept
    {
      DropAt(l, key, job, x);
    }
  }

  /** What dropping one job does, by where the job is. */
  lemma DropOne(l: LaneView, key: Name, job: Job)
    requires ValidLane(l, key)
    ensures var d := job.device; var q := Without(Queue(l, d), job);
            Drop(l, {job}) ==
            if job in l.urgent then l.(urgent := Without(l.urgent, job))
            else if job !in Queue(l, d) then l
            else if q != [] then l.(pending := l.pending[d := q])
            else l.(pending := l.pending - {d}, order := Without(l.order, d))
  {
    KeptWithout(l.urgent, job);
    DropPending(l, key, job);
    WithWorkWithout(l.order, Drop(l, {job}).pending, job.device);
  }
}
