/** Several rules, one channel: which candidate writes it. */
module Referee {
  import opened Prelude
  import opened Names

  datatype Candidate = Candidate(rule: Name, prio: int, value: Option<real>, forced: bool)

  datatype Combine = Priority | Lowest | Highest

  /** `a` sorts no later than `b` by priority, force, rule id. */
  predicate PrioLeq(a: Candidate, b: Candidate) {
    if a.prio != b.prio then a.prio > b.prio
    else if a.forced != b.forced then a.forced
    else Leq(a.rule, b.rule)
  }

  /** `a` sorts no later than `b` by value (lowest or highest first), priority,
      rule id. */
  predicate ValueLeq(a: Candidate, b: Candidate, highest: bool)
    requires a.value.Some? && b.value.Some?
  {
    if a.value.value != b.value.value then (a.value.value < b.value.value) != highest
    else if a.prio != b.prio then a.prio > b.prio
    else Leq(a.rule, b.rule)
  }

  predicate Valued(c: Candidate) {
    c.value.Some?
  }

  /** One order for all candidates of a channel: with a limit, those that ask a
      value come before those that do not. */
  predicate Before(a: Candidate, b: Candidate, how: Combine) {
    if how == Priority || (!Valued(a) && !Valued(b)) then PrioLeq(a, b)
    else if Valued(a) && Valued(b) then ValueLeq(a, b, how == Highest)
    else Valued(a)
  }

  /** The first element of a stable sort. */
  function First(cands: seq<Candidate>, before: (Candidate, Candidate) -> bool): Candidate
    requires cands != []
  {
    if |cands| == 1 then cands[0]
    else
      var best := First(cands[..|cands| - 1], before);
      var last := cands[|cands| - 1];
      if before(best, last) then best else last
  }

  /** The candidate that writes the channel. */
  function Winner(cands: seq<Candidate>, how: Combine): Option<Candidate> {
    if cands == [] then None
    else
      var valued := Filter(cands, Valued);
      if how != Priority && valued != []
      then Some(First(valued, (a: Candidate, b: Candidate) =>
             a.value.Some? && b.value.Some? && ValueLeq(a, b, how == Highest)))
      else Some(First(cands, PrioLeq))
  }

  /** Whether `other` takes the channel from `me`, two distinct candidates. */
  predicate Beats(other: Candidate, me: Candidate, how: Combine) {
    Winner([me, other], how) == Some(other)
  }

  // ---- the winner is the least candidate of one total order ----

  lemma BeforeTotal(a: Candidate, b: Candidate, how: Combine)
    ensures Before(a, b, how) || Before(b, a, how)
  {
    LeqTotal(a.rule.text, b.rule.text);
  }

  lemma BeforeTransitive(a: Candidate, b: Candidate, c: Candidate, how: Combine)
    requires Before(a, b, how) && Before(b, c, how)
    ensures Before(a, c, how)
  {
    if Leq(a.rule, b.rule) && Leq(b.rule, c.rule) {
      LeqTransitive(a.rule.text, b.rule.text, c.rule.text);
    }
  }

  lemma BeforeBothWays(a: Candidate, b: Candidate, how: Combine)
    requires Before(a, b, how) && Before(b, a, how)
    ensures a.rule == b.rule
  {
    LeqAntisymmetric(a.rule.text, b.rule.text);
  }

  lemma {:induction false} FirstIsLeast(cands: seq<Candidate>, before: (Candidate, Candidate) -> bool, how: Combine)
    requires cands != []
    requires forall a, b :: a in cands && b in cands ==> before(a, b) == Before(a, b, how)
    ensures First(cands, before) in cands
    ensures forall c :: c in cands ==> Before(First(cands, before), c, how)
  {
    var n := |cands| - 1;
    var last := cands[n];
    BeforeTotal(last, last, how);
    if n > 0 {
      var front := cands[..n];
      FirstIsLeast(front, before, how);
      var best := First(front, before);
      assert best in cands;
      BeforeTotal(best, last, how);
      forall c | c in cands ensures Before(First(cands, before), c, how) {
        if c in front {
          if !before(best, last) {
            BeforeTransitive(last, best, c, how);
          }
        } else {
          assert c == last;
        }
      }
    }
  }

  /** The winner is a candidate, and no candidate comes before it. */
  lemma WinnerIsLeast(cands: seq<Candidate>, how: Combine)
    requires cands != []
    ensures Winner(cands, how).Some? && Winner(cands, how).value in cands
    ensures forall c :: c in cands ==> Before(Winner(cands, how).value, c, how)
  {
    var valued := Filter(cands, Valued);
    FilterMembers(cands, Valued);
    if how != Priority && valued != [] {
      var highest := how == Highest;
      var before := (a: Candidate, b: Candidate) =>
        a.value.Some? && b.value.Some? && ValueLeq(a, b, highest);
      FirstIsLeast(valued, before, how);
      assert Winner(cands, how) == Some(First(valued, before)) by {
        FirstAgree(valued, before, (a: Candidate, b: Candidate) =>
          a.value.Some? && b.value.Some? && ValueLeq(a, b, how == Highest));
      }
      assert First(valued, before) in valued;
    } else {
      forall c | how != Priority && c in cands ensures !Valued(c) {
        assert Valued(c) ==> c in valued;
      }
      FirstIsLeast(cands, PrioLeq, how);
    }
  }

  lemma {:induction false} FirstAgree(cands: seq<Candidate>, p: (Candidate, Candidate) -> bool, q: (Candidate, Candidate) -> bool)
    requires cands != [] && forall a, b :: p(a, b) == q(a, b)
    ensures First(cands, p) == First(cands, q)
  {
    if |cands| > 1 {
      FirstAgree(cands[..|cands| - 1], p, q);
    }
  }

  /** By priority, and among those who ask no value, nobody has a higher one, a forced
      candidate goes before an equal one, and of two equal ones the first rule. With a
      limit, one who asks a value goes before those who do not, nobody asks a lower (or
      higher) value, and for one value priority decides and then the first rule. */
  lemma WinnerAsAsked(cands: seq<Candidate>, how: Combine, c: Candidate)
    requires c in cands
    ensures Winner(cands, how).Some?
    ensures
      var w := Winner(cands, how).value;
      && (how == Priority || (c.value.None? && w.value.None?) ==>
            && c.prio <= w.prio
            && (c.prio == w.prio && c.forced ==> w.forced)
            && (c.prio == w.prio && c.forced == w.forced ==> Leq(w.rule, c.rule)))
      && (how != Priority && c.value.Some? ==>
            && w.value.Some?
            && (how == Lowest ==> w.value.value <= c.value.value)
            && (how == Highest ==> w.value.value >= c.value.value)
            && (c.value == w.value ==> c.prio <= w.prio && (c.prio == w.prio ==> Leq(w.rule, c.rule))))
  {
    WinnerIsLeast(cands, how);
  }

  /** No two candidates are of one rule. */
  predicate OneEach(cands: seq<Candidate>) {
    forall i, j :: 0 <= i < j < |cands| ==> cands[i].rule != cands[j].rule
  }

  lemma HasOne(cands: seq<Candidate>)
    ensures cands != [] ==> exists c :: c in cands
  {
    if cands != [] {
      assert cands[0] in cands;
    }
  }

  /** The order in which the rules are asked does not matter. */
  lemma WinnerIgnoresOrder(a: seq<Candidate>, b: seq<Candidate>, how: Combine)
    requires OneEach(a) && forall c :: c in a <==> c in b
    ensures Winner(a, how) == Winner(b, how)
  {
    HasOne(b);
    if a != [] {
      assert a[0] in b;
      WinnerIsLeast(a, how);
      WinnerIsLeast(b, how);
      var x, y := Winner(a, how).value, Winner(b, how).value;
      BeforeBothWays(x, y, how);
      SameRule(a, x, y);
    }
  }

  lemma SameRule(cands: seq<Candidate>, x: Candidate, y: Candidate)
    requires OneEach(cands) && x in cands && y in cands && x.rule == y.rule
    ensures x == y
  {
  }

  lemma BeatsMeansBefore(a: Candidate, b: Candidate, how: Combine)
    requires a.rule != b.rule
    ensures Beats(a, b, how) <==> Before(a, b, how)
    ensures Beats(a, b, how) <==> !Beats(b, a, how)
  {
    WinnerIsLeast([b, a], how);
    WinnerIsLeast([a, b], how);
    if Before(a, b, how) && Before(b, a, how) {
      BeforeBothWays(a, b, how);
    }
    BeforeTotal(a, b, how);
    assert a in [b, a] && b in [b, a] && a in [a, b] && b in [a, b];
  }

  /** A candidate wins exactly when nobody takes the channel from it. */
  lemma WinnerIsUnbeaten(cands: seq<Candidate>, how: Combine, c: Candidate)
    requires OneEach(cands) && c in cands
    ensures Winner(cands, how) == Some(c) <==> forall d :: d in cands && d != c ==> !Beats(d, c, how)
  {
    WinnerIsLeast(cands, how);
    var w := Winner(cands, how).value;
    forall d | d in cands && d != c ensures d.rule != c.rule && (Beats(d, c, how) <==> Before(d, c, how))
    {
      if d.rule == c.rule {
        SameRule(cands, d, c);
      }
      BeatsMeansBefore(d, c, how);
    }
    if w == c {
      forall d | d in cands && d != c ensures !Beats(d, c, how) {
        if Before(d, c, how) {
          BeforeBothWays(d, c, how);
        }
      }
    } else {
      assert Before(w, c, how);
    }
  }
}
