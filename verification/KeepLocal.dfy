/** A standby takes its partner's configuration and keeps what is its own. */
module KeepLocal {
  import opened Prelude
  import opened ConfigTree

  const STAR := Name("*")

  /** A pattern: a name or `*` per level. */
  type Pattern = seq<Name>

  predicate Names(level: Name, s: Step) {
    level == STAR || level == s.name
  }

  predicate Matches(pattern: Pattern, p: Path) {
    |p| == |pattern| && forall i :: 0 <= i < |p| ==> Names(pattern[i], p[i])
  }

  /** The text of an entry's own id; None for one that has none, or not a scalar. */
  function OwnId(t: Tree): Option<Name> {
    if t.Dict? && ID in t.entries && t.entries[ID].Leaf? then Some(t.entries[ID].text) else None
  }

  /** The value at a location of this machine's tree, entries by their own id. */
  function Own(t: Tree, p: Path): Option<Tree>
    decreases |p|
  {
    if p == [] then Some(t)
    else
      match p[0]
      case Key(k) => if t.Dict? && k in t.entries then Own(t.entries[k], p[1..]) else None
      case Entry(id) =>
        if t.List? && Find(t.items, id) < |t.items| && OwnId(t.items[Find(t.items, id)]) == Some(id)
        then Own(t.items[Find(t.items, id)], p[1..]) else None
  }

  /** Ids are scalars, and no two entries of a list go by one id. */
  predicate TidyList(items: seq<Tree>) {
    && (forall i :: 0 <= i < |items| && items[i].Dict? && ID in items[i].entries ==> items[i].entries[ID].Leaf?)
    && (forall i, j :: 0 <= i < j < |items| && items[i].Dict? && items[j].Dict? ==> IdOf(items[i]) != IdOf(items[j]))
  }

  ghost predicate Tidy(t: Tree) {
    forall p: Path {:trigger Get(t, p)} :: Get(t, p).Some? && Get(t, p).value.List? ==> TidyList(Get(t, p).value.items)
  }

  lemma TidyChild(t: Tree, s: Step)
    requires Tidy(t) && Child(t, s).Some?
    ensures Tidy(Child(t, s).value)
  {
    var c := Child(t, s).value;
    forall p: Path | Get(c, p).Some? && Get(c, p).value.List? ensures TidyList(Get(c, p).value.items) {
      assert ([s] + p)[0] == s && ([s] + p)[1..] == p;
      assert Get(t, [s] + p) == Get(c, p);
    }
  }

  lemma TidyHere(t: Tree)
    requires Tidy(t) && t.List?
    ensures TidyList(t.items)
  {
    assert Get(t, []) == Some(t);
  }

  lemma {:induction false} OwnIsGet(t: Tree, p: Path)
    requires Own(t, p).Some?
    ensures Get(t, p) == Own(t, p)
    decreases |p|
  {
    if p != [] {
      OwnIsGet(Child(t, p[0]).value, p[1..]);
    }
  }

  lemma OwnOfLeaf(t: Tree, p: Path)
    requires t.Leaf? && Own(t, p).Some?
    ensures p == []
  {
  }

  /** A location of this machine's tree never leads through an id, and one that
      ends in an id holds that id. */
  lemma {:induction false} OwnIsWritable(t: Tree, p: Path)
    requires Own(t, p).Some?
    ensures Writable(p, Own(t, p).value)
    decreases |p|
  {
    if p != [] {
      var c, r := Child(t, p[0]).value, p[1..];
      OwnIsWritable(c, r);
      if p[0].Entry? && r != [] && r[0] == Key(ID) {
        assert Child(c, r[0]).value.Leaf?;
        OwnOfLeaf(Child(c, r[0]).value, r[1..]);
      }
      forall i | 0 <= i < |p| - 2 && p[i].Entry? ensures p[i + 1] != Key(ID) {
        if i > 0 {
          assert r[i - 1].Entry? && r[i] != Key(ID);
        }
      }
      if |p| >= 3 {
        assert p[|p| - 2] == r[|r| - 2] && p[|p| - 1] == r[|r| - 1];
      }
    }
  }

  /** A pattern names a location level by level: "*" any name, else that very name. */
  lemma PatternNames(pattern: Pattern, p: Path)
    ensures Matches(pattern, p) <==>
              |p| == |pattern| && forall i :: 0 <= i < |p| ==> pattern[i] == Name("*") || pattern[i] == p[i].name
  {
    if |p| == |pattern| {
      forall i | 0 <= i < |p| ensures Names(pattern[i], p[i]) <==> pattern[i] == Name("*") || pattern[i] == p[i].name {}
    }
  }

  /** An entry of this machine's tree goes by an id of its own. */
  predicate HasId(t: Tree, id: Name) {
    t.Dict? && Name("id") in t.entries && t.entries[Name("id")] == Leaf(id)
  }

  /** In a tidy tree a location leads on through keys, and through the entries that have
      the id named; one without an id is no part of any location. */
  lemma OwnLeads(t: Tree, s: Step, p: Path)
    requires t.List? ==> TidyList(t.items)
    ensures s.Key? ==> Own(t, [s] + p) == if t.Dict? && s.name in t.entries then Own(t.entries[s.name], p) else None
    ensures forall i :: s.Entry? && t.List? && 0 <= i < |t.items| && HasId(t.items[i], s.name) ==>
              Own(t, [s] + p) == Own(t.items[i], p)
    ensures s.Entry? && (!t.List? || forall i :: 0 <= i < |t.items| ==> !HasId(t.items[i], s.name)) ==> Own(t, [s] + p) == None
  {
    assert ([s] + p)[1..] == p;
    forall x: Tree ensures OwnId(x) == Some(s.name) <==> HasId(x, s.name) {}
    if s.Entry? && t.List? {
      forall i | 0 <= i < |t.items| && HasId(t.items[i], s.name) ensures Own(t, [s] + p) == Own(t.items[i], p) {
        FindIs(t.items, s.name, i);
      }
    }
  }

  // ---- the walk ----

  /** A location found by a walk, and what is there. */
  datatype Hit = Hit(path: Path, value: Tree)

  predicate IsHit(t: Tree, pattern: Pattern, above: Path, p: Path, h: Hit) {
    h.path == above + p && Matches(pattern, p) && Own(t, p) == Some(h.value)
  }

  ghost predicate Found(t: Tree, pattern: Pattern, above: Path, h: Hit) {
    exists p :: IsHit(t, pattern, above, p, h)
  }

  ghost predicate AllFound(t: Tree, pattern: Pattern, above: Path, hits: seq<Hit>) {
    forall h :: h in hits ==> Found(t, pattern, above, h)
  }

  /** Exactly what a pattern names below a node, found under `above`. */
  ghost predicate AllHits(t: Tree, pattern: Pattern, above: Path, hits: seq<Hit>) {
    && AllFound(t, pattern, above, hits)
    && (forall p {:trigger Own(t, p)} :: Matches(pattern, p) && Own(t, p).Some? ==>
          Hit(above + p, Own(t, p).value) in hits)
  }

  /** What the walk found so far: all hits whose first step is one of `done`. */
  ghost predicate HitsFrom(t: Tree, pattern: Pattern, above: Path, done: set<Step>, hits: seq<Hit>) {
    && AllFound(t, pattern, above, hits)
    && (forall p {:trigger Own(t, p)} :: p != [] && p[0] in done && Matches(pattern, p) && Own(t, p).Some? ==>
          Hit(above + p, Own(t, p).value) in hits)
  }

  /** Step `s` leads from `t` to `c`. */
  ghost predicate Leads(t: Tree, s: Step, c: Tree) {
    forall p: Path {:trigger Own(t, p)} :: p != [] && p[0] == s ==> Own(t, p) == Own(c, p[1..])
  }

  lemma HitUp(t: Tree, pattern: Pattern, above: Path, s: Step, c: Tree, q: Path, h: Hit)
    requires pattern != [] && Names(pattern[0], s) && Leads(t, s, c)
    requires IsHit(c, pattern[1..], above + [s], q, h)
    ensures IsHit(t, pattern, above, [s] + q, h)
  {
    var p := [s] + q;
    assert p[1..] == q && above + p == above + [s] + q;
    assert Own(t, p) == Own(c, p[1..]);
    forall i | 0 <= i < |p| ensures Names(pattern[i], p[i]) {
      if i > 0 {
        assert pattern[i] == pattern[1..][i - 1] && p[i] == q[i - 1];
      }
    }
  }

  lemma HitDown(pattern: Pattern, above: Path, s: Step, p: Path)
    requires p != [] && p[0] == s && Matches(pattern, p)
    ensures Matches(pattern[1..], p[1..]) && above + p == (above + [s]) + p[1..]
  {
    var q := p[1..];
    assert p == [s] + q;
    forall i | 0 <= i < |q| ensures Names(pattern[1..][i], q[i]) {
      assert Names(pattern[i + 1], p[i + 1]);
    }
  }

  lemma OneStepFound(t: Tree, pattern: Pattern, above: Path, s: Step, c: Tree, more: seq<Hit>)
    requires pattern != [] && Names(pattern[0], s) && Leads(t, s, c)
    requires AllFound(c, pattern[1..], above + [s], more)
    ensures AllFound(t, pattern, above, more)
  {
    forall h | h in more ensures Found(t, pattern, above, h) {
      assert Found(c, pattern[1..], above + [s], h);
      var q :| IsHit(c, pattern[1..], above + [s], q, h);
      HitUp(t, pattern, above, s, c, q, h);
    }
  }

  lemma OneStepHits(t: Tree, pattern: Pattern, above: Path, done: set<Step>, hits: seq<Hit>, s: Step, c: Tree, more: seq<Hit>)
    requires HitsFrom(t, pattern, above, done, hits)
    requires pattern != [] && Names(pattern[0], s) && Leads(t, s, c)
    requires AllHits(c, pattern[1..], above + [s], more)
    ensures HitsFrom(t, pattern, above, done + {s}, hits + more)
  {
    OneStepFound(t, pattern, above, s, c, more);
    forall p: Path {:trigger Own(t, p)} | p != [] && p[0] in done + {s} && Matches(pattern, p) && Own(t, p).Some?
      ensures Hit(above + p, Own(t, p).value) in hits + more
    {
      if p[0] == s {
        HitDown(pattern, above, s, p);
        assert Own(t, p) == Own(c, p[1..]);
      }
    }
  }

  /** An entry with an id that the level asks for. */
  predicate Wanted(level: Name, item: Tree) {
    OwnId(item).Some? && (level == STAR || OwnId(item).value == level)
  }

  /** All locations a pattern names; the order within a level is open. */
  method Walk(t: Tree, pattern: Pattern, above: Path) returns (hits: seq<Hit>)
    requires Tidy(t)
    ensures AllHits(t, pattern, above, hits)
    decreases |pattern|
  {
    if pattern == [] {
      hits := [Hit(above, t)];
      assert above + [] == above;
      assert IsHit(t, pattern, above, [], hits[0]);
      return;
    }
    hits := [];
    ghost var done: set<Step> := {};
    if t.Dict? {
      var keys := if pattern[0] == STAR then t.entries.Keys else if pattern[0] in t.entries then {pattern[0]} else {};
      ghost var all := keys;
      while keys != {}
        invariant keys <= all
        invariant done == set k | k in all - keys :: Key(k)
        invariant HitsFrom(t, pattern, above, done, hits)
        decreases keys
      {
        var k :| k in keys;
        TidyChild(t, Key(k));
        var more := Walk(t.entries[k], pattern[1..], above + [Key(k)]);
        OneStepHits(t, pattern, above, done, hits, Key(k), t.entries[k], more);
        hits := hits + more;
        keys := keys - {k};
        done := done + {Key(k)};
      }
      forall p: Path {:trigger Own(t, p)} | Matches(pattern, p) && Own(t, p).Some? ensures p[0] in done {
        assert p[0].name in all;
      }
    } else if t.List? {
      TidyHere(t);
      for i := 0 to |t.items|
        invariant done == set j | 0 <= j < i && Wanted(pattern[0], t.items[j]) :: Entry(OwnId(t.items[j]).value)
        invariant HitsFrom(t, pattern, above, done, hits)
      {
        var item := t.items[i];
        if Wanted(pattern[0], item) {
          var s := Entry(OwnId(item).value);
          FindIs(t.items, s.name, i);
          TidyChild(t, s);
          var more := Walk(item, pattern[1..], above + [s]);
          OneStepHits(t, pattern, above, done, hits, s, item, more);
          hits := hits + more;
          done := done + {s};
        }
      }
      forall p: Path {:trigger Own(t, p)} | Matches(pattern, p) && Own(t, p).Some? ensures p[0] in done {
        var j := Find(t.items, p[0].name);
        assert Wanted(pattern[0], t.items[j]);
      }
    }
  }

  // ---- putting this machine's values back ----

  lemma {:induction false} SetSame(t: Tree, p: Path, v: Tree)
    requires Get(t, p) == Some(v) && Set(t, p, v).Some?
    ensures Set(t, p, v).value == t
    decreases |p|
  {
    var c := Child(t, p[0]).value;
    if |p| == 1 {
      assert p[1..] == [] && c == v;
    } else {
      SetSame(c, p[1..], v);
    }
    assert WithChild(t, p[0], c) == t by {
      match p[0] {
        case Key(k) => assert t.entries[k := c] == t.entries;
        case Entry(id) =>
          var i := Find(t.items, id);
          assert t.items[i := c] == t.items;
      }
    }
  }

  /** What is below a location of this machine's tree. */
  lemma OwnBelow(mine: Tree, p: Path, q: Path)
    requires Own(mine, p).Some? && p <= q
    ensures Get(mine, q) == Get(Own(mine, p).value, q[|p|..])
  {
    OwnIsGet(mine, p);
    assert q == p + q[|p|..];
    GetAppend(mine, p, q[|p|..]);
  }

  lemma {:induction false} OwnAbove(mine: Tree, p: Path)
    requires Own(mine, p).Some? && p != [] && p[|p| - 1].Key?
    ensures Own(mine, p[..|p| - 1]).Some? && Own(mine, p[..|p| - 1]).value.Dict?
    decreases |p|
  {
    if |p| == 1 {
      assert p[..0] == [];
    } else {
      var parent := p[..|p| - 1];
      assert parent[0] == p[0] && parent[1..] == p[1..][..|p| - 2];
      OwnAbove(Child(mine, p[0]).value, p[1..]);
    }
  }

  ghost predicate Holds(mine: Tree, t: Tree, p: Path) {
    Own(mine, p).Some? && Get(t, p) == Own(mine, p)
  }

  /** `q` is neither above nor below a kept location. */
  ghost predicate Apart(kept: seq<Path>, q: Path) {
    forall p :: p in kept ==> Unrelated(p, q)
  }

  /** No kept location is at or above `q`. */
  ghost predicate NotKept(kept: seq<Path>, q: Path) {
    forall p :: p in kept ==> !(p <= q)
  }

  ghost predicate Beside(theirs: Tree, t: Tree, kept: seq<Path>) {
    forall q: Path {:trigger Get(t, q)} :: Apart(kept, q) ==> Get(t, q) == Get(theirs, q)
  }

  ghost predicate Kinds(theirs: Tree, t: Tree, kept: seq<Path>) {
    forall q: Path {:trigger Get(t, q)} :: NotKept(kept, q) ==> SameKind(Get(t, q), Get(theirs, q))
  }

  /** The partner's tree with this machine's values at the kept locations. */
  ghost predicate Merge(theirs: Tree, mine: Tree, t: Tree, kept: seq<Path>) {
    && (forall p :: p in kept ==> Holds(mine, t, p))
    && Beside(theirs, t, kept)
    && Kinds(theirs, t, kept)
  }

  /** Below a kept location the tree is this machine's. */
  lemma BelowKept(mine: Tree, t: Tree, r: Path, q: Path)
    requires Holds(mine, t, r) && r <= q
    ensures Get(t, q) == Get(mine, q)
  {
    assert q == r + q[|r|..];
    GetAppend(t, r, q[|r|..]);
    OwnBelow(mine, r, q);
  }

  lemma StillHolds(mine: Tree, t: Tree, p: Path, r: Path)
    requires Own(mine, p).Some? && Set(t, p, Own(mine, p).value).Some? && Holds(mine, t, r)
    requires !(r < p)
    ensures Holds(mine, Set(t, p, Own(mine, p).value).value, r)
  {
    var v := Own(mine, p).value;
    var u := Set(t, p, v).value;
    OwnIsWritable(mine, p);
    GetSet(t, p, v);
    if p <= r {
      OwnIsGet(mine, r);
      BelowKept(mine, u, p, r);
    } else {
      GetBeside(t, p, v, r);
    }
  }

  lemma ApartMore(kept: seq<Path>, p: Path, q: Path)
    ensures Apart(kept + [p], q) <==> Apart(kept, q) && Unrelated(p, q)
    ensures NotKept(kept + [p], q) <==> NotKept(kept, q) && !(p <= q)
  {
    assert p in kept + [p];
    assert forall r :: r in kept ==> r in kept + [p];
  }

  lemma OneMoreKept(theirs: Tree, mine: Tree, t: Tree, kept: seq<Path>, p: Path, u: Tree)
    requires Merge(theirs, mine, t, kept) && Own(mine, p).Some?
    requires Set(t, p, Own(mine, p).value) == Some(u)
    ensures Merge(theirs, mine, u, kept + [p])
  {
    var v := Own(mine, p).value;
    OwnIsWritable(mine, p);
    OwnIsGet(mine, p);
    GetSet(t, p, v);
    if r :| r in kept && r < p {
      BelowKept(mine, t, r, p);
      SetSame(t, p, v);
    } else {
      forall r | r in kept ensures Holds(mine, u, r) {
        StillHolds(mine, t, p, r);
      }
    }
    forall q: Path | Apart(kept + [p], q) ensures Get(u, q) == Get(theirs, q) {
      ApartMore(kept, p, q);
      GetBeside(t, p, v, q);
      assert Get(t, q) == Get(theirs, q);
    }
    forall q: Path | NotKept(kept + [p], q) ensures SameKind(Get(u, q), Get(theirs, q)) {
      ApartMore(kept, p, q);
      if q < p {
        GetAbove(t, p, v, q);
      } else {
        GetBeside(t, p, v, q);
      }
      assert SameKind(Get(t, q), Get(theirs, q));
    }
  }

  predicate DictAt(t: Tree, p: Path) {
    Get(t, p).Some? && Get(t, p).value.Dict?
  }

  /** A location can be kept when it is a key of something the partner has, or
      of something put there because it was kept itself. */
  ghost predicate Keepable(theirs: Tree, earlier: seq<Path>, p: Path) {
    p != [] && p[|p| - 1].Key? &&
    (DictAt(theirs, p[..|p| - 1]) || exists r :: r in earlier && r < p)
  }

  lemma WhenKept(theirs: Tree, mine: Tree, t: Tree, kept: seq<Path>, p: Path)
    requires Merge(theirs, mine, t, kept) && Own(mine, p).Some?
    ensures Set(t, p, Own(mine, p).value).Some? <==> Keepable(theirs, kept, p)
  {
    SetSucceeds(t, p, Own(mine, p).value);
    if p != [] && p[|p| - 1].Key? {
      var parent := p[..|p| - 1];
      OwnAbove(mine, p);
      OwnIsGet(mine, parent);
      if r :| r in kept && r < p {
        assert r <= parent;
        BelowKept(mine, t, r, parent);
      } else {
        forall r | r in kept ensures !(r <= parent) {
          assert r <= parent ==> r < p;
        }
        assert NotKept(kept, parent);
        assert SameKind(Get(t, parent), Get(theirs, parent));
      }
    }
  }

  function Concat(groups: seq<seq<Path>>): seq<Path> {
    if groups == [] then [] else Concat(groups[..|groups| - 1]) + groups[|groups| - 1]
  }

  /** What pattern `j` kept: exactly the keepable ones among the locations it
      names in this machine's tree. */
  ghost predicate KeptBy(theirs: Tree, mine: Tree, pattern: Pattern, earlier: seq<Path>, group: seq<Path>) {
    && (forall p :: p in group ==> Matches(pattern, p) && Own(mine, p).Some?)
    && (forall p {:trigger Own(mine, p)} :: Matches(pattern, p) && Own(mine, p).Some? ==>
          (p in group <==> Keepable(theirs, earlier, p)))
  }

  /** Locations of one pattern are equally deep, so none makes way for another. */
  lemma SameDepth(theirs: Tree, earlier: seq<Path>, group: seq<Path>, p: Path)
    requires forall r :: r in group ==> |r| == |p|
    ensures Keepable(theirs, earlier + group, p) <==> Keepable(theirs, earlier, p)
  {
    if r :| r in earlier + group && r < p {
      assert r in earlier;
    }
    if r :| r in earlier && r < p {
      assert r in earlier + group;
    }
  }

  /** The locations kept so far are ones the pattern names, and keepable. */
  ghost predicate GroupOk(theirs: Tree, mine: Tree, pattern: Pattern, earlier: seq<Path>, group: seq<Path>) {
    forall p :: p in group ==> Matches(pattern, p) && Own(mine, p).Some? && Keepable(theirs, earlier, p)
  }

  /** Each keepable hit among the first `n` was kept. */
  ghost predicate Done(theirs: Tree, earlier: seq<Path>, hits: seq<Hit>, n: nat, group: seq<Path>)
    requires n <= |hits|
  {
    forall j :: 0 <= j < n && Keepable(theirs, earlier, hits[j].path) ==> hits[j].path in group
  }

  lemma HitIsOwn(mine: Tree, pattern: Pattern, h: Hit)
    requires Found(mine, pattern, [], h)
    ensures Matches(pattern, h.path) && Own(mine, h.path) == Some(h.value)
  {
    var q :| IsHit(mine, pattern, [], q, h);
    assert [] + q == q;
  }

  /** One hit: written exactly when it is keepable. */
  lemma KeepOne(theirs: Tree, mine: Tree, pattern: Pattern, t: Tree, earlier: seq<Path>, group: seq<Path>, p: Path)
    requires Merge(theirs, mine, t, earlier + group) && GroupOk(theirs, mine, pattern, earlier, group)
    requires Matches(pattern, p) && Own(mine, p).Some?
    ensures Set(t, p, Own(mine, p).value).Some? <==> Keepable(theirs, earlier, p)
    ensures Set(t, p, Own(mine, p).value).Some? ==>
              Merge(theirs, mine, Set(t, p, Own(mine, p).value).value, earlier + (group + [p]))
  {
    WhenKept(theirs, mine, t, earlier + group, p);
    SameDepth(theirs, earlier, group, p);
    var put := Set(t, p, Own(mine, p).value);
    if put.Some? {
      OneMoreKept(theirs, mine, t, earlier + group, p, put.value);
      assert earlier + group + [p] == earlier + (group + [p]);
    }
  }

  lemma KeptOn(theirs: Tree, mine: Tree, pattern: Pattern, earlier: seq<Path>, hits: seq<Hit>, i: nat,
               group: seq<Path>, after: seq<Path>)
    requires i < |hits| && GroupOk(theirs, mine, pattern, earlier, group) && Done(theirs, earlier, hits, i, group)
    requires Matches(pattern, hits[i].path) && Own(mine, hits[i].path).Some?
    requires after == if Keepable(theirs, earlier, hits[i].path) then group + [hits[i].path] else group
    ensures GroupOk(theirs, mine, pattern, earlier, after) && Done(theirs, earlier, hits, i + 1, after)
  {
    forall j | 0 <= j < i + 1 && Keepable(theirs, earlier, hits[j].path) ensures hits[j].path in after {
      if j < i {
        assert hits[j].path in group;
      }
    }
  }

  lemma GroupIsWhole(theirs: Tree, mine: Tree, pattern: Pattern, earlier: seq<Path>, hits: seq<Hit>, group: seq<Path>)
    requires AllHits(mine, pattern, [], hits)
    requires GroupOk(theirs, mine, pattern, earlier, group) && Done(theirs, earlier, hits, |hits|, group)
    ensures KeptBy(theirs, mine, pattern, earlier, group)
  {
    forall p: Path {:trigger Own(mine, p)} | Matches(pattern, p) && Own(mine, p).Some?
      ensures p in group <==> Keepable(theirs, earlier, p)
    {
      assert [] + p == p;
      assert Hit(p, Own(mine, p).value) in hits;
    }
  }

  /** One pattern. */
  method KeepPattern(theirs: Tree, mine: Tree, pattern: Pattern, t: Tree, earlier: seq<Path>)
    returns (u: Tree, group: seq<Path>)
    requires Tidy(mine) && Merge(theirs, mine, t, earlier)
    ensures Merge(theirs, mine, u, earlier + group)
    ensures KeptBy(theirs, mine, pattern, earlier, group)
  {
    var hits := Walk(mine, pattern, []);
    u, group := t, [];
    assert earlier + [] == earlier;
    for i := 0 to |hits|
      invariant Merge(theirs, mine, u, earlier + group)
      invariant GroupOk(theirs, mine, pattern, earlier, group)
      invariant Done(theirs, earlier, hits, i, group)
    {
      var p, v := hits[i].path, hits[i].value;
      HitIsOwn(mine, pattern, hits[i]);
      KeepOne(theirs, mine, pattern, u, earlier, group, p);
      var put := Set(u, p, v);
      ghost var after := if put.Some? then group + [p] else group;
      KeptOn(theirs, mine, pattern, earlier, hits, i, group, after);
      if put.Some? {
        u, group := put.value, group + [p];
      }
    }
    GroupIsWhole(theirs, mine, pattern, earlier, hits, group);
  }

  /** The merge of two trees: each pattern in its turn brings back the values of
      `mine` at the locations it names in `theirs`; `kept` lists them. */
  method KeepOwn(theirs: Tree, mine: Tree, patterns: seq<Pattern>)
    returns (result: Tree, kept: seq<Path>, ghost groups: seq<seq<Path>>)
    requires Tidy(mine)
    ensures Merge(theirs, mine, result, kept)
    ensures |groups| == |patterns| && kept == Concat(groups)
    ensures forall j :: 0 <= j < |patterns| ==> KeptBy(theirs, mine, patterns[j], Concat(groups[..j]), groups[j])
  {
    result, kept, groups := theirs, [], [];
    for j := 0 to |patterns|
      invariant |groups| == j && kept == Concat(groups)
      invariant Merge(theirs, mine, result, kept)
      invariant forall k :: 0 <= k < j ==> KeptBy(theirs, mine, patterns[k], Concat(groups[..k]), groups[k])
    {
      var group;
      ghost var before := groups;
      result, group := KeepPattern(theirs, mine, patterns[j], result, kept);
      groups := groups + [group];
      assert groups[..j] == before;
      assert forall k :: 0 <= k < j ==> groups[..k] == before[..k];
      kept := kept + group;
    }
  }
}
