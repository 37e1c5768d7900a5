/** Configuration trees, the locations in them, and writing one location. */
module ConfigTree {
  import opened Prelude

  /** A value of a configuration file. A scalar is known by its text. */
  datatype Tree = Leaf(text: Name) | Dict(entries: map<Name, Tree>) | List(items: seq<Tree>)

  datatype Step = Key(name: Name) | Entry(name: Name)

  type Path = seq<Step>

  const ID := Name("id")
  const NO_ID := Name("None")

  /** The text by which a write finds a list entry: an entry without an id is
      found as "None", one with a composite id is not found. */
  function IdOf(t: Tree): Option<Name> {
    if !t.Dict? then None
    else if ID !in t.entries then Some(NO_ID)
    else if t.entries[ID].Leaf? then Some(t.entries[ID].text)
    else None
  }

  /** The first entry with that id; |items| when there is none. */
  function Find(items: seq<Tree>, id: Name): (i: nat)
    ensures i <= |items| && (i < |items| ==> IdOf(items[i]) == Some(id))
    ensures forall j :: 0 <= j < i ==> IdOf(items[j]) != Some(id)
  {
    if items == [] then 0
    else if IdOf(items[0]) == Some(id) then 0
    else 1 + Find(items[1..], id)
  }

  lemma FindIs(items: seq<Tree>, id: Name, i: nat)
    requires i < |items| && IdOf(items[i]) == Some(id)
    requires forall j :: 0 <= j < i ==> IdOf(items[j]) != Some(id)
    ensures Find(items, id) == i
  {
  }

  lemma FindNone(items: seq<Tree>, id: Name)
    requires forall j :: 0 <= j < |items| ==> IdOf(items[j]) != Some(id)
    ensures Find(items, id) == |items|
  {
  }

  /** One step down. */
  function Child(t: Tree, s: Step): Option<Tree> {
    match s
    case Key(k) => if t.Dict? && k in t.entries then Some(t.entries[k]) else None
    case Entry(id) =>
      if t.List? && Find(t.items, id) < |t.items| then Some(t.items[Find(t.items, id)]) else None
  }

  function Get(t: Tree, p: Path): Option<Tree>
    decreases |p|
  {
    if p == [] then Some(t)
    else
      var c := Child(t, p[0]);
      if c.None? then None else Get(c.value, p[1..])
  }

  /** The tree with its child at `s` replaced. */
  function WithChild(t: Tree, s: Step, c: Tree): Tree
    requires s.Key? ==> t.Dict?
    requires s.Entry? ==> Child(t, s).Some?
  {
    match s
    case Key(k) => Dict(t.entries[k := c])
    case Entry(id) => List(t.items[Find(t.items, id) := c])
  }

  /** Put `v` at `p`, if everything above it exists; a path that ends in a list
      entry is not written. */
  function Set(t: Tree, p: Path, v: Tree): Option<Tree>
    decreases |p|
  {
    if p == [] then None
    else if |p| == 1 then (if p[0].Key? && t.Dict? then Some(WithChild(t, p[0], v)) else None)
    else
      var c := Child(t, p[0]);
      if c.None? then None
      else
        var d := Set(c.value, p[1..], v);
        if d.None? then None else Some(WithChild(t, p[0], d.value))
  }

  // ---- relations between paths ----

  predicate Unrelated(p: Path, q: Path) {
    !(p <= q) && !(q <= p)
  }

  /** Writing an entry's own id leaves it under that id. */
  predicate KeepsIds(p: Path, v: Tree) {
    |p| >= 2 && p[|p| - 2].Entry? && p[|p| - 1] == Key(ID) ==> v == Leaf(p[|p| - 2].name)
  }

  /** No path leads through an entry's id. */
  predicate AvoidsIds(p: Path) {
    forall i :: 0 <= i < |p| - 2 && p[i].Entry? ==> p[i + 1] != Key(ID)
  }

  predicate Writable(p: Path, v: Tree) {
    KeepsIds(p, v) && AvoidsIds(p)
  }

  // ---- the laws of reading and writing ----

  lemma {:induction false} GetAppend(t: Tree, p: Path, q: Path)
    ensures Get(t, p + q) == if Get(t, p).Some? then Get(Get(t, p).value, q) else None
    decreases |p|
  {
    if p == [] {
      assert p + q == q;
    } else {
      assert (p + q)[0] == p[0] && (p + q)[1..] == p[1..] + q;
      if Child(t, p[0]).Some? {
        GetAppend(Child(t, p[0]).value, p[1..], q);
      }
    }
  }

  lemma ChildOfWith(t: Tree, s: Step, c: Tree)
    requires s.Key? ==> t.Dict?
    requires s.Entry? ==> Child(t, s).Some? && IdOf(c) == Some(s.name)
    ensures Child(WithChild(t, s, c), s) == Some(c)
  {
    if s.Entry? {
      var i := Find(t.items, s.name);
      FindIs(t.items[i := c], s.name, i);
    }
  }

  lemma OtherChild(t: Tree, s: Step, c: Tree, r: Step)
    requires s.Key? ==> t.Dict?
    requires s.Entry? ==> Child(t, s).Some? && IdOf(c) == Some(s.name)
    requires r != s
    ensures Child(WithChild(t, s, c), r) == Child(t, r)
  {
    if s.Entry? && r.Entry? {
      var i := Find(t.items, s.name);
      var items := t.items[i := c];
      var j := Find(t.items, r.name);
      if j < |t.items| {
        assert items[j] == t.items[j];
        FindIs(items, r.name, j);
      } else {
        forall k | 0 <= k < |items| ensures IdOf(items[k]) != Some(r.name) {
          assert items[k] == if k == i then c else t.items[k];
        }
        FindNone(items, r.name);
      }
    }
  }

  /** A write below an entry leaves its id. */
  lemma SetKeepsId(t: Tree, p: Path, v: Tree, id: Name)
    requires Set(t, p, v).Some? && IdOf(t) == Some(id)
    requires p == [Key(ID)] ==> v == Leaf(id)
    requires |p| > 1 ==> p[0] != Key(ID)
    ensures IdOf(Set(t, p, v).value) == Some(id)
  {
  }

  lemma {:induction false} WritableRest(p: Path, v: Tree)
    requires |p| >= 2 && Writable(p, v)
    ensures Writable(p[1..], v)
    ensures p[0].Entry? ==> (p[1..] == [Key(ID)] ==> v == Leaf(p[0].name)) && (|p| > 2 ==> p[1] != Key(ID))
  {
    var r := p[1..];
    forall i | 0 <= i < |r| - 2 && r[i].Entry? ensures r[i + 1] != Key(ID) {
      assert p[i + 1].Entry?;
    }
  }

  /** What a write changes one step down. */
  lemma SetStep(t: Tree, p: Path, v: Tree)
    requires |p| >= 2 && Set(t, p, v).Some? && Writable(p, v)
    ensures Child(t, p[0]).Some? && Set(Child(t, p[0]).value, p[1..], v).Some?
    ensures Child(Set(t, p, v).value, p[0]) == Set(Child(t, p[0]).value, p[1..], v)
    ensures forall s :: s != p[0] ==> Child(Set(t, p, v).value, s) == Child(t, s)
    ensures Writable(p[1..], v)
  {
    WritableRest(p, v);
    var c := Child(t, p[0]).value;
    var d := Set(c, p[1..], v).value;
    if p[0].Entry? {
      SetKeepsId(c, p[1..], v, p[0].name);
    }
    ChildOfWith(t, p[0], d);
    forall s | s != p[0] ensures Child(Set(t, p, v).value, s) == Child(t, s) {
      OtherChild(t, p[0], d, s);
    }
  }

  /** A write succeeds exactly when it ends in a key of something that is there. */
  lemma {:induction false} SetSucceeds(t: Tree, p: Path, v: Tree)
    ensures Set(t, p, v).Some? <==>
            p != [] && p[|p| - 1].Key? && Get(t, p[..|p| - 1]).Some? && Get(t, p[..|p| - 1]).value.Dict?
    decreases |p|
  {
    if |p| == 1 {
      assert p[..0] == [];
    } else if |p| >= 2 {
      var parent := p[..|p| - 1];
      assert parent[0] == p[0] && parent[1..] == p[1..][..|p| - 2];
      if Child(t, p[0]).Some? {
        SetSucceeds(Child(t, p[0]).value, p[1..], v);
      }
    }
  }

  /** What was written is read back. */
  lemma {:induction false} GetSet(t: Tree, p: Path, v: Tree)
    requires Set(t, p, v).Some? && Writable(p, v)
    ensures Get(Set(t, p, v).value, p) == Some(v)
    decreases |p|
  {
    if |p| == 1 {
      assert p[1..] == [];
    } else {
      SetStep(t, p, v);
      GetSet(Child(t, p[0]).value, p[1..], v);
    }
  }

  lemma PrefixTail(p: Path, q: Path)
    requires p != [] && q != [] && p[0] == q[0]
    ensures p[1..] <= q[1..] <==> p <= q
  {
    assert p == [p[0]] + p[1..] && q == [q[0]] + q[1..];
  }

  /** Everything beside the written location stays. */
  lemma {:induction false} GetBeside(t: Tree, p: Path, v: Tree, q: Path)
    requires Set(t, p, v).Some? && Writable(p, v) && Unrelated(p, q)
    ensures Get(Set(t, p, v).value, q) == Get(t, q)
    decreases |p|
  {
    assert q != [] && p != [];
    if |p| == 1 {
      assert q[0] != p[0];
      OtherChild(t, p[0], v, q[0]);
    } else {
      SetStep(t, p, v);
      if q[0] == p[0] {
        PrefixTail(p, q);
        PrefixTail(q, p);
        GetBeside(Child(t, p[0]).value, p[1..], v, q[1..]);
      }
    }
  }

  predicate SameKind(a: Option<Tree>, b: Option<Tree>) {
    a.Some? == b.Some? &&
    (a.Some? ==> a.value.Leaf? == b.value.Leaf? && a.value.Dict? == b.value.Dict? && a.value.List? == b.value.List?)
  }

  /** Everything above the written location is still there, and still of its kind. */
  lemma {:induction false} GetAbove(t: Tree, p: Path, v: Tree, q: Path)
    requires Set(t, p, v).Some? && Writable(p, v) && q < p
    ensures SameKind(Get(Set(t, p, v).value, q), Get(t, q))
    decreases |p|
  {
    if q != [] {
      SetStep(t, p, v);
      assert q[1..] < p[1..];
      GetAbove(Child(t, p[0]).value, p[1..], v, q[1..]);
    }
  }

  /** An entry goes by the text of its id, and by "None" when it has no id. */
  predicate GoesBy(t: Tree, id: Name) {
    t.Dict? && if Name("id") in t.entries then t.entries[Name("id")] == Leaf(id) else id == Name("None")
  }

  /** A step to a key leads to the value under it, a step to an entry to the first that
      goes by the name. */
  lemma StepsLead(t: Tree, name: Name, i: nat)
    ensures Get(t, [Key(name)]) == if t.Dict? && name in t.entries then Some(t.entries[name]) else None
    ensures t.List? && i < |t.items| && GoesBy(t.items[i], name) && (forall j :: 0 <= j < i ==> !GoesBy(t.items[j], name)) ==>
              Get(t, [Entry(name)]) == Some(t.items[i])
    ensures !t.List? || (forall j :: 0 <= j < |t.items| ==> !GoesBy(t.items[j], name)) ==> Get(t, [Entry(name)]) == None
  {
    forall x: Tree ensures IdOf(x) == Some(name) <==> GoesBy(x, name) {}
    if t.Dict? && name in t.entries {
      assert Get(t, [Key(name)]) == Get(t.entries[name], []);
    }
    if t.List? {
      if i < |t.items| && GoesBy(t.items[i], name) && (forall j :: 0 <= j < i ==> !GoesBy(t.items[j], name)) {
        FindIs(t.items, name, i);
        assert Get(t, [Entry(name)]) == Get(t.items[i], []);
      } else if forall j :: 0 <= j < |t.items| ==> !GoesBy(t.items[j], name) {
        FindNone(t.items, name);
      }
    }
  }
}
