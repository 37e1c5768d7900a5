/** What commands control together: union-find over the registers they write
    and the channels they name. */
module Channels {
  import opened Prelude
  import opened Names
  import opened Frames

  datatype Alias = NoAlias | AliasOf(target: Option<Name>)
  datatype CommandDef = CommandDef(writes: seq<Write>, channel: Name, alias: Alias)

  /** The template's commands: `names` is the order they are declared in. */
  datatype Defs = Defs(names: seq<Name>, of: map<Name, CommandDef>)

  const NO_NAME := Name("")

  datatype Key = RegKey(register: Name) | ChannelKey(channel: Name)

  ghost predicate ValidDefs(d: Defs) {
    NoDup(d.names) && forall n :: n in d.names <==> n in d.of
  }

  /** The keys a command is grouped by. */
  function KeysOf(c: CommandDef): seq<Key> {
    RegKeys(c.writes) + (if c.channel != NO_NAME then [ChannelKey(c.channel)] else [])
  }

  function RegKeys(writes: seq<Write>): seq<Key> {
    if writes == [] then []
    else (if writes[0].register != NO_NAME then [RegKey(writes[0].register)] else []) + RegKeys(writes[1..])
  }

  lemma {:induction false} RegKeysAre(writes: seq<Write>)
    ensures forall r :: RegKey(r) in RegKeys(writes) <==> r != NO_NAME && exists i :: 0 <= i < |writes| && writes[i].register == r
    ensures forall k :: k in RegKeys(writes) ==> k.RegKey?
  {
    if writes != [] {
      RegKeysAre(writes[1..]);
      forall r ensures RegKey(r) in RegKeys(writes) <==> r != NO_NAME && exists i :: 0 <= i < |writes| && writes[i].register == r {
        if RegKey(r) in RegKeys(writes[1..]) {
          var i :| 0 <= i < |writes[1..]| && writes[1..][i].register == r;
          assert writes[i + 1].register == r;
        }
        if r != NO_NAME && exists i :: 0 <= i < |writes| && writes[i].register == r {
          var i :| 0 <= i < |writes| && writes[i].register == r;
          if i > 0 { assert writes[1..][i - 1].register == r; }
        }
      }
    }
  }

  // ---- being linked by a chain of shared keys ----

  type Keyed = map<Name, set<Key>>

  predicate Shares(p: Keyed, a: Name, b: Name) {
    a in p && b in p && p[a] * p[b] != {}
  }

  predicate IsChain(p: Keyed, chain: seq<Name>) {
    chain != [] && forall i :: 0 <= i < |chain| - 1 ==> Shares(p, chain[i], chain[i + 1])
  }

  ghost predicate Linked(p: Keyed, a: Name, b: Name) {
    exists chain :: IsChain(p, chain) && chain[0] == a && chain[|chain| - 1] == b
  }

  function AllKeys(d: Defs): Keyed {
    map n | n in d.of :: KeysFor(d.of[n])
  }

  /** An alias is not grouped by keys of its own. */
  function KeysFor(c: CommandDef): set<Key> {
    if c.alias.NoAlias? then SetOf(KeysOf(c)) else {}
  }

  function SetOf(keys: seq<Key>): set<Key> {
    set k | k in keys
  }

  lemma LinkedSelf(p: Keyed, a: Name)
    ensures Linked(p, a, a)
  {
    assert IsChain(p, [a]);
  }

  lemma LinkedStep(p: Keyed, a: Name, b: Name)
    requires Shares(p, a, b)
    ensures Linked(p, a, b)
  {
    assert IsChain(p, [a, b]);
  }

  lemma LinkedTransitive(p: Keyed, a: Name, b: Name, c: Name)
    requires Linked(p, a, b) && Linked(p, b, c)
    ensures Linked(p, a, c)
  {
    var x :| IsChain(p, x) && x[0] == a && x[|x| - 1] == b;
    var y :| IsChain(p, y) && y[0] == b && y[|y| - 1] == c;
    var z := x + y[1..];
    forall i | 0 <= i < |z| - 1 ensures Shares(p, z[i], z[i + 1]) {
      if i < |x| - 1 {
        assert z[i] == x[i] && z[i + 1] == x[i + 1];
      } else {
        assert z[i] == y[i - |x| + 1] && z[i + 1] == y[i - |x| + 2];
      }
    }
    assert IsChain(p, z);
  }

  lemma LinkedSymmetric(p: Keyed, a: Name, b: Name)
    requires Linked(p, a, b)
    ensures Linked(p, b, a)
  {
    var x :| IsChain(p, x) && x[0] == a && x[|x| - 1] == b;
    var y := seq(|x|, i requires 0 <= i < |x| => x[|x| - 1 - i]);
    forall i | 0 <= i < |y| - 1 ensures Shares(p, y[i], y[i + 1]) {
      assert Shares(p, x[|x| - 2 - i], x[|x| - 2 - i + 1]);
    }
    assert IsChain(p, y);
  }

  /** Adding keys only adds links. */
  lemma LinkedGrows(p: Keyed, q: Keyed, a: Name, b: Name)
    requires Linked(p, a, b)
    requires forall n :: n in p ==> n in q && p[n] <= q[n]
    ensures Linked(q, a, b)
  {
    var x :| IsChain(p, x) && x[0] == a && x[|x| - 1] == b;
    forall i | 0 <= i < |x| - 1 ensures Shares(q, x[i], x[i + 1]) {
      assert Shares(p, x[i], x[i + 1]);
      var k :| k in p[x[i]] * p[x[i + 1]];
      assert k in q[x[i]] * q[x[i + 1]];
    }
    assert IsChain(q, x);
  }

  /** Whatever agrees along shared keys agrees along chains. */
  lemma {:induction false} AlongChain(p: Keyed, root: map<Name, Name>, chain: seq<Name>)
    requires IsChain(p, chain) && forall n :: n in p ==> n in root
    requires chain[0] in root
    requires forall a, b :: Shares(p, a, b) ==> root[a] == root[b]
    ensures chain[|chain| - 1] in root && root[chain[|chain| - 1]] == root[chain[0]]
  {
    if |chain| > 1 {
      var front := chain[..|chain| - 1];
      forall i | 0 <= i < |front| - 1 ensures Shares(p, front[i], front[i + 1]) {
        assert Shares(p, chain[i], chain[i + 1]);
      }
      AlongChain(p, root, front);
      assert Shares(p, chain[|chain| - 2], chain[|chain| - 2 + 1]);
    }
  }

  // ---- the forest ----

  type Links = map<Name, Name>

  /** Following the parents of `n` climbs to its root. */
  ghost predicate NodeOk(parent: Links, root: Links, height: map<Name, nat>, n: Name)
    requires n in parent
  {
    && n in root && n in height && parent[n] in parent && root[n] in parent
    && parent[n] in height && parent[n] in root
    && root[parent[n]] == root[n] && parent[root[n]] == root[n]
    && (if parent[n] == n then root[n] == n else height[parent[n]] < height[n])
  }

  ghost predicate ForestOk(parent: Links, root: Links, height: map<Name, nat>) {
    root.Keys == parent.Keys
    && forall n {:trigger NodeOk(parent, root, height, n)} :: n in parent ==> NodeOk(parent, root, height, n)
  }

  lemma HalvingKeeps(parent: Links, root: Links, height: map<Name, nat>, n: Name)
    requires ForestOk(parent, root, height) && n in parent && parent[n] != n
    ensures n in root && n in height && parent[n] in parent && parent[parent[n]] in parent
    ensures parent[parent[n]] in root && parent[parent[n]] in height
    ensures ForestOk(parent[n := parent[parent[n]]], root, height)
    ensures root[parent[parent[n]]] == root[n] && height[parent[parent[n]]] < height[n]
  {
    assert NodeOk(parent, root, height, n) && NodeOk(parent, root, height, parent[n]);
    var up := parent[parent[n]];
    var parent' := parent[n := up];
    forall x | x in parent' ensures NodeOk(parent', root, height, x) {
      assert NodeOk(parent, root, height, x) && NodeOk(parent, root, height, root[x]);
      if x == n { assert NodeOk(parent, root, height, up); }
    }
  }

  function Merge(root: Links, ra: Name, rb: Name): Links {
    map n | n in root :: if root[n] == rb then ra else root[n]
  }

  ghost function Raised(root: Links, height: map<Name, nat>, ra: Name, rb: Name): map<Name, nat>
    requires ra in height
  {
    map n | n in height :: if n in root && root[n] == rb then height[n] + height[ra] + 1 else height[n]
  }

  lemma UnionKeeps(parent: Links, root: Links, height: map<Name, nat>, ra: Name, rb: Name)
    requires ForestOk(parent, root, height) && ra in parent && rb in parent
    requires parent[ra] == ra && parent[rb] == rb && ra != rb
    ensures ra in height && ForestOk(parent[rb := ra], Merge(root, ra, rb), Raised(root, height, ra, rb))
  {
    assert NodeOk(parent, root, height, ra) && NodeOk(parent, root, height, rb);
    var parent' := parent[rb := ra];
    var root', height' := Merge(root, ra, rb), Raised(root, height, ra, rb);
    forall x | x in parent' ensures NodeOk(parent', root', height', x) {
      assert NodeOk(parent, root, height, x) && NodeOk(parent, root, height, root[x]);
      assert NodeOk(parent, root, height, parent[x]);
    }
  }

  /** Parent links with path halving; `root` and `height` say where they lead. */
  class Forest {
    var parent: Links
    ghost var root: Links
    ghost var height: map<Name, nat>

    ghost predicate Valid()
      reads this
    {
      ForestOk(parent, root, height)
    }

    constructor (names: set<Name>)
      ensures Valid() && root == map n | n in names :: n
    {
      parent := map n | n in names :: n;
      root := map n | n in names :: n;
      height := map n | n in names :: 0;
    }

    /** The root of a tree; every second link on the way is shortened. */
    method Find(n0: Name) returns (n: Name)
      requires Valid() && n0 in root
      modifies this`parent
      ensures Valid()
      ensures n == root[n0] && n in parent && parent[n] == n && n in root && root[n] == n
    {
      n := n0;
      assert NodeOk(parent, root, height, n0);
      while parent[n] != n
        invariant Valid() && n in parent && n in height && root[n] == root[n0]
        decreases height[n]
      {
        assert NodeOk(parent, root, height, n);
        HalvingKeeps(parent, root, height, n);
        parent := parent[n := parent[parent[n]]];
        n := parent[n];
      }
      assert NodeOk(parent, root, height, n);
    }

    /** Two trees become one; a tree with itself stays. */
    method Union(a: Name, b: Name)
      requires Valid() && a in root && b in root
      modifies this
      ensures Valid()
      ensures root == Merge(old(root), old(root)[a], old(root)[b])
    {
      var ra := Find(a);
      var rb := Find(b);
      assert NodeOk(parent, root, height, ra) && NodeOk(parent, root, height, rb);
      if ra != rb {
        UnionKeeps(parent, root, height, ra, rb);
        parent := parent[rb := ra];
        height := Raised(root, height, ra, rb);
        root := Merge(root, ra, rb);
      } else {
        assert root == Merge(root, ra, rb);
      }
    }
  }

  // ---- grouping the commands ----

  /** The trees are the chains of the keys seen so far. */
  ghost predicate Grouped(root: Links, byKey: map<Key, Name>, p: Keyed) {
    && p.Keys == root.Keys
    && (forall k :: k in byKey ==> byKey[k] in p && k in p[byKey[k]])
    && (forall n, k {:trigger k in p[n]} :: n in p && k in p[n] ==> k in byKey && root[byKey[k]] == root[n])
    && (forall a, b {:trigger Linked(p, a, b)} :: a in p && b in p && root[a] == root[b] ==> Linked(p, a, b))
  }

  lemma NewKeyGroups(root: Links, byKey: map<Key, Name>, p: Keyed, n: Name, k: Key)
    requires Grouped(root, byKey, p) && n in p && k !in byKey
    ensures Grouped(root, byKey[k := n], p[n := p[n] + {k}])
  {
    var q := p[n := p[n] + {k}];
    forall a, b | a in q && b in q && root[a] == root[b] ensures Linked(q, a, b) {
      assert Linked(p, a, b);
      LinkedGrows(p, q, a, b);
    }
  }

  lemma KnownKeyGroups(root: Links, byKey: map<Key, Name>, p: Keyed, n: Name, k: Key)
    requires Grouped(root, byKey, p) && n in p && k in byKey && byKey[k] in root
    ensures Grouped(Merge(root, root[byKey[k]], root[n]), byKey, p[n := p[n] + {k}])
  {
    var q := p[n := p[n] + {k}];
    var m := byKey[k];
    var root' := Merge(root, root[m], root[n]);
    assert k in q[m] * q[n];
    assert Shares(q, m, n) && Shares(q, n, m);
    LinkedStep(q, m, n);
    LinkedStep(q, n, m);
    forall a, b | a in q && b in q && root'[a] == root'[b] ensures Linked(q, a, b) {
      if root[a] == root[b] {
        assert Linked(p, a, b);
        LinkedGrows(p, q, a, b);
      } else {
        var (x, y) := if root[a] == root[m] then (m, n) else (n, m);
        assert Linked(p, a, x) && Linked(p, y, b);
        LinkedGrows(p, q, a, x);
        LinkedGrows(p, q, y, b);
        LinkedTransitive(q, a, x, y);
        LinkedTransitive(q, a, y, b);
      }
    }
  }

  /** One tree exactly where a chain of shared keys leads. */
  lemma TreesAreChains(root: Links, byKey: map<Key, Name>, p: Keyed, a: Name, b: Name)
    requires Grouped(root, byKey, p) && a in p && b in p
    ensures root[a] == root[b] <==> Linked(p, a, b)
  {
    if Linked(p, a, b) {
      var x :| IsChain(p, x) && x[0] == a && x[|x| - 1] == b;
      forall c, e | Shares(p, c, e) ensures root[c] == root[e] {
        var k :| k in p[c] * p[e];
        assert k in p[c] && k in p[e];
      }
      AlongChain(p, root, x);
    }
  }

  method RegisterKey(forest: Forest, byKey0: map<Key, Name>, n: Name, k: Key, ghost p: Keyed)
    returns (byKey: map<Key, Name>)
    requires forest.Valid() && Grouped(forest.root, byKey0, p) && n in p
    modifies forest
    ensures forest.Valid() && Grouped(forest.root, byKey, p[n := p[n] + {k}])
  {
    byKey := byKey0;
    if k in byKey {
      KnownKeyGroups(forest.root, byKey, p, n, k);
      forest.Union(byKey[k], n);
    } else {
      NewKeyGroups(forest.root, byKey, p, n, k);
      byKey := byKey[k := n];
    }
  }

  /** A command's own keys join it to the commands that had them before. */
  method Register(forest: Forest, byKey0: map<Key, Name>, n: Name, keys: seq<Key>, ghost p0: Keyed)
    returns (byKey: map<Key, Name>, ghost p: Keyed)
    requires forest.Valid() && Grouped(forest.root, byKey0, p0) && n in p0
    modifies forest
    ensures forest.Valid() && Grouped(forest.root, byKey, p)
    ensures p == p0[n := p0[n] + SetOf(keys)]
  {
    byKey, p := byKey0, p0;
    assert p0[n] + SetOf(keys[..0]) == p0[n];
    for i := 0 to |keys|
      invariant forest.Valid() && Grouped(forest.root, byKey, p) && n in p
      invariant p == p0[n := p0[n] + SetOf(keys[..i])]
    {
      byKey := RegisterKey(forest, byKey, n, keys[i], p);
      OneMoreKey(p0[n], keys, i);
      p := p[n := p[n] + {keys[i]}];
    }
    assert keys[..|keys|] == keys;
  }

  lemma OneMoreKey(had: set<Key>, keys: seq<Key>, i: nat)
    requires i < |keys|
    ensures had + SetOf(keys[..i + 1]) == (had + SetOf(keys[..i])) + {keys[i]}
  {
    assert keys[..i + 1] == keys[..i] + [keys[i]];
  }

  /** The keys of the first `i` commands. */
  ghost function KeysUpTo(d: Defs, i: nat): Keyed
    requires i <= |d.names|
  {
    map n | n in d.of :: if n in d.names[..i] then KeysFor(d.of[n]) else {}
  }

  lemma KeysUpToNext(d: Defs, i: nat)
    requires ValidDefs(d) && i < |d.names|
    ensures var n := d.names[i];
            && n in d.of && n in KeysUpTo(d, i)
            && KeysUpTo(d, i)[n := KeysUpTo(d, i)[n] + KeysFor(d.of[n])] == KeysUpTo(d, i + 1)
            && (d.of[n].alias.AliasOf? ==> KeysUpTo(d, i + 1) == KeysUpTo(d, i))
  {
    var n := d.names[i];
    assert n in d.names;
    assert d.names[..i + 1] == d.names[..i] + [n];
    assert n !in d.names[..i];
    assert {} + KeysFor(d.of[n]) == KeysFor(d.of[n]);
  }

  lemma KeysUpToEnds(d: Defs)
    requires ValidDefs(d)
    ensures KeysUpTo(d, |d.names|) == AllKeys(d)
    ensures forall n :: n in KeysUpTo(d, 0) ==> KeysUpTo(d, 0)[n] == {}
  {
    assert d.names[..|d.names|] == d.names;
  }

  lemma NoKeysGrouped(p: Keyed, root: Links)
    requires forall n :: n in p ==> p[n] == {}
    requires root == map n | n in p :: n
    ensures Grouped(root, map[], p)
  {
    forall a, b | a in p && b in p && root[a] == root[b] ensures Linked(p, a, b) {
      LinkedSelf(p, a);
    }
  }

  /** The forest of all the commands: one tree per chain of shared keys. */
  method BuildForest(d: Defs) returns (forest: Forest, ghost byKey: map<Key, Name>)
    requires ValidDefs(d)
    ensures fresh(forest) && forest.Valid() && Grouped(forest.root, byKey, AllKeys(d))
  {
    KeysUpToEnds(d);
    forest := new Forest(set n | n in d.names);
    var keyed: map<Key, Name> := map[];
    ghost var p := KeysUpTo(d, 0);
    NoKeysGrouped(p, forest.root);
    for i := 0 to |d.names|
      invariant forest.Valid() && Grouped(forest.root, keyed, p) && p == KeysUpTo(d, i)
    {
      var n := d.names[i];
      KeysUpToNext(d, i);
      if d.of[n].alias.NoAlias? {
        keyed, p := Register(forest, keyed, n, KeysOf(d.of[n]), p);
      }
    }
    byKey := keyed;
  }

  // ---- the ids ----

  predicate Own(d: Defs, n: Name) {
    n in d.of && d.of[n].alias.NoAlias?
  }

  /** The commands of one tree, in the order they are declared. */
  ghost function TreeOf(d: Defs, root: Links, r: Name, names: seq<Name>): seq<Name> {
    Filter(names, n => Own(d, n) && n in root && root[n] == r)
  }

  /** The commands linked with `n`, in the order they are declared. */
  ghost function GroupOf(d: Defs, n: Name): seq<Name> {
    Filter(d.names, m => Own(d, m) && Linked(AllKeys(d), m, n))
  }

  /** The channels that members of a group name. */
  function Declared(d: Defs, members: seq<Name>): seq<Name> {
    if members == [] then []
    else
      (if members[0] in d.of && d.of[members[0]].channel != NO_NAME then [d.of[members[0]].channel] else [])
      + Declared(d, members[1..])
  }

  /** A group's id: its smallest channel name, or all of its commands when it has none. */
  function GroupId(d: Defs, members: seq<Name>): Name {
    var declared := SortNames(Declared(d, members));
    if declared != [] then declared[0] else Name(Join(SortNames(members)))
  }

  /** Where the aliases from `n` on lead: each is followed once. */
  function Real(d: Defs, n: Name, seen: set<Name>): Name
    decreases d.of.Keys - seen
  {
    if n in d.of && d.of[n].alias.AliasOf? && d.of[n].alias.target.Some?
       && d.of[n].alias.target.value in d.of && n !in seen
    then Real(d, d.of[n].alias.target.value, seen + {n})
    else n
  }

  function Entry(groups: map<Name, seq<Name>>, r: Name): seq<Name> {
    if r in groups then groups[r] else []
  }

  ghost predicate TreesUpTo(d: Defs, root: Links, groups: map<Name, seq<Name>>, names: seq<Name>) {
    forall r {:trigger Entry(groups, r)} :: Entry(groups, r) == TreeOf(d, root, r, names)
  }

  lemma TreesGrow(d: Defs, root: Links, groups: map<Name, seq<Name>>, names: seq<Name>, n: Name)
    requires TreesUpTo(d, root, groups, names) && n in root && n in d.of
    ensures d.of[n].alias.AliasOf? ==> TreesUpTo(d, root, groups, names + [n])
    ensures Own(d, n) ==> TreesUpTo(d, root, groups[root[n] := Entry(groups, root[n]) + [n]], names + [n])
  {
    var after := if Own(d, n) then groups[root[n] := Entry(groups, root[n]) + [n]] else groups;
    forall r ensures Entry(after, r) == TreeOf(d, root, r, names + [n]) {
      TreeGrows(d, root, r, names, n);
      assert Entry(groups, r) == TreeOf(d, root, r, names);
    }
  }

  lemma TreeMembers(d: Defs, root: Links, r: Name, names: seq<Name>)
    ensures forall n :: n in TreeOf(d, root, r, names) <==> n in names && Own(d, n) && n in root && root[n] == r
  {
    FilterMembers(names, n => Own(d, n) && n in root && root[n] == r);
  }

  /** The commands of each tree, under its root. */
  method GroupByRoot(d: Defs, forest: Forest) returns (groups: map<Name, seq<Name>>)
    requires ValidDefs(d) && forest.Valid() && forest.root.Keys == d.of.Keys
    modifies forest`parent
    ensures forest.Valid() && TreesUpTo(d, forest.root, groups, d.names)
  {
    groups := map[];
    for i := 0 to |d.names|
      invariant forest.Valid() && TreesUpTo(d, forest.root, groups, d.names[..i])
    {
      var n := d.names[i];
      assert n in d.names && d.names[..i + 1] == d.names[..i] + [n];
      TreesGrow(d, forest.root, groups, d.names[..i], n);
      if d.of[n].alias.NoAlias? {
        var r := forest.Find(n);
        groups := groups[r := Entry(groups, r) + [n]];
      }
    }
    assert d.names[..|d.names|] == d.names;
  }

  lemma TreeGrows(d: Defs, root: Links, r: Name, names: seq<Name>, n: Name)
    ensures TreeOf(d, root, r, names + [n]) ==
            TreeOf(d, root, r, names) + (if Own(d, n) && n in root && root[n] == r then [n] else [])
  {
    FilterAppend(names, [n], m => Own(d, m) && m in root && root[m] == r);
    assert [n][1..] == [];
  }

  /** Commands of one group have the group's id; an alias has its target's. */
  ghost predicate ChannelIds(d: Defs, ids: map<Name, Name>) {
    && ids.Keys == d.of.Keys
    && (forall n {:trigger GroupOf(d, n)} :: Own(d, n) ==> ids[n] == GroupId(d, GroupOf(d, n)))
    && (forall n {:trigger Real(d, n, {})} :: n in d.of && Own(d, Real(d, n, {})) ==> ids[n] == ids[Real(d, n, {})])
  }

  /** Any alias, one that leads to no command included: it has the id of where
      it leads, if that is a command or was declared before it, else its own name. */
  ghost predicate AliasesFollow(d: Defs, ids: map<Name, Name>, upTo: nat)
    requires upTo <= |d.names|
  {
    forall j :: 0 <= j < upTo && d.names[j] in d.of && !Own(d, d.names[j]) ==> FollowsAt(d, ids, j)
  }

  ghost predicate FollowsAt(d: Defs, ids: map<Name, Name>, j: nat)
    requires j < |d.names|
  {
    var n, r := d.names[j], Real(d, d.names[j], {});
    n in ids && if Own(d, r) || r in d.names[..j] then r in ids && ids[n] == ids[r] else ids[n] == n
  }

  method AssignChannels(d: Defs) returns (ids: map<Name, Name>)
    requires ValidDefs(d)
    ensures ChannelIds(d, ids) && AliasesFollow(d, ids, |d.names|)
  {
    var forest, byKey := BuildForest(d);
    var groups := GroupByRoot(d, forest);
    ids := IdPerGroup(d, groups, forest.root);
    forall n | Own(d, n) ensures n in ids && ids[n] == GroupId(d, GroupOf(d, n)) {
      TreeIsGroup(d, forest.root, byKey, n);
    }
    ghost var own := ids;
    ids := AliasIds(d, ids);
    assert d.names[..|d.names|] == d.names;
    forall n {:trigger Real(d, n, {})} | n in d.of && Own(d, Real(d, n, {})) ensures ids[n] == ids[Real(d, n, {})] {
      assert n in d.names;
    }
  }

  lemma TreeIsGroup(d: Defs, root: Links, byKey: map<Key, Name>, n: Name)
    requires ValidDefs(d) && Grouped(root, byKey, AllKeys(d)) && Own(d, n)
    ensures TreeOf(d, root, root[n], d.names) == GroupOf(d, n)
  {
    forall m | m in d.names
      ensures (Own(d, m) && m in root && root[m] == root[n]) == (Own(d, m) && Linked(AllKeys(d), m, n))
    {
      TreesAreChains(root, byKey, AllKeys(d), m, n);
    }
    FilterAgree(d.names, m => Own(d, m) && m in root && root[m] == root[n], m => Own(d, m) && Linked(AllKeys(d), m, n));
  }

  /** A command has its group's id once its tree was seen. */
  ghost predicate IdsUpTo(d: Defs, root: Links, ids: map<Name, Name>, todo: set<Name>) {
    && (forall n {:trigger n in ids} :: n in ids ==> Own(d, n) && n in root && root[n] !in todo)
    && (forall n {:trigger Own(d, n)} :: Own(d, n) && n in root && root[n] !in todo ==> n in ids)
    && (forall n {:trigger ids[n]} :: n in ids && n in root ==> ids[n] == GroupId(d, TreeOf(d, root, root[n], d.names)))
  }

  method IdPerGroup(d: Defs, groups: map<Name, seq<Name>>, ghost root: Links) returns (ids: map<Name, Name>)
    requires ValidDefs(d) && root.Keys == d.of.Keys && TreesUpTo(d, root, groups, d.names)
    ensures IdsUpTo(d, root, ids, {})
  {
    ids := map[];
    var todo := groups.Keys;
    forall n | Own(d, n) && n in root ensures root[n] in todo {
      TreeMembers(d, root, root[n], d.names);
      assert Entry(groups, root[n]) == TreeOf(d, root, root[n], d.names);
    }
    while todo != {}
      invariant todo <= groups.Keys && IdsUpTo(d, root, ids, todo)
      decreases todo
    {
      var r :| r in todo;
      assert Entry(groups, r) == TreeOf(d, root, r, d.names);
      IdsGrow(d, root, ids, todo, r, groups[r]);
      ids := ids + OneId(groups[r], GroupId(d, groups[r]));
      todo := todo - {r};
    }
  }

  function OneId(members: seq<Name>, cid: Name): map<Name, Name> {
    map n | n in members :: cid
  }

  lemma IdsGrow(d: Defs, root: Links, ids: map<Name, Name>, todo: set<Name>, r: Name, members: seq<Name>)
    requires ValidDefs(d) && IdsUpTo(d, root, ids, todo) && r in todo && members == TreeOf(d, root, r, d.names)
    ensures IdsUpTo(d, root, ids + OneId(members, GroupId(d, members)), todo - {r})
  {
    TreeMembers(d, root, r, d.names);
    var after := ids + OneId(members, GroupId(d, members));
    assert forall n :: n in after <==> n in ids || n in members;
  }

  /** The ids once a name that has none yet was looked up. */
  function WithAlias(d: Defs, ids: map<Name, Name>, n: Name): map<Name, Name> {
    if n in ids then ids
    else
      var r := Real(d, n, {});
      ids[n := if r in ids then ids[r] else n]
  }

  ghost predicate AliasesDone(d: Defs, own: map<Name, Name>, ids: map<Name, Name>, i: nat)
    requires i <= |d.names|
  {
    && (forall n :: n in ids <==> n in own || n in d.names[..i])
    && (forall n :: n in own ==> n in ids && ids[n] == own[n])
    && (forall n {:trigger Real(d, n, {})} :: n in ids && Real(d, n, {}) in own ==> ids[n] == own[Real(d, n, {})])
  }

  lemma AliasesDoneNext(d: Defs, own: map<Name, Name>, ids: map<Name, Name>, i: nat)
    requires ValidDefs(d) && i < |d.names| && (forall n :: n in own <==> Own(d, n)) && AliasesDone(d, own, ids, i)
    ensures AliasesDone(d, own, WithAlias(d, ids, d.names[i]), i + 1)
  {
    assert d.names[..i + 1] == d.names[..i] + [d.names[i]];
  }

  lemma FollowsOn(d: Defs, own: map<Name, Name>, ids: map<Name, Name>, i: nat)
    requires ValidDefs(d) && i < |d.names| && (forall n :: n in own <==> Own(d, n)) && AliasesDone(d, own, ids, i)
    requires AliasesFollow(d, ids, i)
    ensures AliasesFollow(d, WithAlias(d, ids, d.names[i]), i + 1)
  {
    forall j | 0 <= j <= i && d.names[j] in d.of && !Own(d, d.names[j])
      ensures FollowsAt(d, WithAlias(d, ids, d.names[i]), j)
    {
      assert j < i ==> d.names[j] != d.names[i];
      assert forall k :: 0 <= k < j ==> d.names[k] in d.names[..i];
    }
  }

  method AliasIds(d: Defs, own: map<Name, Name>) returns (ids: map<Name, Name>)
    requires ValidDefs(d) && forall n :: n in own <==> Own(d, n)
    ensures AliasesDone(d, own, ids, |d.names|) && AliasesFollow(d, ids, |d.names|)
  {
    ids := own;
    forall n | n in own ensures Real(d, n, {}) == n {}
    for i := 0 to |d.names|
      invariant AliasesDone(d, own, ids, i) && AliasesFollow(d, ids, i)
    {
      var n := d.names[i];
      AliasesDoneNext(d, own, ids, i);
      FollowsOn(d, own, ids, i);
      if n !in ids {
        var r := Real(d, n, {});
        ids := ids[n := if r in ids then ids[r] else n];
      }
    }
  }
}
