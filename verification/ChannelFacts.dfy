/** What a channel id says about two commands, and what it does not. */
module ChannelFacts {
  import opened Prelude
  import opened Expressions
  import opened Names
  import opened Frames
  import opened Channels

  lemma GroupMembers(d: Defs, n: Name)
    ensures forall m :: m in GroupOf(d, n) <==> m in d.names && Own(d, m) && Linked(AllKeys(d), m, n)
  {
    FilterMembers(d.names, m => Own(d, m) && Linked(AllKeys(d), m, n));
  }

  /** Commands linked by a chain of shared registers and channel names have one id. */
  lemma LinkedShareId(d: Defs, ids: map<Name, Name>, a: Name, b: Name)
    requires ValidDefs(d) && ChannelIds(d, ids) && Own(d, a) && Own(d, b) && Linked(AllKeys(d), a, b)
    ensures ids[a] == ids[b]
  {
    LinkedOneGroup(d, a, b);
  }

  ghost predicate WritesRegister(c: CommandDef, r: Name) {
    exists i :: 0 <= i < |c.writes| && c.writes[i].register == r
  }

  /** Commands with different ids write no common register. */
  lemma DifferentIdsWriteApart(d: Defs, ids: map<Name, Name>, a: Name, b: Name, r: Name)
    requires ValidDefs(d) && ChannelIds(d, ids) && Own(d, a) && Own(d, b) && ids[a] != ids[b]
    requires r != NO_NAME
    ensures !(WritesRegister(d.of[a], r) && WritesRegister(d.of[b], r))
  {
    if WritesRegister(d.of[a], r) && WritesRegister(d.of[b], r) {
      RegKeysAre(d.of[a].writes);
      RegKeysAre(d.of[b].writes);
      var p := AllKeys(d);
      assert RegKey(r) in p[a] * p[b];
      LinkedStep(p, a, b);
      LinkedShareId(d, ids, a, b);
    }
  }

  /** What links two commands: a register both write, or one channel both name. */
  ghost predicate ControlTogether(d: Defs, a: Name, b: Name) {
    && a in d.of && d.of[a].alias.NoAlias? && b in d.of && d.of[b].alias.NoAlias?
    && ((exists r :: r != Name("") && WritesRegister(d.of[a], r) && WritesRegister(d.of[b], r))
        || (d.of[a].channel != Name("") && d.of[a].channel == d.of[b].channel))
  }

  lemma KeysAre(c: CommandDef)
    ensures forall r :: RegKey(r) in KeysOf(c) <==> r != Name("") && WritesRegister(c, r)
    ensures forall x :: ChannelKey(x) in KeysOf(c) <==> x != Name("") && c.channel == x
  {
    RegKeysAre(c.writes);
  }

  lemma SharingIs(d: Defs, a: Name, b: Name)
    ensures Shares(AllKeys(d), a, b) <==> ControlTogether(d, a, b)
  {
    var p := AllKeys(d);
    if a in d.of && b in d.of {
      KeysAre(d.of[a]);
      KeysAre(d.of[b]);
      if ControlTogether(d, a, b) {
        if r :| r != Name("") && WritesRegister(d.of[a], r) && WritesRegister(d.of[b], r) {
          assert RegKey(r) in p[a] * p[b];
        } else {
          assert ChannelKey(d.of[a].channel) in p[a] * p[b];
        }
      }
      if Shares(p, a, b) {
        var k :| k in p[a] * p[b];
        assert k in KeysOf(d.of[a]) && k in KeysOf(d.of[b]);
        match k {
          case RegKey(r) => assert WritesRegister(d.of[a], r) && WritesRegister(d.of[b], r);
          case ChannelKey(x) => assert d.of[a].channel == x && d.of[b].channel == x;
        }
      }
    }
  }

  /** A chain of commands each of which writes a register, or names a channel, that the
      next one does, too. */
  ghost predicate LeadsTo(d: Defs, chain: seq<Name>, a: Name, b: Name) {
    && chain != [] && chain[0] == a && chain[|chain| - 1] == b
    && forall i :: 0 <= i < |chain| - 1 ==> ControlTogether(d, chain[i], chain[i + 1])
  }

  lemma LinkedIs(d: Defs, a: Name, b: Name)
    ensures Linked(AllKeys(d), a, b) <==> exists chain :: LeadsTo(d, chain, a, b)
  {
    forall x, y ensures Shares(AllKeys(d), x, y) <==> ControlTogether(d, x, y) {
      SharingIs(d, x, y);
    }
    if Linked(AllKeys(d), a, b) {
      var chain :| IsChain(AllKeys(d), chain) && chain[0] == a && chain[|chain| - 1] == b;
      assert LeadsTo(d, chain, a, b);
    }
    if chain :| LeadsTo(d, chain, a, b) {
      assert IsChain(AllKeys(d), chain);
    }
  }

  // ---- which id it is ----

  /** A command linked with `n` that names a channel. */
  ghost predicate NamesFor(d: Defs, n: Name, m: Name) {
    Own(d, m) && Linked(AllKeys(d), m, n) && d.of[m].channel != Name("")
  }

  lemma {:induction false} DeclaredHas(d: Defs, members: seq<Name>, m: Name)
    requires m in members && m in d.of && d.of[m].channel != NO_NAME
    ensures d.of[m].channel in Declared(d, members)
  {
    if members[0] != m {
      DeclaredHas(d, members[1..], m);
    }
  }

  lemma SortKeeps(s: seq<Name>, x: Name)
    ensures x in SortNames(s) <==> x in s
  {
    assert x in SortNames(s) <==> x in multiset(SortNames(s));
    assert x in s <==> x in multiset(s);
  }

  /** The id of a group that names channels is the one of them that comes first. */
  lemma IdIsFirstChannel(d: Defs, ids: map<Name, Name>, n: Name, m: Name)
    requires ValidDefs(d) && ChannelIds(d, ids) && Own(d, n) && NamesFor(d, n, m)
    ensures exists k :: NamesFor(d, n, k) && ids[n] == d.of[k].channel
    ensures Leq(ids[n], d.of[m].channel)
  {
    var g := GroupOf(d, n);
    GroupMembers(d, n);
    DeclaredHas(d, g, m);
    DeclaredFirst(d, g);
    var sorted := SortNames(Declared(d, g));
    SortIsSorted(Declared(d, g));
    SortKeeps(Declared(d, g), sorted[0]);
    SortKeeps(Declared(d, g), d.of[m].channel);
    var i :| 0 <= i < |sorted| && sorted[i] == d.of[m].channel;
    if i == 0 {
      LeqTotal(sorted[0].text, sorted[0].text);
    }
    DeclaredBy(d, g, sorted[0]);
    var k :| k in g && k in d.of && d.of[k].channel == sorted[0];
    assert NamesFor(d, n, k);
  }

  /** The id of a group that names none is made of its commands, in their order: of one
      command alone, its name. */
  lemma IdNamesTheGroup(d: Defs, ids: map<Name, Name>, n: Name)
    requires ValidDefs(d) && ChannelIds(d, ids) && Own(d, n) && forall m :: !NamesFor(d, n, m)
    ensures exists members ::
              && Sorted(members) && NoDup(members) && ids[n].text == Join(members)
              && forall m :: m in members <==> Own(d, m) && Linked(AllKeys(d), m, n)
  {
    var g := GroupOf(d, n);
    GroupMembers(d, n);
    DeclaredFirst(d, g);
    if Declared(d, g) != [] {
      DeclaredBy(d, g, Declared(d, g)[0]);
      var m :| m in g && m in d.of && d.of[m].channel == Declared(d, g)[0];
      assert NamesFor(d, n, m);
      assert false;
    }
    var members := SortNames(g);
    SortIsSorted(g);
    FilterNoDup(d.names, m => Own(d, m) && Linked(AllKeys(d), m, n));
    SortedNoDup(g);
    forall m ensures m in members <==> Own(d, m) && Linked(AllKeys(d), m, n) {
      SortKeeps(g, m);
    }
    assert ids[n].text == Join(members);
  }

  lemma {:induction false} OnceInMultiset(s: seq<Name>, x: Name)
    requires NoDup(s)
    ensures multiset(s)[x] <= 1
  {
    if s != [] {
      OnceInMultiset(s[1..], x);
      assert s == [s[0]] + s[1..];
      assert s[0] !in s[1..];
    }
  }

  lemma {:induction false} TwiceInMultiset(s: seq<Name>, i: nat, j: nat)
    requires i < j < |s| && s[i] == s[j]
    ensures multiset(s)[s[i]] >= 2
  {
    assert s == [s[0]] + s[1..];
    if i > 0 {
      TwiceInMultiset(s[1..], i - 1, j - 1);
    } else {
      assert s[1..][j - 1] == s[0];
    }
  }

  lemma SortedNoDup(s: seq<Name>)
    requires NoDup(s)
    ensures NoDup(SortNames(s))
  {
    var t := SortNames(s);
    forall i: nat, j: nat | i < j < |t| ensures t[i] != t[j] {
      if t[i] == t[j] {
        OnceInMultiset(s, t[i]);
        TwiceInMultiset(t, i, j);
      }
    }
  }

  // ---- the other direction ----

  predicate PlusFree(n: Name) {
    forall i :: 0 <= i < |n.text| ==> n.text[i] != '+'
  }

  /** Command names and channel names are identifiers, which hold no "+". */
  ghost predicate Identifiers(d: Defs) {
    forall n :: n in d.of ==> PlusFree(n) && PlusFree(d.of[n].channel)
  }

  lemma {:induction false} DeclaredBy(d: Defs, members: seq<Name>, x: Name)
    requires x in Declared(d, members)
    ensures x != NO_NAME && exists m :: m in members && m in d.of && d.of[m].channel == x
  {
    if members[0] in d.of && d.of[members[0]].channel == x && x != NO_NAME {
      assert members[0] in members;
    } else {
      DeclaredBy(d, members[1..], x);
      var m :| m in members[1..] && m in d.of && d.of[m].channel == x;
      assert m in members;
    }
  }

  lemma FirstSorted(s: seq<Name>)
    requires s != []
    ensures SortNames(s) != [] && SortNames(s)[0] in s
  {
    assert |multiset(SortNames(s))| == |multiset(s)|;
    assert SortNames(s)[0] in multiset(SortNames(s));
  }

  lemma JoinStarts(s: seq<Name>)
    requires s != []
    ensures s[0].text <= Join(s)
    ensures |Join(s)| > |s[0].text| ==> Join(s)[|s[0].text|] == '+'
  {
  }

  /** Where two joined lists of plain names agree, so do their first names. */
  lemma JoinHeads(s: seq<Name>, t: seq<Name>)
    requires s != [] && t != [] && Join(s) == Join(t) && PlusFree(s[0]) && PlusFree(t[0])
    ensures s[0] == t[0]
  {
    JoinStarts(s);
    JoinStarts(t);
    var x, y, joined := s[0].text, t[0].text, Join(s);
    assert forall i :: 0 <= i < |x| ==> joined[i] == x[i];
    assert forall i :: 0 <= i < |y| ==> joined[i] == y[i];
    assert |x| == |y|;
    assert x == y;
  }

  /** A group that names channels of its own has the id that a group without
      any has from its members' names. */
  ghost predicate IdsClash(d: Defs) {
    exists a, b :: SpellsOut(d, a, b)
  }

  ghost predicate SpellsOut(d: Defs, a: Name, b: Name) {
    && Own(d, a) && Own(d, b) && Declared(d, GroupOf(d, b)) == []
    && Declared(d, GroupOf(d, a)) != [] && SortNames(Declared(d, GroupOf(d, a))) != []
    && SortNames(Declared(d, GroupOf(d, a)))[0].text == Join(SortNames(GroupOf(d, b)))
  }

  lemma DeclaredFirst(d: Defs, members: seq<Name>)
    ensures Declared(d, members) != [] ==>
              SortNames(Declared(d, members)) != [] && GroupId(d, members) == SortNames(Declared(d, members))[0]
    ensures Declared(d, members) == [] ==> GroupId(d, members) == Name(Join(SortNames(members)))
  {
    if Declared(d, members) != [] {
      FirstSorted(Declared(d, members));
    }
  }

  lemma UndeclaredLinked(d: Defs, a: Name, b: Name)
    requires ValidDefs(d) && Own(d, a) && Own(d, b) && forall n :: n in d.of ==> PlusFree(n)
    requires Declared(d, GroupOf(d, a)) == [] && Declared(d, GroupOf(d, b)) == []
    requires GroupId(d, GroupOf(d, a)) == GroupId(d, GroupOf(d, b))
    ensures Linked(AllKeys(d), a, b)
  {
    var g, h := GroupOf(d, a), GroupOf(d, b);
    SelfInGroup(d, a);
    SelfInGroup(d, b);
    FirstSorted(g);
    FirstSorted(h);
    GroupMembers(d, a);
    GroupMembers(d, b);
    DeclaredFirst(d, g);
    DeclaredFirst(d, h);
    JoinHeads(SortNames(g), SortNames(h));
    var m := SortNames(g)[0];
    LinkedSymmetric(AllKeys(d), m, a);
    LinkedTransitive(AllKeys(d), a, m, b);
  }

  lemma MixedSpellsOut(d: Defs, a: Name, b: Name)
    requires Own(d, a) && Own(d, b) && Declared(d, GroupOf(d, a)) != [] && Declared(d, GroupOf(d, b)) == []
    requires GroupId(d, GroupOf(d, a)) == GroupId(d, GroupOf(d, b))
    ensures SpellsOut(d, a, b)
  {
    DeclaredFirst(d, GroupOf(d, a));
    DeclaredFirst(d, GroupOf(d, b));
  }

  /** Unless ids clash, one id means one group. */
  lemma SameIdMeansLinked(d: Defs, ids: map<Name, Name>, a: Name, b: Name)
    requires ValidDefs(d) && forall n :: n in d.of ==> PlusFree(n)
    requires ChannelIds(d, ids) && Own(d, a) && Own(d, b) && ids[a] == ids[b]
    requires !IdsClash(d)
    ensures Linked(AllKeys(d), a, b)
  {
    var g, h := GroupOf(d, a), GroupOf(d, b);
    if Declared(d, g) != [] {
      if Declared(d, h) != [] {
        NamesOneChannel(d, a, b, ids[a]);
      } else {
        MixedSpellsOut(d, a, b);
        assert false;
      }
    } else {
      if Declared(d, h) != [] {
        MixedSpellsOut(d, b, a);
        assert false;
      } else {
        UndeclaredLinked(d, a, b);
      }
    }
  }

  ghost predicate IdsTellGroupsApart(d: Defs, ids: map<Name, Name>) {
    forall a, b :: Own(d, a) && Own(d, b) && a in ids && b in ids ==> (ids[a] == ids[b] <==> Linked(AllKeys(d), a, b))
  }

  /** Ids tell groups apart exactly when no channel name that gives a group its
      id spells out the members of a group that names none. */
  lemma IdsAreExact(d: Defs, ids: map<Name, Name>)
    requires ValidDefs(d) && (forall n :: n in d.of ==> PlusFree(n)) && ChannelIds(d, ids)
    ensures IdsTellGroupsApart(d, ids) <==> !IdsClash(d)
  {
    if IdsClash(d) {
      var a, b :| SpellsOut(d, a, b);
      DeclaredFirst(d, GroupOf(d, a));
      DeclaredFirst(d, GroupOf(d, b));
      assert ids[a] == ids[b];
      if Linked(AllKeys(d), a, b) {
        LinkedOneGroup(d, a, b);
      }
    } else {
      forall a, b | Own(d, a) && Own(d, b) && a in ids && b in ids
        ensures ids[a] == ids[b] <==> Linked(AllKeys(d), a, b)
      {
        if ids[a] == ids[b] {
          SameIdMeansLinked(d, ids, a, b);
        }
        if Linked(AllKeys(d), a, b) {
          LinkedShareId(d, ids, a, b);
        }
      }
    }
  }

  /** The smallest channel a group names is a command, which is alone in its
      group and names no channel. */
  ghost predicate NamesAnother(d: Defs, a: Name, b: Name) {
    && Own(d, a) && Own(d, b) && GroupOf(d, b) == [b] && d.of[b].channel == NO_NAME
    && Declared(d, GroupOf(d, a)) != [] && SortNames(Declared(d, GroupOf(d, a))) != []
    && SortNames(Declared(d, GroupOf(d, a)))[0] == b
  }

  /** With identifiers that is the only clash there is. */
  lemma ClashIsWithOneCommand(d: Defs)
    requires ValidDefs(d) && Identifiers(d)
    ensures IdsClash(d) <==> exists a, b :: NamesAnother(d, a, b)
  {
    if IdsClash(d) {
      var a, b :| SpellsOut(d, a, b);
      SpelledOutAlone(d, a, b);
    }
    if a, b :| NamesAnother(d, a, b) {
      AloneSpellsItself(d, b);
      assert SpellsOut(d, a, b);
    }
  }

  lemma AloneSpellsItself(d: Defs, b: Name)
    requires Own(d, b) && d.of[b].channel == NO_NAME
    ensures Declared(d, [b]) == [] && Join(SortNames([b])) == b.text
  {
    assert [b][1..] == [];
    assert SortNames([b]) == [b];
  }

  lemma JoinHoldsPlus(t: seq<Name>)
    requires |t| > 1
    ensures !PlusFree(Name(Join(t)))
  {
    assert Join(t)[|t[0].text|] == '+';
  }

  lemma SpelledOutAlone(d: Defs, a: Name, b: Name)
    requires ValidDefs(d) && Identifiers(d) && SpellsOut(d, a, b)
    ensures NamesAnother(d, a, b)
  {
    var x, g := SortNames(Declared(d, GroupOf(d, a)))[0], GroupOf(d, b);
    var t := SortNames(g);
    FirstSorted(Declared(d, GroupOf(d, a)));
    DeclaredBy(d, GroupOf(d, a), x);
    SelfInGroup(d, b);
    assert |multiset(t)| == |multiset(g)|;
    if |t| > 1 {
      JoinHoldsPlus(t);
      assert false;
    }
    assert g == [b];
    assert t[0] in multiset(t) && t == [b];
    assert [b][1..] == [];
  }

  lemma LinkedOneGroup(d: Defs, a: Name, b: Name)
    requires Linked(AllKeys(d), a, b)
    ensures GroupOf(d, a) == GroupOf(d, b)
  {
    var p := AllKeys(d);
    forall m | m in d.names ensures (Own(d, m) && Linked(p, m, a)) == (Own(d, m) && Linked(p, m, b)) {
      if Linked(p, m, a) { LinkedTransitive(p, m, a, b); }
      if Linked(p, m, b) {
        LinkedSymmetric(p, a, b);
        LinkedTransitive(p, m, b, a);
      }
    }
    FilterAgree(d.names, m => Own(d, m) && Linked(p, m, a), m => Own(d, m) && Linked(p, m, b));
  }

  lemma SelfInGroup(d: Defs, n: Name)
    requires ValidDefs(d) && Own(d, n)
    ensures n in GroupOf(d, n)
  {
    LinkedSelf(AllKeys(d), n);
    GroupMembers(d, n);
  }

  /** The id of a group that declares a channel is the channel one of its members names. */
  lemma DeclaredId(d: Defs, n: Name) returns (m: Name)
    requires ValidDefs(d) && Own(d, n) && Declared(d, GroupOf(d, n)) != []
    ensures Own(d, m) && Linked(AllKeys(d), m, n)
    ensures ChannelKey(GroupId(d, GroupOf(d, n))) in AllKeys(d)[m]
  {
    var x := GroupId(d, GroupOf(d, n));
    FirstSorted(Declared(d, GroupOf(d, n)));
    DeclaredBy(d, GroupOf(d, n), x);
    m :| m in GroupOf(d, n) && m in d.of && d.of[m].channel == x;
    GroupMembers(d, n);
  }

  lemma NamesOneChannel(d: Defs, a: Name, b: Name, x: Name)
    requires ValidDefs(d) && Own(d, a) && Own(d, b)
    requires Declared(d, GroupOf(d, a)) != [] && Declared(d, GroupOf(d, b)) != []
    requires GroupId(d, GroupOf(d, a)) == x && GroupId(d, GroupOf(d, b)) == x
    ensures Linked(AllKeys(d), a, b)
  {
    var p := AllKeys(d);
    var m := DeclaredId(d, a);
    var k := DeclaredId(d, b);
    assert ChannelKey(x) in p[m] * p[k];
    LinkedStep(p, m, k);
    LinkedSymmetric(p, m, a);
    LinkedTransitive(p, a, m, k);
    LinkedTransitive(p, a, k, b);
  }

  /** Commands no two of which share a key. */
  ghost predicate KeysApart(d: Defs) {
    forall u, v :: Shares(AllKeys(d), u, v) ==> u == v
  }

  lemma ApartIsUnlinked(d: Defs, x: Name, y: Name)
    requires KeysApart(d) && x in d.of && Linked(AllKeys(d), x, y)
    ensures x == y
  {
    var p := AllKeys(d);
    var root := map n | n in p :: n;
    var chain :| IsChain(p, chain) && chain[0] == x && chain[|chain| - 1] == y;
    AlongChain(p, root, chain);
  }

  lemma ApartIsAlone(d: Defs, before: seq<Name>, n: Name, after: seq<Name>)
    requires KeysApart(d) && d.names == before + [n] + after && NoDup(d.names) && Own(d, n)
    requires forall m :: m in d.names ==> m in d.of
    ensures GroupOf(d, n) == [n]
  {
    LinkedSelf(AllKeys(d), n);
    var keep := (m: Name) => m == n;
    forall m | m in d.names ensures (Own(d, m) && Linked(AllKeys(d), m, n)) == keep(m) {
      if Linked(AllKeys(d), m, n) {
        ApartIsUnlinked(d, m, n);
      }
    }
    FilterAgree(d.names, m => Own(d, m) && Linked(AllKeys(d), m, n), keep);
    FilterAppend(before + [n], after, keep);
    FilterAppend(before, [n], keep);
    FilterMembers(before, keep);
    FilterMembers(after, keep);
    forall m | m in before || m in after ensures m != n {
      if m in before {
        var i :| 0 <= i < |before| && before[i] == m;
        assert d.names[i] == m && d.names[|before|] == n;
      } else {
        var i :| 0 <= i < |after| && after[i] == m;
        assert d.names[|before| + 1 + i] == m && d.names[|before|] == n;
      }
    }
    NothingKept(before, keep);
    NothingKept(after, keep);
    assert [n][1..] == [];
  }

  lemma AloneId(d: Defs, n: Name)
    requires Own(d, n)
    ensures GroupId(d, [n]) == if d.of[n].channel != NO_NAME then d.of[n].channel else n
  {
    assert [n][1..] == [];
    var c := d.of[n].channel;
    assert Declared(d, [n]) == if c != NO_NAME then [c] else [];
    assert [c][1..] == [] && SortNames([c]) == [c] && SortNames([n]) == [n];
  }

  lemma {:induction false} NothingKept(s: seq<Name>, keep: Name -> bool)
    requires forall m :: m in s ==> !keep(m)
    ensures Filter(s, keep) == []
  {
    if s != [] {
      NothingKept(s[1..], keep);
    }
  }

  lemma OneWriteKeys(c: CommandDef)
    requires |c.writes| == 1 && c.writes[0].register != NO_NAME
    ensures KeysOf(c) == [RegKey(c.writes[0].register)] + if c.channel != NO_NAME then [ChannelKey(c.channel)] else []
  {
    assert c.writes[1..] == [];
    assert RegKeys(c.writes) == [RegKey(c.writes[0].register)] + [];
  }

  /** Two commands that write apart; the first names its channel like the other. */
  const COLLIDING := Defs(
    [Name("a"), Name("b")],
    map[Name("a") := CommandDef([Write(Name("r"), Leaf(Const(Num(1.0))))], Name("b"), NoAlias),
        Name("b") := CommandDef([Write(Name("s"), Leaf(Const(Num(1.0))))], NO_NAME, NoAlias)])

  lemma CollidingKeys()
    ensures KeysApart(COLLIDING)
  {
    var a, b := COLLIDING.of[Name("a")], COLLIDING.of[Name("b")];
    OneWriteKeys(a);
    OneWriteKeys(b);
    var p := AllKeys(COLLIDING);
    forall u, v | Shares(p, u, v) ensures u == v {
      var k :| k in p[u] * p[v];
    }
  }

  /** One such template: the two share an id and nothing else. */
  lemma IdsMayCollide(ids: map<Name, Name>)
    requires ChannelIds(COLLIDING, ids)
    ensures Own(COLLIDING, Name("a")) && Own(COLLIDING, Name("b"))
    ensures ids[Name("a")] == ids[Name("b")] && !Linked(AllKeys(COLLIDING), Name("a"), Name("b"))
  {
    var a, b := Name("a"), Name("b");
    CollidingKeys();
    assert a.text != b.text;
    ApartIsAlone(COLLIDING, [], a, [b]);
    ApartIsAlone(COLLIDING, [a], b, []);
    AloneId(COLLIDING, a);
    AloneId(COLLIDING, b);
    if Linked(AllKeys(COLLIDING), a, b) { ApartIsUnlinked(COLLIDING, a, b); }
  }

  // ---- aliases ----

  /** The chain of aliases from `n` ends, after `k` steps, in the command `c`. */
  ghost predicate EndsIn(d: Defs, n: Name, c: Name, k: nat)
    decreases k
  {
    if k == 0 then n == c && Own(d, n)
    else
      && n in d.of && d.of[n].alias.AliasOf? && d.of[n].alias.target.Some?
      && d.of[n].alias.target.value in d.of && EndsIn(d, d.of[n].alias.target.value, c, k - 1)
  }

  lemma {:induction false} OneEnd(d: Defs, n: Name, c: Name, k: nat, c': Name, k': nat)
    requires EndsIn(d, n, c, k) && EndsIn(d, n, c', k')
    ensures c == c' && k == k'
    decreases k
  {
    if k > 0 && k' > 0 {
      OneEnd(d, d.of[n].alias.target.value, c, k - 1, c', k' - 1);
    }
  }

  ghost predicate EndsLater(d: Defs, n: Name, c: Name, k: nat) {
    exists m: nat :: m > k && EndsIn(d, n, c, m)
  }

  lemma {:induction false} RealFollows(d: Defs, n: Name, c: Name, k: nat, seen: set<Name>)
    requires EndsIn(d, n, c, k)
    requires forall s :: s in seen ==> EndsLater(d, s, c, k)
    ensures Real(d, n, seen) == c
    decreases k
  {
    if n in seen {
      var m: nat :| m > k && EndsIn(d, n, c, m);
      OneEnd(d, n, c, k, c, m);
    } else if k > 0 {
      forall s | s in seen + {n} ensures EndsLater(d, s, c, k - 1) {
        if s != n {
          var m: nat :| m > k && EndsIn(d, s, c, m);
        }
      }
      RealFollows(d, d.of[n].alias.target.value, c, k - 1, seen + {n});
    }
  }

  /** However many aliases lead to a command, they are all on its channel. */
  lemma AliasOnTargetsChannel(d: Defs, ids: map<Name, Name>, n: Name, c: Name, k: nat)
    requires ValidDefs(d) && ChannelIds(d, ids) && EndsIn(d, n, c, k)
    ensures n in ids && c in ids && ids[n] == ids[c]
  {
    RealFollows(d, n, c, k, {});
    OwnEnd(d, n, c, k);
  }

  lemma {:induction false} OwnEnd(d: Defs, n: Name, c: Name, k: nat)
    requires EndsIn(d, n, c, k)
    ensures Own(d, c) && n in d.of
    decreases k
  {
    if k > 0 {
      OwnEnd(d, d.of[n].alias.target.value, c, k - 1);
    }
  }

  /** The alias is one of a name that is declared. */
  predicate Leads(d: Defs, n: Name) {
    n in d.of && d.of[n].alias.AliasOf? && d.of[n].alias.target.Some? && d.of[n].alias.target.value in d.of
  }

  /** The aliases from one name on, each the next one's, up to one that leads no further
      or back to one of them. */
  ghost predicate AliasChain(d: Defs, chain: seq<Name>) {
    && chain != [] && NoDup(chain)
    && (forall i :: 0 <= i < |chain| - 1 ==> Leads(d, chain[i]) && d.of[chain[i]].alias.target.value == chain[i + 1])
    && var last := chain[|chain| - 1];
       Leads(d, last) ==> d.of[last].alias.target.value in chain
  }

  /** Where aliases lead: to the one that leads no further, or, going round, to the first
      that is come to again. */
  lemma RealIs(d: Defs, chain: seq<Name>)
    requires AliasChain(d, chain)
    ensures
      var last := chain[|chain| - 1];
      Real(d, chain[0], {}) == if Leads(d, last) then d.of[last].alias.target.value else last
  {
    RealAlong(d, chain, 0, {});
  }

  lemma {:induction false} RealAlong(d: Defs, chain: seq<Name>, i: nat, seen: set<Name>)
    requires AliasChain(d, chain) && i < |chain| && seen == set n | n in chain[..i]
    ensures
      var last := chain[|chain| - 1];
      Real(d, chain[i], seen) == if Leads(d, last) then d.of[last].alias.target.value else last
    decreases |chain| - i
  {
    var n := chain[i];
    assert chain[..i + 1] == chain[..i] + [n];
    assert n !in seen;
    if i < |chain| - 1 {
      RealAlong(d, chain, i + 1, seen + {n});
    } else {
      assert chain[..i + 1] == chain;
    }
  }
}
