/** Reading registers by name: whatever blocks they are read in, each gets the
    words it would have got alone. */
module ReadNamed {
  import opened Prelude
  import opened Blocks

  datatype At = At(kind: Name, address: int)

  /** The connection's answer to one read: words, or none. */
  type Connection = (Name, int, int) -> Option<seq<int>>

  datatype Read = NoAnswer | Unknown(name: Name) | Wide(name: Name) | Words(words: map<Name, seq<int>>)

  /** A read that was answered has the device's words. */
  ghost predicate Faithful(conn: Connection, mem: At -> int) {
    forall kind, start, count :: conn(kind, start, count).Some? && count <= |conn(kind, start, count).value| ==>
      forall i :: 0 <= i < count ==> conn(kind, start, count).value[i] == mem(At(kind, start + i))
  }

  /** A read answers when it brings words, and as many as were asked for. */
  predicate Answered(conn: Connection, kind: Name, start: int, count: int) {
    var w := conn(kind, start, count);
    w.Some? && w.value != [] && |w.value| >= count
  }

  ghost predicate RightWords(at: map<At, int>, mem: At -> int) {
    forall a :: a in at ==> at[a] == mem(a)
  }

  ghost predicate HasSpan(at: map<At, int>, kind: Name, s: Span) {
    forall a :: s.lo <= a < s.hi ==> At(kind, a) in at
  }

  /** The words of a register, as reading it alone would bring them. */
  ghost predicate RightlyRead(words: seq<int>, reg: Reg, mem: At -> int) {
    |words| == reg.count && forall i :: 0 <= i < reg.count ==> words[i] == mem(At(reg.kind, reg.address + i))
  }

  /** The blocks of one register type, read one after the other. */
  method ReadBlocks(conn: Connection, kind: Name, blocks: seq<Span>, at0: map<At, int>, ghost mem: At -> int)
    returns (ok: bool, at: map<At, int>)
    requires Faithful(conn, mem) && RightWords(at0, mem)
    ensures RightWords(at, mem) && forall a :: a in at0 ==> a in at
    ensures ok ==> forall k :: 0 <= k < |blocks| ==> HasSpan(at, kind, blocks[k])
    ensures !ok ==> exists b :: b in blocks && !Answered(conn, kind, b.lo, b.hi - b.lo)
  {
    ok, at := true, at0;
    for b := 0 to |blocks|
      invariant RightWords(at, mem) && forall a :: a in at0 ==> a in at
      invariant forall k :: 0 <= k < b ==> HasSpan(at, kind, blocks[k])
    {
      var start, count := blocks[b].lo, blocks[b].hi - blocks[b].lo;
      if !Answered(conn, kind, start, count) {
        return false, at;
      }
      var words := conn(kind, start, count).value;
      ghost var had := at;
      var i := 0;
      while i < count
        invariant i <= |words| && (i <= count || i == 0)
        invariant RightWords(at, mem) && forall a :: a in had ==> a in at
        invariant forall a :: start <= a < start + i ==> At(kind, a) in at
      {
        at := at[At(kind, start + i) := words[i]];
        i := i + 1;
      }
      forall k | 0 <= k < b ensures HasSpan(at, kind, blocks[k]) {
        assert HasSpan(had, kind, blocks[k]);
      }
    }
  }

  function Group(regs: map<Name, Reg>, names: seq<Name>, kind: Name): seq<Name> {
    Filter(names, n => n in regs && regs[n].kind == kind)
  }

  /** A read of registers that were asked for was not answered: one from where a register
      begins to where one of its kind ends, no longer than a read may be. */
  ghost predicate SomeSilence(conn: Connection, regs: map<Name, Reg>, names: seq<Name>, limit: int) {
    exists n, m :: n in names && m in names && Silent(conn, regs, n, m, limit)
  }

  predicate Silent(conn: Connection, regs: map<Name, Reg>, n: Name, m: Name, limit: int) {
    && n in regs && m in regs && regs[n].kind == regs[m].kind
    && var start, end := regs[n].address, regs[m].address + regs[m].count;
       var w := conn(regs[n].kind, start, end - start);
       end - start <= limit && (w == None || w == Some([]) || |w.value| < end - start)
  }

  lemma SilenceIsNamed(conn: Connection, regs: map<Name, Reg>, names: seq<Name>, group: seq<Name>, kind: Name, b: Span, limit: int)
    requires Asked(b, regs, group) && b.hi - b.lo <= limit && !Answered(conn, kind, b.lo, b.hi - b.lo)
    requires forall n :: n in group ==> n in names && n in regs && regs[n].kind == kind
    ensures SomeSilence(conn, regs, names, limit)
  {
    var n, m :| n in group && m in group && n in regs && m in regs && b.lo == regs[n].address && b.hi == regs[m].address + regs[m].count;
    assert Silent(conn, regs, n, m, limit);
  }

  /** Every register asked for, with its words; none when the device did not answer. */
  method ReadNamed(conn: Connection, regs: map<Name, Reg>, names: seq<Name>, maxRead: int, ghost mem: At -> int)
    returns (r: Read)
    requires Faithful(conn, mem)
    ensures r.Words? ==> (forall n :: n in r.words <==> n in names) && forall n :: n in names ==>
      n in regs && RightlyRead(r.words[n], regs[n], mem)
    ensures r.NoAnswer? ==> SomeSilence(conn, regs, names, if 0 < maxRead < 125 then maxRead else 125)
    ensures r.Unknown? ==> r.name in names && r.name !in regs
    ensures (exists n :: n in names && n !in regs) ==> r.Unknown?
    ensures r.Wide? ==> r.name in names && r.name in regs && regs[r.name].count > if 0 < maxRead < 125 then maxRead else 125
  {
    var kinds: set<Name> := {};
    for i := 0 to |names|
      invariant forall j :: 0 <= j < i ==> names[j] in regs && regs[names[j]].kind in kinds
    {
      if names[i] !in regs { return Unknown(names[i]); }
      kinds := kinds + {regs[names[i]].kind};
    }
    var at: map<At, int> := map[];
    while kinds != {}
      invariant RightWords(at, mem)
      invariant forall n :: n in names ==> n in regs && (regs[n].kind in kinds || HasSpan(at, regs[n].kind, SpanOf(regs[n])))
      decreases kinds
    {
      var kind :| kind in kinds;
      var group := Group(regs, names, kind);
      FilterMembers(names, n => n in regs && regs[n].kind == kind);
      var p := BlocksFor(regs, group, maxRead);
      if p.TooWide? { return Wide(p.name); }
      ghost var had := at;
      var ok;
      ok, at := ReadBlocks(conn, kind, p.blocks, at, mem);
      if !ok {
        var b :| b in p.blocks && !Answered(conn, kind, b.lo, b.hi - b.lo);
        SilenceIsNamed(conn, regs, names, group, kind, b, if 0 < maxRead < 125 then maxRead else 125);
        return NoAnswer;
      }
      forall n | n in names && (regs[n].kind == kind || HasSpan(had, regs[n].kind, SpanOf(regs[n])))
        ensures HasSpan(at, regs[n].kind, SpanOf(regs[n]))
      {
        if regs[n].kind == kind {
          assert InSome(SpanOf(regs[n]), p.blocks);
          var k :| 0 <= k < |p.blocks| && Inside(SpanOf(regs[n]), p.blocks[k]);
          assert HasSpan(at, kind, p.blocks[k]);
        }
      }
      kinds := kinds - {kind};
    }
    var out: map<Name, seq<int>> := map[];
    for i := 0 to |names|
      invariant (forall j :: 0 <= j < i ==> names[j] in out) && forall n :: n in out ==> n in names
      invariant forall n :: n in out ==> n in regs && RightlyRead(out[n], regs[n], mem)
    {
      var reg := regs[names[i]];
      assert HasSpan(at, reg.kind, SpanOf(reg));
      var words := seq(reg.count, k requires 0 <= k < reg.count => at[At(reg.kind, reg.address + k)]);
      out := out[names[i] := words];
    }
    r := Words(out);
  }
}
