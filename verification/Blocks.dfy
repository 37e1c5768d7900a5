/** Which reads cover the registers a command asks for: as few as any cover
    could, none longer than the device allows, and every word where it belongs. */
module Blocks {
  import opened Prelude

  /** The words [lo, hi) of one register, or of one read. */
  datatype Span = Span(lo: int, hi: int)
  datatype Reg = Reg(kind: Name, address: int, count: nat)

  datatype Planned = Planned(blocks: seq<Span>) | UnknownRegister(name: Name) | TooWide(name: Name)

  predicate Inside(s: Span, b: Span) {
    b.lo <= s.lo && s.hi <= b.hi
  }

  function SpanOf(r: Reg): Span {
    Span(r.address, r.address + r.count)
  }

  function Limit(maxRead: int): int {
    if 0 < maxRead <= 125 then maxRead else 125
  }

  /** The order tuples sort in: by start, then by end. */
  predicate Before(a: Span, b: Span) {
    a.lo < b.lo || (a.lo == b.lo && a.hi < b.hi)
  }

  predicate Sorted(s: seq<Span>) {
    forall i, j :: 0 <= i < j < |s| ==> Before(s[i], s[j])
  }

  function Insert(x: Span, s: seq<Span>): (r: seq<Span>)
    requires Sorted(s)
    ensures Sorted(r)
    ensures forall y :: y in r <==> y == x || y in s
  {
    if s == [] then [x]
    else if x == s[0] then s
    else if Before(x, s[0]) then [x] + s
    else
      var rest := Insert(x, s[1..]);
      assert s == [s[0]] + s[1..];
      assert forall i :: 0 <= i < |rest| ==> rest[i] in rest;
      [s[0]] + rest
  }

  /** sorted(set(spans)) */
  function SortedSet(s: seq<Span>): (r: seq<Span>)
    ensures Sorted(r)
    ensures forall y :: y in r <==> y in s
  {
    if s == [] then []
    else
      assert s == [s[0]] + s[1..];
      Insert(s[0], SortedSet(s[1..]))
  }

  ghost predicate Within(blocks: seq<Span>, limit: int) {
    forall k :: 0 <= k < |blocks| ==> blocks[k].hi - blocks[k].lo <= limit
  }

  /** The span that opened each block: no two fit in one read. */
  ghost predicate Anchored(blocks: seq<Span>, anchors: seq<Span>, limit: int) {
    && |anchors| == |blocks|
    && (forall k :: 0 <= k < |blocks| ==> blocks[k].lo == anchors[k].lo)
    && (forall k :: 0 < k < |blocks| ==> anchors[k].hi - anchors[k - 1].lo > limit)
    && (forall k, l :: 0 <= k < l < |blocks| ==> anchors[k].lo <= anchors[l].lo)
  }

  ghost predicate InSome(s: Span, blocks: seq<Span>) {
    exists k :: 0 <= k < |blocks| && Inside(s, blocks[k])
  }

  /** The last block with `s` in it too. */
  function Widened(blocks: seq<Span>, s: Span): seq<Span>
    requires blocks != []
  {
    var n := |blocks| - 1;
    blocks[n := Span(blocks[n].lo, if s.hi > blocks[n].hi then s.hi else blocks[n].hi)]
  }

  lemma WidenedCovers(blocks: seq<Span>, s: Span, t: Span)
    requires blocks != [] && blocks[|blocks| - 1].lo <= s.lo
    ensures InSome(s, Widened(blocks, s))
    ensures InSome(t, blocks) ==> InSome(t, Widened(blocks, s))
  {
    var after := Widened(blocks, s);
    assert Inside(s, after[|after| - 1]);
    if InSome(t, blocks) {
      var k :| 0 <= k < |blocks| && Inside(t, blocks[k]);
      assert Inside(t, after[k]);
    }
  }

  lemma OpenedCovers(blocks: seq<Span>, s: Span, t: Span)
    ensures InSome(s, blocks + [s])
    ensures InSome(t, blocks) ==> InSome(t, blocks + [s])
  {
    assert Inside(s, (blocks + [s])[|blocks|]);
    if InSome(t, blocks) {
      var k :| 0 <= k < |blocks| && Inside(t, blocks[k]);
      assert Inside(t, (blocks + [s])[k]);
    }
  }

  ghost predicate AllCovered(spans: seq<Span>, blocks: seq<Span>) {
    forall t :: t in spans ==> InSome(t, blocks)
  }

  lemma WidenedCoversAll(blocks: seq<Span>, s: Span, done: seq<Span>)
    requires blocks != [] && AllCovered(done, blocks) && s.lo >= blocks[|blocks| - 1].lo
    ensures AllCovered(done + [s], Widened(blocks, s))
  {
    forall t | t in done + [s] ensures InSome(t, Widened(blocks, s)) {
      WidenedCovers(blocks, s, t);
    }
  }

  lemma OpenedCoversAll(blocks: seq<Span>, s: Span, done: seq<Span>)
    requires AllCovered(done, blocks)
    ensures AllCovered(done + [s], blocks + [s])
  {
    forall t | t in done + [s] ensures InSome(t, blocks + [s]) {
      OpenedCovers(blocks, s, t);
    }
  }

  /** The first `i` spans are covered by blocks that were opened one after the other. */
  ghost predicate Progress(spans: seq<Span>, i: nat, blocks: seq<Span>, anchors: seq<Span>, limit: int)
    requires i <= |spans|
  {
    && Within(blocks, limit) && Anchored(blocks, anchors, limit)
    && AllCovered(spans[..i], blocks)
    && forall a :: a in anchors ==> a in spans && forall j :: i <= j < |spans| ==> a.lo <= spans[j].lo
  }

  lemma WidenedProgress(spans: seq<Span>, i: nat, blocks: seq<Span>, anchors: seq<Span>, limit: int)
    requires i < |spans| && Progress(spans, i, blocks, anchors, limit)
    requires blocks != [] && spans[i].hi - blocks[|blocks| - 1].lo <= limit
    ensures Progress(spans, i + 1, Widened(blocks, spans[i]), anchors, limit)
  {
    assert spans[..i + 1] == spans[..i] + [spans[i]];
    assert anchors[|anchors| - 1] in anchors;
    WidenedCoversAll(blocks, spans[i], spans[..i]);
  }

  lemma OpenedProgress(spans: seq<Span>, i: nat, blocks: seq<Span>, anchors: seq<Span>, limit: int)
    requires i < |spans| && Sorted(spans) && Progress(spans, i, blocks, anchors, limit)
    requires blocks != [] ==> spans[i].hi - blocks[|blocks| - 1].lo > limit
    requires spans[i].hi - spans[i].lo <= limit
    ensures Progress(spans, i + 1, blocks + [spans[i]], anchors + [spans[i]], limit)
  {
    assert spans[..i + 1] == spans[..i] + [spans[i]];
    OpenedCoversAll(blocks, spans[i], spans[..i]);
    forall k | 0 <= k < |anchors| ensures anchors[k].lo <= spans[i].lo {
      assert anchors[k] in anchors;
    }
  }

  /** A read begins where one of the spans does and ends where one does: it asks for
      nothing beyond them. */
  ghost predicate Tight(b: Span, spans: seq<Span>) {
    exists s, t :: s in spans && t in spans && b.lo == s.lo && b.hi == t.hi
  }

  ghost predicate AllTight(blocks: seq<Span>, spans: seq<Span>) {
    forall b :: b in blocks ==> Tight(b, spans)
  }

  lemma WidenedTight(blocks: seq<Span>, spans: seq<Span>, s: Span)
    requires blocks != [] && AllTight(blocks, spans) && s in spans
    ensures AllTight(Widened(blocks, s), spans)
  {
    var n := |blocks| - 1;
    assert Tight(blocks[n], spans);
    var x, y :| x in spans && y in spans && blocks[n].lo == x.lo && blocks[n].hi == y.hi;
    var w := Widened(blocks, s)[n];
    assert w.lo == x.lo && w.hi == if s.hi > blocks[n].hi then s.hi else y.hi;
    assert Tight(w, spans);
  }

  lemma OpenedTight(blocks: seq<Span>, spans: seq<Span>, s: Span)
    requires AllTight(blocks, spans) && s in spans
    ensures AllTight(blocks + [s], spans)
  {
    assert Tight(s, spans);
  }

  /** The greedy loop over the sorted spans. */
  method Greedy(spans: seq<Span>, limit: int) returns (blocks: seq<Span>, ghost anchors: seq<Span>)
    requires Sorted(spans) && forall s :: s in spans ==> s.lo <= s.hi && s.hi - s.lo <= limit
    ensures AllCovered(spans, blocks) && Within(blocks, limit) && AllTight(blocks, spans)
    ensures Anchored(blocks, anchors, limit) && forall a :: a in anchors ==> a in spans
  {
    blocks, anchors := [], [];
    for i := 0 to |spans|
      invariant Progress(spans, i, blocks, anchors, limit) && AllTight(blocks, spans)
    {
      var s := spans[i];
      if blocks != [] && s.hi - blocks[|blocks| - 1].lo <= limit {
        WidenedProgress(spans, i, blocks, anchors, limit);
        WidenedTight(blocks, spans, s);
        blocks := Widened(blocks, s);
      } else {
        OpenedProgress(spans, i, blocks, anchors, limit);
        OpenedTight(blocks, spans, s);
        blocks, anchors := blocks + [s], anchors + [s];
      }
    }
    assert spans[..|spans|] == spans;
  }

  /** Anchors far apart each need a read of their own. */
  lemma {:induction false} AnchorsFarApart(blocks: seq<Span>, anchors: seq<Span>, limit: int, i: nat, j: nat, w: Span)
    requires Anchored(blocks, anchors, limit) && i < j < |anchors|
    requires Inside(anchors[i], w) && Inside(anchors[j], w)
    ensures w.hi - w.lo > limit
  {
    assert anchors[i].lo <= anchors[j - 1].lo;
  }

  lemma {:induction false} Pigeonhole(n: nat, m: nat, f: nat -> nat)
    requires forall i :: 0 <= i < n ==> f(i) < m
    requires forall i, j :: 0 <= i < j < n ==> f(i) != f(j)
    ensures n <= m
  {
    if n > 0 {
      var last := f(n - 1);
      var g := (i: nat) => if f(i) == m - 1 then last else f(i);
      if m > 0 {
        assert forall i :: 0 <= i < n - 1 ==> g(i) < m - 1;
        Pigeonhole(n - 1, m - 1, g);
      }
    }
  }

  /** No cover by reads within the limit has fewer members. */
  lemma FewestReads(blocks: seq<Span>, anchors: seq<Span>, spans: seq<Span>, limit: int, windows: seq<Span>)
    requires Anchored(blocks, anchors, limit) && forall a :: a in anchors ==> a in spans
    requires Within(windows, limit) && forall s :: s in spans ==> InSome(s, windows)
    ensures |blocks| <= |windows|
  {
    var f := (i: nat) => if i < |anchors| then WindowOf(windows, anchors[i]) else 0;
    forall i | 0 <= i < |anchors| ensures f(i) < |windows| && Inside(anchors[i], windows[f(i)]) {
      assert anchors[i] in spans;
    }
    forall i, j | 0 <= i < j < |anchors| ensures f(i) != f(j) {
      if f(i) == f(j) { AnchorsFarApart(blocks, anchors, limit, i, j, windows[f(i)]); }
    }
    Pigeonhole(|anchors|, |windows|, f);
  }

  ghost function WindowOf(windows: seq<Span>, s: Span): nat {
    if InSome(s, windows) then var k :| 0 <= k < |windows| && Inside(s, windows[k]); k
    else 0
  }

  lemma TightIsAsked(regs: map<Name, Reg>, names: seq<Name>, spans: seq<Span>, sorted: seq<Span>, blocks: seq<Span>)
    requires forall s :: s in spans ==> exists j :: 0 <= j < |names| && names[j] in regs && SpanOf(regs[names[j]]) == s
    requires (forall s :: s in sorted <==> s in spans) && AllTight(blocks, sorted)
    ensures forall b :: b in blocks ==> Asked(b, regs, names)
  {
    forall b | b in blocks ensures Asked(b, regs, names) {
      assert Tight(b, sorted);
      var s, t :| s in sorted && t in sorted && b.lo == s.lo && b.hi == t.hi;
      assert s in spans && t in spans;
      var i :| 0 <= i < |names| && names[i] in regs && SpanOf(regs[names[i]]) == s;
      var j :| 0 <= j < |names| && names[j] in regs && SpanOf(regs[names[j]]) == t;
      assert names[i] in names && names[j] in names;
    }
  }

  /** The register can be read at once. */
  predicate Readable(regs: map<Name, Reg>, n: Name, limit: int) {
    n in regs && regs[n].count <= limit
  }

  /** A read from where one of the registers begins to where one ends. */
  ghost predicate Asked(b: Span, regs: map<Name, Reg>, names: seq<Name>) {
    exists n, m :: n in names && m in names && n in regs && m in regs && b.lo == regs[n].address && b.hi == regs[m].address + regs[m].count
  }

  /** The reads that cover `names`, or the first name that stops the command: one that
      is not there, or wider than a read of at most 125 words may be. */
  method BlocksFor(regs: map<Name, Reg>, names: seq<Name>, maxRead: int) returns (p: Planned)
    ensures
      var limit := if 0 < maxRead < 125 then maxRead else 125;
      if p.Planned? then
        && (forall n :: n in names ==> Readable(regs, n, limit) && InSome(SpanOf(regs[n]), p.blocks))
        && (forall b :: b in p.blocks ==> b.hi - b.lo <= limit && Asked(b, regs, names))
        && forall windows {:trigger Within(windows, limit)} ::
             Within(windows, limit) && (forall n :: n in names ==> InSome(SpanOf(regs[n]), windows))
             ==> |p.blocks| <= |windows|
      else
        exists i :: 0 <= i < |names| && p.name == names[i] && !Readable(regs, p.name, limit)
                    && (p.UnknownRegister? <==> p.name !in regs)
                    && forall j :: 0 <= j < i ==> Readable(regs, names[j], limit)
  {
    var limit := Limit(maxRead);
    var spans: seq<Span> := [];
    for i := 0 to |names|
      invariant forall j :: 0 <= j < i ==> Readable(regs, names[j], limit) && SpanOf(regs[names[j]]) in spans
      invariant forall s :: s in spans ==> s.lo <= s.hi && s.hi - s.lo <= limit
      invariant forall s :: s in spans ==> exists j :: 0 <= j < i && names[j] in regs && SpanOf(regs[names[j]]) == s
    {
      var n := names[i];
      if n !in regs { return UnknownRegister(n); }
      if regs[n].count > limit { return TooWide(n); }
      spans := spans + [SpanOf(regs[n])];
      assert SpanOf(regs[names[i]]) == spans[|spans| - 1];
    }
    var sorted := SortedSet(spans);
    var blocks;
    ghost var anchors;
    blocks, anchors := Greedy(sorted, limit);
    p := Planned(blocks);
    TightIsAsked(regs, names, spans, sorted, blocks);
    forall windows {:trigger Within(windows, limit)} |
      Within(windows, limit) && (forall n :: n in names ==> InSome(SpanOf(regs[n]), windows))
      ensures |blocks| <= |windows|
    {
      forall s | s in sorted ensures InSome(s, windows) {
        assert s in spans;
      }
      FewestReads(blocks, anchors, sorted, limit, windows);
    }
  }
}
