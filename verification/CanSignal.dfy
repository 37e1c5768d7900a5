/** CAN signals on the bits of a frame: where a signal lies, extracting its raw
    number, and which signals of a map overlap. */
module CanSignal {
  import opened Prelude
  import opened NatBits

  datatype Order = Little | Big

  // ---- where a signal lies ----

  /** The start bit of a Motorola signal, counted from the first bit sent. */
  function MotorolaPos(startBit: nat): nat {
    (startBit / 8) * 8 + (7 - startBit % 8)
  }

  /** The frame bits of a signal, numbered byte * 8 + bit. */
  function SignalBits(startBit: nat, length: nat, order: Order): (bits: seq<nat>)
    ensures |bits| == length
  {
    match order
    case Big => seq<nat>(length, i requires 0 <= i < length => MotorolaPos(MotorolaPos(startBit) + i))
    case Little => seq<nat>(length, i requires 0 <= i < length => startBit + i)
  }

  function BitsNeeded(startBit: nat, length: nat, order: Order): nat {
    if order.Big? then MotorolaPos(startBit) + length else startBit + length
  }

  /** The raw number of a signal; None when the frame is too short. */
  function ExtractRaw(data: seq<Byte>, startBit: nat, length: nat, order: Order): Option<nat> {
    var total := 8 * |data|;
    if BitsNeeded(startBit, length, order) > total then None
    else if order.Big? then
      Some(Low(Shr(FromBig(data), total - MotorolaPos(startBit) - length), length))
    else Some(Low(Shr(FromLittle(data), startBit), length))
  }

  // ---- what extraction computes ----

  /** Bit `b` of a frame. */
  predicate FrameBit(data: seq<Byte>, b: nat)
    requires b < 8 * |data|
  {
    Bit(data[b / 8], b % 8)
  }

  /** The frame bit that becomes bit `i` of the number: Intel signals are
      listed from their lowest bit, Motorola signals from their highest. */
  function Source(startBit: nat, length: nat, order: Order, i: nat): nat
    requires i < length
  {
    var bits := SignalBits(startBit, length, order);
    if order.Big? then bits[length - 1 - i] else bits[i]
  }

  predicate InFrame(data: seq<Byte>, startBit: nat, length: nat, order: Order) {
    forall b :: b in SignalBits(startBit, length, order) ==> b < 8 * |data|
  }

  lemma SawtoothInFrame(p: nat, n: nat)
    ensures MotorolaPos(p) < 8 * n <==> p < 8 * n
    ensures MotorolaPos(p) / 8 == p / 8 && MotorolaPos(p) % 8 == 7 - p % 8
    ensures MotorolaPos(MotorolaPos(p)) == p
  {
    var q, r := p / 8, p % 8;
    assert MotorolaPos(p) == 8 * q + (7 - r);
    assert (8 * q + (7 - r)) / 8 == q && (8 * q + (7 - r)) % 8 == 7 - r;
  }

  /** Extraction fails exactly when one of the named bits is outside the frame. */
  lemma FailsOutside(data: seq<Byte>, startBit: nat, length: nat, order: Order)
    requires length >= 1
    ensures ExtractRaw(data, startBit, length, order).None? <==> !InFrame(data, startBit, length, order)
  {
    var bits, total := SignalBits(startBit, length, order), 8 * |data|;
    if order.Big? {
      var first := MotorolaPos(startBit);
      forall i | 0 <= i < length ensures bits[i] < total <==> first + i < total {
        SawtoothInFrame(first + i, |data|);
      }
    }
    assert bits[length - 1] in bits;
  }

  /** Where a signal runs: both orders begin at the start bit; Intel goes up bit by bit,
      Motorola down within a byte and on with the highest bit of the next one. */
  lemma SignalRuns(startBit: nat, length: nat, order: Order, i: nat)
    requires i < length
    ensures
      var bits := SignalBits(startBit, length, order);
      && bits[0] == startBit
      && (i + 1 < length ==>
            bits[i + 1] == if order == Little then bits[i] + 1
                           else if bits[i] % 8 == 0 then bits[i] + 15 else bits[i] - 1)
  {
    if order.Big? {
      SawtoothInFrame(startBit, 0);
      SawtoothNext(MotorolaPos(startBit) + i);
    }
  }

  lemma SawtoothNext(p: nat)
    ensures MotorolaPos(p + 1) == if MotorolaPos(p) % 8 == 0 then MotorolaPos(p) + 15 else MotorolaPos(p) - 1
  {
    var q, r := p / 8, p % 8;
    SawtoothInFrame(p, 0);
    if r < 7 {
      assert (p + 1) / 8 == q && (p + 1) % 8 == r + 1;
    } else {
      assert (p + 1) / 8 == q + 1 && (p + 1) % 8 == 0;
    }
  }

  lemma SourceIsNamed(startBit: nat, length: nat, order: Order, i: nat)
    requires i < length
    ensures Source(startBit, length, order, i) in SignalBits(startBit, length, order)
  {
  }

  lemma LittleSource(data: seq<Byte>, startBit: nat, length: nat, i: nat)
    requires i < length && startBit + length <= 8 * |data|
    ensures Bit(Low(Shr(FromLittle(data), startBit), length), i) == FrameBit(data, startBit + i)
  {
    LowBit(Shr(FromLittle(data), startBit), length, i);
    ShrBit(FromLittle(data), startBit, i);
    LittleBit(data, startBit + i);
  }

  lemma BigSource(data: seq<Byte>, first: nat, length: nat, i: nat)
    requires i < length && first + length <= 8 * |data|
    ensures MotorolaPos(first + length - 1 - i) < 8 * |data|
    ensures Bit(Low(Shr(FromBig(data), 8 * |data| - first - length), length), i)
         == FrameBit(data, MotorolaPos(first + length - 1 - i))
  {
    var n, p, down := |data|, first + length - 1 - i, 8 * |data| - first - length;
    LowBit(Shr(FromBig(data), down), length, i);
    ShrBit(FromBig(data), down, i);
    BigBit(data, down + i);
    SawtoothInFrame(p, n);
    FromTheEnd(n, p, down + i);
  }

  lemma FromTheEnd(n: nat, p: nat, k: nat)
    requires p < 8 * n && k == 8 * n - 1 - p
    ensures n - 1 - k / 8 == p / 8 && k % 8 == 7 - p % 8
  {
    var q, r := p / 8, p % 8;
    assert k == 8 * (n - 1 - q) + (7 - r);
  }

  /** Bit `i` of the number is exactly the frame bit named for it, and the
      number has no other bit. */
  lemma ExtractionIsBitwise(data: seq<Byte>, startBit: nat, length: nat, order: Order, i: nat)
    requires ExtractRaw(data, startBit, length, order).Some? && i < length
    ensures Source(startBit, length, order, i) < 8 * |data|
    ensures Bit(ExtractRaw(data, startBit, length, order).value, i)
         == FrameBit(data, Source(startBit, length, order, i))
  {
    if order.Big? {
      BigSource(data, MotorolaPos(startBit), length, i);
    } else {
      LittleSource(data, startBit, length, i);
    }
  }

  /** The number as an Intel signal has its bits from the lowest on, a Motorola signal
      from the highest on; bit `k` of a frame is bit `k % 8` of its byte `k / 8`. */
  lemma BitsAreRead(data: seq<Byte>, startBit: nat, length: nat, order: Order, i: nat)
    requires ExtractRaw(data, startBit, length, order).Some? && i < length
    ensures
      var raw, k := ExtractRaw(data, startBit, length, order).value, SignalBits(startBit, length, order)[i];
      var place: nat := if order == Little then i else length - 1 - i;
      k / 8 < |data| && (raw / Pow2(place)) % 2 == (data[k / 8] / Pow2(k % 8)) % 2
  {
    var k := SignalBits(startBit, length, order)[i];
    var place: nat := if order == Little then i else length - 1 - i;
    ExtractionIsBitwise(data, startBit, length, order, place);
    BitIs(ExtractRaw(data, startBit, length, order).value, place);
    BitIs(data[k / 8], k % 8);
  }

  /** Two whole bytes: the first is the low one of an Intel signal, the high one of a
      Motorola signal. */
  lemma TwoBytes(a: Byte, b: Byte)
    ensures ExtractRaw([a, b], 0, 16, Little) == Some(a + 256 * b)
    ensures ExtractRaw([a, b], 7, 16, Big) == Some(256 * a + b)
  {
    TwoBytesJoined(a, b);
    SixteenBits();
    WholeNumber(a + 256 * b, 16);
    WholeNumber(256 * a + b, 16);
  }

  lemma OneByte(a: Byte)
    ensures FromLittle([a]) == a && FromBig([a]) == a
  {
    var one: seq<Byte> := [a];
    assert one[1..] == [] && one[..|one| - 1] == [];
    assert FromLittle(one) == one[0] + 256 * FromLittle(one[1..]);
    assert FromBig(one) == one[|one| - 1] + 256 * FromBig(one[..|one| - 1]);
  }

  lemma TwoBytesJoined(a: Byte, b: Byte)
    ensures FromLittle([a, b]) == a + 256 * b && FromBig([a, b]) == 256 * a + b
  {
    var both: seq<Byte> := [a, b];
    assert both[1..] == [b] && both[..|both| - 1] == [a];
    OneByte(a);
    OneByte(b);
  }

  lemma WholeNumber(v: nat, n: nat)
    requires v < Pow2(n)
    ensures Low(Shr(v, 0), n) == v
  {
    assert v == Pow2(n) * 0 + v;
    Quotient(v, Pow2(n), 0, v);
    LowRemains(v, n);
  }

  lemma ExtractionIsBounded(data: seq<Byte>, startBit: nat, length: nat, order: Order)
    requires ExtractRaw(data, startBit, length, order).Some?
    ensures ExtractRaw(data, startBit, length, order).value < Pow2(length)
  {
    if order.Big? {
      LowRemains(Shr(FromBig(data), 8 * |data| - MotorolaPos(startBit) - length), length);
    } else {
      LowRemains(Shr(FromLittle(data), startBit), length);
    }
  }

  /** Nothing but the named bits matters: two frames of one length that agree
      on them give the same number, and one gives none when the other does not. */
  lemma OnlyNamedBitsMatter(a: seq<Byte>, b: seq<Byte>, startBit: nat, length: nat, order: Order)
    requires |a| == |b|
    requires forall k :: k in SignalBits(startBit, length, order) && k < 8 * |a| ==> FrameBit(a, k) == FrameBit(b, k)
    ensures ExtractRaw(a, startBit, length, order) == ExtractRaw(b, startBit, length, order)
  {
    var x, y := ExtractRaw(a, startBit, length, order), ExtractRaw(b, startBit, length, order);
    if x.Some? {
      ExtractionIsBounded(a, startBit, length, order);
      ExtractionIsBounded(b, startBit, length, order);
      forall i: nat | i < length ensures Bit(x.value, i) == Bit(y.value, i) {
        ExtractionIsBitwise(a, startBit, length, order, i);
        ExtractionIsBitwise(b, startBit, length, order, i);
        SourceIsNamed(startBit, length, order, i);
      }
      BitsTellApart(x.value, y.value, length);
    }
  }

  /** Each named bit matters: flipping it changes the number. */
  lemma EveryNamedBitMatters(a: seq<Byte>, b: seq<Byte>, startBit: nat, length: nat, order: Order, k: nat)
    requires |a| == |b| && k < 8 * |a| && k in SignalBits(startBit, length, order)
    requires FrameBit(a, k) != FrameBit(b, k)
    requires ExtractRaw(a, startBit, length, order).Some?
    ensures ExtractRaw(b, startBit, length, order) != ExtractRaw(a, startBit, length, order)
  {
    var bits := SignalBits(startBit, length, order);
    var j :| 0 <= j < length && bits[j] == k;
    var i := if order.Big? then length - 1 - j else j;
    ExtractionIsBitwise(a, startBit, length, order, i);
    if ExtractRaw(b, startBit, length, order).Some? {
      ExtractionIsBitwise(b, startBit, length, order, i);
    }
  }

  // ---- overlaps within a map ----

  datatype FrameKey = FrameKey(id: int, extended: bool)

  datatype Place = Place(startBit: nat, length: nat, order: Order)

  /** What the overlap check sees of a row: its frame, if it has a readable
      one, and its place, if that is given. */
  datatype Signal = Signal(name: Name, frame: Option<FrameKey>, place: Option<Place>)

  predicate Placed(s: Signal) {
    s.frame.Some? && s.place.Some?
  }

  function BitSet(s: Signal): set<nat>
    requires Placed(s)
  {
    var bits := SignalBits(s.place.value.startBit, s.place.value.length, s.place.value.order);
    set b | b in bits
  }

  predicate Overlap(a: Signal, b: Signal) {
    Placed(a) && Placed(b) && a.frame == b.frame && BitSet(a) * BitSet(b) != {}
  }

  /** A warning: the later signal, the earlier one, and their frame. */
  datatype Warning = Warning(name: Name, other: Name, frame: FrameKey)

  /** The warnings of one signal against the ones before it. */
  function Against(s: Signal, earlier: seq<Signal>): seq<Warning>
    requires Placed(s)
  {
    if earlier == [] then []
    else Against(s, earlier[..|earlier| - 1]) +
         var e := earlier[|earlier| - 1];
         if Overlap(e, s) then [Warning(s.name, e.name, s.frame.value)] else []
  }

  /** All warnings of a map, row by row. */
  function Warnings(rows: seq<Signal>): seq<Warning> {
    if rows == [] then []
    else
      var n := |rows| - 1;
      Warnings(rows[..n]) + if Placed(rows[n]) then Against(rows[n], rows[..n]) else []
  }

  predicate OnFrame(frame: FrameKey, s: Signal) {
    Placed(s) && s.frame.value == frame
  }

  /** The placed signals of one frame, in order: what the source keeps under
      that frame's key. */
  function Seen(rows: seq<Signal>, frame: FrameKey): seq<Signal> {
    Filter(rows, (s: Signal) => OnFrame(frame, s))
  }

  lemma SeenNext(rows: seq<Signal>, n: nat, frame: FrameKey)
    requires n < |rows|
    ensures Seen(rows[..n + 1], frame) ==
            Seen(rows[..n], frame) + if OnFrame(frame, rows[n]) then [rows[n]] else []
  {
    assert rows[..n + 1] == rows[..n] + [rows[n]];
    var keep := (s: Signal) => OnFrame(frame, s);
    FilterAppend(rows[..n], [rows[n]], keep);
    assert [rows[n]][1..] == [];
    assert Filter([rows[n]], keep) == if keep(rows[n]) then [rows[n]] else [];
  }

  /** Signals of other frames add nothing to the warnings. */
  lemma {:induction false} AgainstSeen(s: Signal, rows: seq<Signal>)
    requires Placed(s)
    ensures Against(s, Seen(rows, s.frame.value)) == Against(s, rows)
  {
    if rows != [] {
      var n, frame := |rows| - 1, s.frame.value;
      AgainstSeen(s, rows[..n]);
      SeenNext(rows, n, frame);
      assert rows[..n + 1] == rows;
      var before := Seen(rows[..n], frame);
      if OnFrame(frame, rows[n]) {
        assert (before + [rows[n]])[..|before|] == before;
      } else {
        assert !Overlap(rows[n], s);
        assert before + [] == before && Against(s, rows[..n]) + [] == Against(s, rows[..n]);
      }
    }
  }

  function Lookup(seen: map<FrameKey, seq<Signal>>, frame: FrameKey): seq<Signal> {
    if frame in seen then seen[frame] else []
  }

  ghost predicate Kept(seen: map<FrameKey, seq<Signal>>, rows: seq<Signal>) {
    forall f :: Lookup(seen, f) == Seen(rows, f)
  }

  lemma KeptNext(seen: map<FrameKey, seq<Signal>>, after: map<FrameKey, seq<Signal>>, rows: seq<Signal>, n: nat)
    requires n < |rows| && Kept(seen, rows[..n])
    requires if Placed(rows[n]) then
               (var f := rows[n].frame.value; after == seen[f := Lookup(seen, f) + [rows[n]]])
             else after == seen
    ensures Kept(after, rows[..n + 1])
  {
    forall f ensures Lookup(after, f) == Seen(rows[..n + 1], f) {
      SeenNext(rows, n, f);
      assert Lookup(seen, f) == Seen(rows[..n], f);
    }
  }

  lemma SeenHere(rows: seq<Signal>, frame: FrameKey)
    ensures forall e :: e in Seen(rows, frame) ==> OnFrame(frame, e)
  {
    FilterMembers(rows, (s: Signal) => OnFrame(frame, s));
  }

  /** The inner loop: one signal against those seen on its frame. */
  method CheckOne(s: Signal, others: seq<Signal>) returns (out: seq<Warning>)
    requires Placed(s) && forall e :: e in others ==> OnFrame(s.frame.value, e)
    ensures out == Against(s, others)
  {
    out := [];
    for k := 0 to |others|
      invariant out == Against(s, others[..k])
    {
      assert others[..k + 1][..k] == others[..k];
      assert OnFrame(s.frame.value, others[k]);
      if BitSet(s) * BitSet(others[k]) != {} {
        out := out + [Warning(s.name, others[k].name, s.frame.value)];
      }
    }
    assert others[..|others|] == others;
  }

  /** The overlap check: signals already seen are kept per frame. */
  method OverlapWarnings(rows: seq<Signal>) returns (out: seq<Warning>)
    ensures out == Warnings(rows)
  {
    out := [];
    var seen: map<FrameKey, seq<Signal>> := map[];
    for n := 0 to |rows|
      invariant out == Warnings(rows[..n])
      invariant Kept(seen, rows[..n])
    {
      var s := rows[n];
      assert rows[..n + 1][..n] == rows[..n];
      ghost var before := seen;
      if s.frame.Some? && s.place.Some? {
        var key := s.frame.value;
        var others := Lookup(seen, key);
        assert others == Seen(rows[..n], key);
        SeenHere(rows[..n], key);
        AgainstSeen(s, rows[..n]);
        var more := CheckOne(s, others);
        out := out + more;
        seen := seen[key := others + [s]];
      }
      KeptNext(before, seen, rows, n);
    }
    assert rows[..|rows|] == rows;
  }

  /** Two signals that are placed share a frame and one of its bits. */
  predicate ShareBit(a: Signal, b: Signal) {
    && a.frame.Some? && a.place.Some? && b.place.Some? && a.frame == b.frame
    && var x, y := a.place.value, b.place.value;
       exists k :: k in SignalBits(x.startBit, x.length, x.order) && k in SignalBits(y.startBit, y.length, y.order)
  }

  lemma OverlapIs(a: Signal, b: Signal)
    ensures Overlap(a, b) <==> ShareBit(a, b)
  {
    if Overlap(a, b) {
      var k :| k in BitSet(a) * BitSet(b);
      assert k in BitSet(a) && k in BitSet(b);
    }
    if ShareBit(a, b) {
      var x, y := a.place.value, b.place.value;
      var k :| k in SignalBits(x.startBit, x.length, x.order) && k in SignalBits(y.startBit, y.length, y.order);
      assert k in BitSet(a) * BitSet(b);
    }
  }

  /** Two rows of a map by their places. */
  datatype Pair = Pair(early: nat, late: nat)

  /** The pairs of signals of a map that share a bit, earlier one first, by the place
      of the later one and then of the earlier. */
  ghost predicate ListsPairs(ps: seq<Pair>, rows: seq<Signal>) {
    && (forall k :: 0 <= k < |ps| ==> ps[k].early < ps[k].late < |rows| && ShareBit(rows[ps[k].early], rows[ps[k].late]))
    && (forall i: nat, j: nat {:trigger Pair(i, j)} :: i < j < |rows| && ShareBit(rows[i], rows[j]) ==> Pair(i, j) in ps)
    && InTurn(ps)
  }

  ghost predicate WarnsOf(ws: seq<Warning>, ps: seq<Pair>, rows: seq<Signal>) {
    && |ws| == |ps|
    && forall k :: 0 <= k < |ps| ==>
         && ps[k].early < |rows| && ps[k].late < |rows| && rows[ps[k].late].frame.Some?
         && ws[k] == Warning(rows[ps[k].late].name, rows[ps[k].early].name, rows[ps[k].late].frame.value)
  }

  ghost function PairsAgainst(rows: seq<Signal>, n: nat, m: nat): seq<Pair>
    requires m <= n < |rows|
  {
    if m == 0 then []
    else PairsAgainst(rows, n, m - 1) + if Overlap(rows[m - 1], rows[n]) then [Pair(m - 1, n)] else []
  }

  /** The pairs of row `n` with those of the first `m` rows it shares a bit with. */
  ghost predicate PairsOfOne(ps: seq<Pair>, rows: seq<Signal>, n: nat, m: nat)
    requires m <= n < |rows|
  {
    && (forall k :: 0 <= k < |ps| ==> ps[k].early < m && ps[k].late == n && Overlap(rows[ps[k].early], rows[n]))
    && (forall i: nat {:trigger Pair(i, n)} :: i < m && Overlap(rows[i], rows[n]) ==> Pair(i, n) in ps)
    && (forall k, l :: 0 <= k < l < |ps| ==> ps[k].early < ps[l].early)
  }

  lemma {:induction false} AgainstAre(rows: seq<Signal>, n: nat, m: nat)
    requires m <= n < |rows|
    ensures PairsOfOne(PairsAgainst(rows, n, m), rows, n, m)
  {
    if m > 0 {
      AgainstAre(rows, n, m - 1);
      OneMorePair(PairsAgainst(rows, n, m - 1), rows, n, m - 1);
    }
  }

  lemma OneMorePair(ps: seq<Pair>, rows: seq<Signal>, n: nat, m: nat)
    requires m < n < |rows| && PairsOfOne(ps, rows, n, m)
    ensures PairsOfOne(ps + if Overlap(rows[m], rows[n]) then [Pair(m, n)] else [], rows, n, m + 1)
  {
    var all := ps + if Overlap(rows[m], rows[n]) then [Pair(m, n)] else [];
    forall i: nat | i < m + 1 && Overlap(rows[i], rows[n]) ensures Pair(i, n) in all {
      if i == m {
        assert all[|ps|] == Pair(m, n);
      }
    }
  }

  lemma {:induction false} AgainstWarns(rows: seq<Signal>, n: nat, m: nat)
    requires m <= n < |rows| && Placed(rows[n])
    ensures WarnsOf(Against(rows[n], rows[..m]), PairsAgainst(rows, n, m), rows)
    decreases m
  {
    if m > 0 {
      AgainstWarns(rows, n, m - 1);
      assert rows[..m][..m - 1] == rows[..m - 1];
      var more := if Overlap(rows[m - 1], rows[n]) then [Warning(rows[n].name, rows[m - 1].name, rows[n].frame.value)] else [];
      var pairs := if Overlap(rows[m - 1], rows[n]) then [Pair(m - 1, n)] else [];
      WarnsOn(Against(rows[n], rows[..m - 1]), PairsAgainst(rows, n, m - 1), more, pairs, rows);
    }
  }

  ghost function PairsUpTo(rows: seq<Signal>, n: nat): seq<Pair>
    requires n <= |rows|
  {
    if n == 0 then [] else PairsUpTo(rows, n - 1) + PairsAgainst(rows, n - 1, n - 1)
  }

  ghost predicate InTurn(ps: seq<Pair>) {
    forall k, l :: 0 <= k < l < |ps| ==> ps[k].late < ps[l].late || (ps[k].late == ps[l].late && ps[k].early < ps[l].early)
  }

  ghost predicate AllPairs(ps: seq<Pair>, rows: seq<Signal>, n: nat)
    requires n <= |rows|
  {
    && (forall k :: 0 <= k < |ps| ==> ps[k].early < ps[k].late < n && Overlap(rows[ps[k].early], rows[ps[k].late]))
    && (forall i: nat, j: nat {:trigger Pair(i, j)} :: i < j < n && Overlap(rows[i], rows[j]) ==> Pair(i, j) in ps)
  }

  ghost predicate LateBelow(ps: seq<Pair>, n: nat) {
    forall k :: 0 <= k < |ps| ==> ps[k].late < n
  }

  lemma TurnsJoin(ps: seq<Pair>, more: seq<Pair>, rows: seq<Signal>, n: nat)
    requires InTurn(ps) && LateBelow(ps, n) && n < |rows| && PairsOfOne(more, rows, n, n)
    ensures InTurn(ps + more) && LateBelow(ps + more, n + 1)
  {
    var all := ps + more;
    forall k, l | 0 <= k < l < |all|
      ensures all[k].late < all[l].late || (all[k].late == all[l].late && all[k].early < all[l].early)
    {
      if k >= |ps| {
        assert more[k - |ps|].early < more[l - |ps|].early;
      }
    }
  }

  lemma PairsJoin(ps: seq<Pair>, more: seq<Pair>, rows: seq<Signal>, n: nat)
    requires n < |rows| && AllPairs(ps, rows, n)
    requires PairsOfOne(more, rows, n, n)
    ensures AllPairs(ps + more, rows, n + 1)
  {
    forall i: nat, j: nat | i < j < n + 1 && Overlap(rows[i], rows[j]) ensures Pair(i, j) in ps + more {
      assert if j < n then Pair(i, j) in ps else Pair(i, n) in more;
    }
  }

  lemma {:induction false} PairsAreAll(rows: seq<Signal>, n: nat)
    requires n <= |rows|
    ensures AllPairs(PairsUpTo(rows, n), rows, n)
  {
    if n > 0 {
      PairsAreAll(rows, n - 1);
      AgainstAre(rows, n - 1, n - 1);
      PairsJoin(PairsUpTo(rows, n - 1), PairsAgainst(rows, n - 1, n - 1), rows, n - 1);
    }
  }

  lemma {:induction false} PairsAreInTurn(rows: seq<Signal>, n: nat)
    requires n <= |rows|
    ensures InTurn(PairsUpTo(rows, n)) && LateBelow(PairsUpTo(rows, n), n)
  {
    if n > 0 {
      PairsAreInTurn(rows, n - 1);
      AgainstAre(rows, n - 1, n - 1);
      TurnsJoin(PairsUpTo(rows, n - 1), PairsAgainst(rows, n - 1, n - 1), rows, n - 1);
    }
  }

  lemma {:induction false} NoneAgainst(rows: seq<Signal>, n: nat, m: nat)
    requires m <= n < |rows| && !Placed(rows[n])
    ensures PairsAgainst(rows, n, m) == []
  {
    if m > 0 {
      NoneAgainst(rows, n, m - 1);
    }
  }

  lemma WarnsOn(ws: seq<Warning>, ps: seq<Pair>, more: seq<Warning>, pairs: seq<Pair>, rows: seq<Signal>)
    requires WarnsOf(ws, ps, rows) && WarnsOf(more, pairs, rows)
    ensures WarnsOf(ws + more, ps + pairs, rows)
  {
  }

  lemma {:induction false} WarningsUpTo(rows: seq<Signal>, n: nat)
    requires n <= |rows|
    ensures WarnsOf(Warnings(rows[..n]), PairsUpTo(rows, n), rows)
    decreases n
  {
    if n > 0 {
      WarningsUpTo(rows, n - 1);
      assert rows[..n][..n - 1] == rows[..n - 1];
      var front, pairs := Warnings(rows[..n - 1]), PairsUpTo(rows, n - 1);
      if Placed(rows[n - 1]) {
        AgainstWarns(rows, n - 1, n - 1);
        WarnsOn(front, pairs, Against(rows[n - 1], rows[..n - 1]), PairsAgainst(rows, n - 1, n - 1), rows);
      } else {
        NoneAgainst(rows, n - 1, n - 1);
        WarnsOn(front, pairs, [], [], rows);
      }
    }
  }

  /** One warning for every pair of signals that share a bit of one frame, in the order
      of the rows, naming the later one, the earlier one and their frame. */
  lemma WarningsAre(rows: seq<Signal>)
    ensures exists ps :: ListsPairs(ps, rows) && WarnsOf(Warnings(rows), ps, rows)
  {
    var ps := PairsUpTo(rows, |rows|);
    PairsAreAll(rows, |rows|);
    PairsAreInTurn(rows, |rows|);
    assert rows[..|rows|] == rows;
    WarningsUpTo(rows, |rows|);
    forall a: Signal, b: Signal ensures Overlap(a, b) <==> ShareBit(a, b) {
      OverlapIs(a, b);
    }
    assert ListsPairs(ps, rows);
  }

  predicate Disjoint(rows: seq<Signal>) {
    forall i, j :: 0 <= i < j < |rows| ==> !Overlap(rows[i], rows[j])
  }

  predicate Clear(s: Signal, earlier: seq<Signal>) {
    forall i :: 0 <= i < |earlier| ==> !Overlap(earlier[i], s)
  }

  lemma DisjointNext(rows: seq<Signal>, s: Signal)
    ensures Disjoint(rows + [s]) <==> Disjoint(rows) && Clear(s, rows)
  {
    var all := rows + [s];
    if Disjoint(all) {
      forall i, j | 0 <= i < j < |rows| ensures !Overlap(rows[i], rows[j]) {
        assert !Overlap(all[i], all[j]);
      }
      forall i | 0 <= i < |rows| ensures !Overlap(rows[i], s) {
        assert !Overlap(all[i], all[|rows|]);
      }
    }
  }

  lemma {:induction false} NothingAgainst(s: Signal, earlier: seq<Signal>)
    requires Placed(s)
    ensures Against(s, earlier) == [] <==> Clear(s, earlier)
  {
    if earlier != [] {
      var n := |earlier| - 1;
      NothingAgainst(s, earlier[..n]);
      assert forall i :: 0 <= i < n ==> earlier[..n][i] == earlier[i];
    }
  }

  /** The check is silent exactly when no two signals of one frame share a bit. */
  lemma {:induction false} SilentMeansDisjoint(rows: seq<Signal>)
    ensures Warnings(rows) == [] <==> Disjoint(rows)
  {
    if rows != [] {
      var n := |rows| - 1;
      SilentMeansDisjoint(rows[..n]);
      if Placed(rows[n]) {
        NothingAgainst(rows[n], rows[..n]);
      }
      DisjointNext(rows[..n], rows[n]);
      assert rows[..n] + [rows[n]] == rows;
    }
  }

  /** Two frames that agree on every bit outside signal `s`. */
  predicate AgreeOutside(a: seq<Byte>, b: seq<Byte>, s: Signal)
    requires |a| == |b| && Placed(s)
  {
    forall k: nat :: k < 8 * |a| && k !in BitSet(s) ==> FrameBit(a, k) == FrameBit(b, k)
  }

  lemma DisjointBits(rows: seq<Signal>, i: nat, j: nat)
    requires Disjoint(rows) && i < |rows| && j < |rows| && i != j
    requires Placed(rows[i]) && Placed(rows[j]) && rows[i].frame == rows[j].frame
    ensures BitSet(rows[i]) * BitSet(rows[j]) == {}
  {
    if i < j {
      assert !Overlap(rows[i], rows[j]);
    } else {
      assert !Overlap(rows[j], rows[i]);
    }
  }

  /** Two frames that differ only in the bits of signal `i` give every other
      signal of that frame the same number, when the check is silent. */
  lemma SilentSignalsAreIndependent(rows: seq<Signal>, i: nat, j: nat, a: seq<Byte>, b: seq<Byte>, p: Place)
    requires Warnings(rows) == [] && i < |rows| && j < |rows| && i != j
    requires Placed(rows[i]) && Placed(rows[j]) && rows[i].frame == rows[j].frame
    requires rows[j].place == Some(p) && |a| == |b| && AgreeOutside(a, b, rows[i])
    ensures ExtractRaw(a, p.startBit, p.length, p.order) == ExtractRaw(b, p.startBit, p.length, p.order)
  {
    SilentMeansDisjoint(rows);
    DisjointBits(rows, i, j);
    forall k | k in SignalBits(p.startBit, p.length, p.order) && k < 8 * |a|
      ensures FrameBit(a, k) == FrameBit(b, k)
    {
      assert k in BitSet(rows[j]);
      assert k !in BitSet(rows[i]) * BitSet(rows[j]);
    }
    OnlyNamedBitsMatter(a, b, p.startBit, p.length, p.order);
  }
}
