/** RTU frames on the serial line: sealing a body with its CRC, splitting a
    frame, judging a request and its answer, and which line errors are caught. */
module SerialFrames {
  import opened Prelude
  import opened Crc
  import opened CrcBits

  // ---- frames ----

  /** Two bytes as a little-endian word. */
  function WordOf(lo: bv8, hi: bv8): bv16 {
    (lo as bv16) | ((hi as bv16) << 8)
  }

  function LowByte(c: bv16): bv8 {
    (c & 0xFF) as bv8
  }

  function HighByte(c: bv16): bv8 {
    (c >> 8) as bv8
  }

  /** A body followed by its CRC, low byte first. */
  function Sealed(body: seq<bv8>): seq<bv8> {
    body + [LowByte(CrcOf(body)), HighByte(CrcOf(body))]
  }

  predicate CrcOk(frame: seq<bv8>)
    requires |frame| >= 2
  {
    WordOf(frame[|frame| - 2], frame[|frame| - 1]) == CrcOf(frame[..|frame| - 2])
  }

  datatype Adu = Adu(address: bv8, pdu: seq<bv8>, crcOk: bool)

  function SplitAdu(frame: seq<bv8>): Option<Adu> {
    if |frame| < 4 then None
    else Some(Adu(frame[0], frame[1..|frame| - 2], CrcOk(frame)))
  }

  datatype Judgement =
    | Malformed
    | NoResponse
    | CrcError
    | Exception(code: Option<bv8>)
    | Answered
    | Mismatch

  /** What a request and its answer are reported as. */
  function Judge(tx: seq<bv8>, rx: seq<bv8>): Judgement {
    var request := SplitAdu(tx);
    if request.None? then Malformed
    else if rx == [] then NoResponse
    else
      var answer := SplitAdu(rx);
      if answer.None? then Malformed
      else if !answer.value.crcOk then CrcError
      else
        var fc, rfc := request.value.pdu[0], answer.value.pdu[0];
        if rfc == fc | 0x80 then
          Exception(if |answer.value.pdu| > 1 then Some(answer.value.pdu[1]) else None)
        else if rfc == fc then Answered
        else Mismatch
  }

  /** How long an answer says it is. */
  function AnswerLength(resp: seq<bv8>): nat
    requires |resp| >= 5
  {
    if resp[1] & 0x80 != 0 then 5 else 3 + resp[2] as nat + 2
  }

  /** The probe's test of an answer: from that slave, whole, its CRC right. */
  predicate RtuOk(resp: seq<bv8>, address: bv8) {
    |resp| >= 5 && resp[0] == address && AnswerLength(resp) <= |resp| &&
    CrcOk(resp[..AnswerLength(resp)])
  }

  // ---- frames as bits, in the order of the line ----

  /** The lowest `n` bits of a word, the lowest first. */
  function LowBits(c: bv16, n: nat): (s: seq<bool>)
    ensures |s| == n
    ensures forall i :: 0 <= i < n ==> s[i] == Bit(c, i)
  {
    if n == 0 then [] else LowBits(c, n - 1) + [Bit(c, n - 1)]
  }

  function Bits8(b: bv8): (s: seq<bool>)
    ensures |s| == 8
  {
    LowBits(b as bv16, 8)
  }

  function Bits(data: seq<bv8>): (s: seq<bool>)
    ensures |s| == 8 * |data|
  {
    if data == [] then [] else Bits8(data[0]) + Bits(data[1..])
  }

  lemma {:induction false} BitsAt(data: seq<bv8>, j: nat, i: nat)
    requires j < |data| && i < 8
    ensures Bits(data)[8 * j + i] == Bit(data[j] as bv16, i)
  {
    if j > 0 {
      BitsAt(data[1..], j - 1, i);
      assert Bits(data)[8 * j + i] == Bits(data[1..])[8 * (j - 1) + i];
    }
  }

  lemma {:induction false} BitsAppend(a: seq<bv8>, b: seq<bv8>)
    ensures Bits(a + b) == Bits(a) + Bits(b)
  {
    if a == [] {
      assert a + b == b;
    } else {
      assert (a + b)[0] == a[0] && (a + b)[1..] == a[1..] + b;
      BitsAppend(a[1..], b);
    }
  }

  lemma OnesOfByte(b: bv8)
    ensures Ones(Bits8(b)) == SetOf(b as bv16)
  {
    var w, ones := b as bv16, Ones(Bits8(b));
    forall i: nat | i < 16 ensures i in ones <==> Bit(w, i) {
      if i >= 8 {
        ByteEnds(b, i);
      }
    }
    assert ones == SetOf(w);
  }

  lemma ByteFeeds(c: bv16, b: bv8, w: bv16, x: bv16)
    requires w == b as bv16 && x == c ^ w
    ensures SetOf(Shift(x, 8)) == Feed(SetOf(c), Bits8(b))
  {
    OnesOfByte(b);
    SetOfXor(c, w);
    SetOfShift(x, 8);
    FeedWord(SetOf(c), Bits8(b));
  }

  lemma FeedsOn(r: set<nat>, s: set<nat>, t: set<nat>, a: seq<bool>, b: seq<bool>)
    requires s == Feed(r, a) && t == Feed(s, b)
    ensures t == Feed(r, a + b)
  {
    FeedAppend(r, a, b);
  }

  lemma NextByteFeeds(c: bv16, b: bv8)
    ensures SetOf(NextByte(c, b)) == Feed(SetOf(c), Bits8(b))
  {
    ByteFeeds(c, b, b as bv16, c ^ (b as bv16));
  }

  /** The byte-wise computation is the bit-wise machine. */
  lemma {:induction false} CrcFeeds(c: bv16, data: seq<bv8>, r: bv16)
    requires r == CrcFrom(c, data)
    ensures SetOf(r) == Feed(SetOf(c), Bits(data))
    decreases |data|
  {
    if data != [] {
      var next := NextByte(c, data[0]);
      CrcFeeds(next, data[1..], r);
      NextByteFeeds(c, data[0]);
      FeedsOn(SetOf(c), SetOf(next), SetOf(r), Bits8(data[0]), Bits(data[1..]));
    }
  }

  lemma Bytes(lo: bv8, hi: bv8)
    ensures WordOf(lo, hi) & 0xFF == lo as bv16 && WordOf(lo, hi) >> 8 == hi as bv16
    ensures LowByte(WordOf(lo, hi)) == lo && HighByte(WordOf(lo, hi)) == hi
  {
  }

  lemma Rebuilt(c: bv16)
    ensures WordOf(LowByte(c), HighByte(c)) == c
  {
  }

  lemma OnesOfWord(lo: bv8, hi: bv8)
    ensures Ones(Bits8(lo) + Bits8(hi)) == SetOf(WordOf(lo, hi))
  {
    var w := WordOf(lo, hi);
    Bytes(lo, hi);
    forall i: nat | i < 16 ensures i in Ones(Bits8(lo) + Bits8(hi)) <==> Bit(w, i) {
      if i < 8 {
        LowByteBit(w, i);
      } else {
        HighByteBit(w, i - 8);
      }
    }
  }

  /** Two more bytes bring the register to zero when they spell it out. */
  lemma TailToZero(r: set<nat>, lo: bv8, hi: bv8)
    requires Within(r)
    ensures Feed(r, Bits8(lo) + Bits8(hi)) == {} <==> r == SetOf(WordOf(lo, hi))
  {
    var tail := Bits8(lo) + Bits8(hi);
    var ones := Ones(tail);
    FeedWord(r, tail);
    OnesOfWord(lo, hi);
    StepsNonzero(Sym(r, ones), 16);
    assert Sym(r, ones) == {} <==> r == ones;
  }

  lemma FrameBits(body: seq<bv8>, lo: bv8, hi: bv8)
    ensures Bits(body + [lo, hi]) == Bits(body) + (Bits8(lo) + Bits8(hi))
  {
    BitsAppend(body, [lo, hi]);
    assert [lo, hi][1..] == [hi] && [hi][1..] == [];
    assert Bits([hi]) == Bits8(hi) + Bits([]);
  }

  lemma SameWord(x: bv16, y: bv16)
    ensures SetOf(x) == SetOf(y) <==> x == y
  {
    if SetOf(x) == SetOf(y) {
      SetOfInjective(x, y);
    }
  }

  lemma WholeFrame(start: set<nat>, c: bv16, body: seq<bv8>, lo: bv8, hi: bv8)
    requires SetOf(c) == Feed(start, Bits(body))
    ensures Feed(start, Bits(body + [lo, hi])) == {} <==> c == WordOf(lo, hi)
  {
    FrameBits(body, lo, hi);
    FeedAppend(start, Bits(body), Bits8(lo) + Bits8(hi));
    TailToZero(SetOf(c), lo, hi);
    SameWord(c, WordOf(lo, hi));
  }

  /** The register of sixteen ones. */
  const ALL_ONES: set<nat> := {0, 1, 2, 3, 4, 5, 6, 7, 8, 9, 10, 11, 12, 13, 14, 15}

  lemma InitIsAllOnes()
    ensures SetOf(INIT) == ALL_ONES
  {
    Masks();
    forall i: nat | i < 16 ensures Bit(INIT, i) {
      MaskBit(0xFFFF, 16, i);
    }
  }

  /** A frame passes the check exactly when it leaves the register, of sixteen ones
      at first, at zero. */
  lemma OkMeansZero(frame: seq<bv8>)
    requires |frame| >= 2
    ensures CrcOk(frame) <==> Feed({0, 1, 2, 3, 4, 5, 6, 7, 8, 9, 10, 11, 12, 13, 14, 15}, Bits(frame)) == {}
  {
    InitIsAllOnes();
    SplitsInThree(frame);
    OkFromParts(frame, frame[..|frame| - 2], frame[|frame| - 2], frame[|frame| - 1], CrcOf(frame[..|frame| - 2]), ALL_ONES);
  }

  lemma SplitsInThree(frame: seq<bv8>)
    requires |frame| >= 2
    ensures frame == frame[..|frame| - 2] + [frame[|frame| - 2], frame[|frame| - 1]]
  {
  }

  lemma OkFromParts(frame: seq<bv8>, body: seq<bv8>, lo: bv8, hi: bv8, c: bv16, start: set<nat>)
    requires frame == body + [lo, hi] && c == CrcOf(body) && start == SetOf(INIT)
    ensures CrcOk(frame) <==> Feed(start, Bits(frame)) == {}
  {
    CrcFeeds(INIT, body, c);
    WholeFrame(start, c, body, lo, hi);
    OkIsTheWord(frame, body, lo, hi);
  }

  lemma OkIsTheWord(frame: seq<bv8>, body: seq<bv8>, lo: bv8, hi: bv8)
    requires frame == body + [lo, hi]
    ensures CrcOk(frame) <==> CrcOf(body) == WordOf(lo, hi)
  {
    assert frame[..|frame| - 2] == body;
  }

  // ---- what a valid frame decodes to ----

  /** A sealed body passes the check and splits back into what was sent. */
  lemma SealedSplits(body: seq<bv8>)
    requires |body| >= 2
    ensures SplitAdu(Sealed(body)) == Some(Adu(body[0], body[1..], true))
  {
    Rebuilt(CrcOf(body));
    var f := Sealed(body);
    assert f[..|f| - 2] == body && f[1..|f| - 2] == body[1..];
  }

  /** Only the sealed form of its body passes. */
  lemma OnlySealedPasses(frame: seq<bv8>)
    requires |frame| >= 2
    ensures CrcOk(frame) <==> frame == Sealed(frame[..|frame| - 2])
  {
    var n := |frame| - 2;
    var body, lo, hi := frame[..n], frame[n], frame[n + 1];
    var c := CrcOf(body);
    assert frame == body + [lo, hi];
    Rebuilt(c);
    Bytes(lo, hi);
    assert frame == Sealed(body) <==> lo == LowByte(c) && hi == HighByte(c) by {
      assert Sealed(body)[n] == LowByte(c) && Sealed(body)[n + 1] == HighByte(c);
    }
  }

  // ---- which line errors are caught ----

  /** The bits in which two frames of one length differ. */
  function Damage(sent: seq<bv8>, got: seq<bv8>): seq<bool>
    requires |sent| == |got|
  {
    Differences(Bits(sent), Bits(got))
  }

  /** Damage goes unseen exactly when it alone would leave the register at zero. */
  lemma UnseenDamage(sent: seq<bv8>, got: seq<bv8>)
    requires |sent| == |got| >= 2 && CrcOk(sent)
    ensures CrcOk(got) <==> Feed({}, Damage(sent, got)) == {}
  {
    OkMeansZero(sent);
    OkMeansZero(got);
    var r, e := ALL_ONES, {};
    assert Sym(r, e) == r;
    FeedLinear(r, e, Bits(sent), Bits(got));
    assert Sym({}, Feed(e, Damage(sent, got))) == Feed(e, Damage(sent, got));
  }

  lemma OnesAnywhere(d: seq<bool>, k: nat, i: nat)
    requires k <= i < |d| && i < k + 16 && d[i]
    requires forall j :: 0 <= j < |d| && d[j] ==> k <= j < k + 16
    ensures Feed({}, d) != {}
  {
    var m := if k + 16 <= |d| then k + 16 else |d|;
    assert d[k..m] + d[m..] == d[k..] && d[..k] + d[k..] == d;
    assert d[k..m][i - k];
    WordShows(d[k..m], i - k);
    ShownAmongZeros(d[..k], d[k..m], d[m..]);
  }

  lemma ShownAmongZeros(before: seq<bool>, word: seq<bool>, after: seq<bool>)
    requires (forall j :: 0 <= j < |before| ==> !before[j]) && (forall j :: 0 <= j < |after| ==> !after[j])
    requires Feed({}, word) != {}
    ensures Feed({}, before + (word + after)) != {}
  {
    FeedAppend({}, before, word + after);
    FeedZeros({}, before);
    StepsNonzero({}, |before|);
    ShownBeforeZeros(word, after);
  }

  lemma ShownBeforeZeros(word: seq<bool>, after: seq<bool>)
    requires (forall j :: 0 <= j < |after| ==> !after[j]) && Feed({}, word) != {}
    ensures Feed({}, word + after) != {}
  {
    FeedAppend({}, word, after);
    FeedWithin({}, word);
    FeedZeros(Feed({}, word), after);
    StepsNonzero(Feed({}, word), |after|);
  }

  lemma WordShows(word: seq<bool>, i: nat)
    requires |word| <= 16 && i < |word| && word[i]
    ensures Feed({}, word) != {}
  {
    FeedWord({}, word);
    assert i in Ones(word);
    assert Sym({}, Ones(word)) == Ones(word);
    StepsNonzero(Ones(word), |word|);
  }

  lemma DamageShows(sent: seq<bv8>, got: seq<bv8>) returns (at: nat)
    requires |sent| == |got| && sent != got
    ensures at < |Bits(sent)| && Bits(sent)[at] != Bits(got)[at]
  {
    var j :| 0 <= j < |sent| && sent[j] != got[j];
    var x, y := sent[j] as bv16, got[j] as bv16;
    assert x != y by { SameByte(sent[j], got[j]); }
    if forall i: nat :: i < 8 ==> Bit(x, i) == Bit(y, i) {
      forall i: nat | i < 16 ensures Bit(x, i) == Bit(y, i) {
        if i >= 8 {
          ByteEnds(sent[j], i);
          ByteEnds(got[j], i);
        }
      }
      BitsDetermine(x, y);
      assert false;
    }
    var i: nat :| i < 8 && Bit(x, i) != Bit(y, i);
    BitsAt(sent, j, i);
    BitsAt(got, j, i);
    at := 8 * j + i;
  }

  lemma SameByte(a: bv8, b: bv8)
    ensures a as bv16 == b as bv16 ==> a == b
  {
  }

  /** Any damage confined to sixteen successive bits is caught, anywhere in a
      frame of any length, its CRC included. */
  lemma BurstsAreCaught(sent: seq<bv8>, got: seq<bv8>, k: nat)
    requires |sent| == |got| >= 2 && sent != got && CrcOk(sent)
    requires forall i :: 0 <= i < |Bits(sent)| && Bits(sent)[i] != Bits(got)[i] ==> k <= i < k + 16
    ensures !CrcOk(got)
  {
    var at := DamageShows(sent, got);
    DifferencesAt(Bits(sent), Bits(got));
    OnesAnywhere(Damage(sent, got), k, at);
    UnseenDamage(sent, got);
  }

  // ---- zero bytes in front ----

  ghost predicate AllZero(bytes: seq<bv8>) {
    forall i :: 0 <= i < |bytes| ==> bytes[i] == 0
  }

  lemma ZeroBits(bytes: seq<bv8>)
    requires AllZero(bytes)
    ensures forall i :: 0 <= i < |Bits(bytes)| ==> !Bits(bytes)[i]
  {
    forall i | 0 <= i < |Bits(bytes)| ensures !Bits(bytes)[i] {
      BitsAt(bytes, i / 8, i % 8);
      ZeroBit(i % 8);
    }
  }

  lemma {:induction false} ZeroBit(i: nat)
    ensures !Bit(0, i)
  {
    if i > 0 {
      assert (0 as bv16) >> 1 == 0;
      ZeroBit(i - 1);
    }
  }

  lemma ThroughZeros(r: set<nat>, zeros: seq<bv8>, frame: seq<bv8>)
    requires AllZero(zeros)
    ensures Feed(r, Bits(zeros)) == Steps(r, 8 * |zeros|)
    ensures Feed(r, Bits(zeros + frame)) == Feed(Steps(r, 8 * |zeros|), Bits(frame))
  {
    BitsAppend(zeros, frame);
    FeedAppend(r, Bits(zeros), Bits(frame));
    ZeroBits(zeros);
    FeedZeros(r, Bits(zeros));
  }

  lemma OnesAreWithin()
    ensures Within(ALL_ONES) && ALL_ONES != {}
  {
    assert 0 in ALL_ONES;
  }

  /** A line that stays at zero is no frame, of whatever length. */
  lemma ZerosNeverPass(frame: seq<bv8>)
    requires |frame| >= 2 && AllZero(frame)
    ensures !CrcOk(frame)
  {
    OkMeansZero(frame);
    OnesAreWithin();
    ThroughZeros(ALL_ONES, frame, []);
    StepsNonzero(ALL_ONES, 8 * |frame|);
  }

  lemma SymEmpty(a: set<nat>, b: set<nat>)
    ensures Sym(a, b) == {} <==> a == b
  {
    if a != b {
      assert exists x :: x in Sym(a, b) by {
        if x :| x in a && x !in b {
          assert x in Sym(a, b);
        } else {
          var x :| x in b && x !in a;
          assert x in Sym(a, b);
        }
      }
    }
  }

  /** From two registers a frame can lead to zero only if they are one. */
  lemma ZeroFromOne(r: set<nat>, s: set<nat>, bits: seq<bool>)
    requires Within(r) && Within(s) && Feed(r, bits) == {}
    ensures Feed(s, bits) == {} <==> r == s
  {
    var d := Sym(r, s);
    assert Sym(r, d) == s;
    FeedLinear(r, d, bits, bits);
    var none := Differences(bits, bits);
    DifferencesAt(bits, bits);
    FeedZeros(d, none);
    StepsNonzero(d, |none|);
    assert Sym({}, Feed(d, none)) == Feed(d, none);
    SymEmpty(r, s);
  }

  /** Zero bytes lost or added in front of a frame go unnoticed exactly when they
      leave the register's ones alone. */
  lemma LeadingZerosShow(zeros: seq<bv8>, frame: seq<bv8>)
    requires AllZero(zeros) && |frame| >= 2 && CrcOk(frame)
    ensures CrcOk(zeros + frame) <==> Steps(ALL_ONES, 8 * |zeros|) == ALL_ONES
  {
    OkMeansZero(frame);
    OkMeansZero(zeros + frame);
    OnesAreWithin();
    ThroughZeros(ALL_ONES, zeros, frame);
    ZeroBits(zeros);
    FeedWithin(ALL_ONES, Bits(zeros));
    ZeroFromOne(ALL_ONES, Steps(ALL_ONES, 8 * |zeros|), Bits(frame));
  }

  /** One such byte never does. */
  lemma LeadingZeroShows(frame: seq<bv8>)
    requires |frame| >= 2 && CrcOk(frame)
    ensures !CrcOk([0] + frame)
  {
    LeadingZerosShow([0], frame);
    InitIsAllOnes();
    CrcOfZero();
    SetOfShift(INIT, 8);
    if SetOf(INIT) == SetOf(0x40BF) {
      SetOfInjective(INIT, 0x40BF);
    }
  }

  /** Seventeen bits are too many: the generator itself leaves no trace. */
  lemma SeventeenBitsMaySlip()
    ensures |[true] + PolyBits()| == 17 && Feed({}, [true] + PolyBits()) == {}
  {
    var p := [true] + PolyBits();
    assert p[0] && p[1..] == PolyBits();
    assert Take({}, true) == {0} && Step({0}) == TAPS by {
      TapsAre();
    }
    PolyOnes();
    FeedWord(TAPS, PolyBits());
    assert Sym(TAPS, TAPS) == {};
    StepsNonzero({}, 16);
  }

  lemma PolyOnes()
    ensures |PolyBits()| == 16 && Ones(PolyBits()) == TAPS
  {
    PolyIs();
    var p := PolyBits();
    forall i: nat | i < 16 ensures p[i] == Bit(POLY, i) {
      BitsAreAt(POLY, p, i);
    }
  }

  /** One byte changed, or two neighbouring ones. */
  lemma ByteErrorsAreCaught(sent: seq<bv8>, got: seq<bv8>, k: nat)
    requires |sent| == |got| >= 2 && sent != got && CrcOk(sent)
    requires forall j :: 0 <= j < |sent| && sent[j] != got[j] ==> k <= j <= k + 1
    ensures !CrcOk(got)
  {
    forall i | 0 <= i < |Bits(sent)| && Bits(sent)[i] != Bits(got)[i]
      ensures 8 * k <= i < 8 * k + 16
    {
      var j, b := i / 8, i % 8;
      BitsAt(sent, j, b);
      BitsAt(got, j, b);
    }
    BurstsAreCaught(sent, got, 8 * k);
  }

  function Flipped(d: seq<bool>): nat {
    if d == [] then 0 else (if d[0] then 1 else 0) + Flipped(d[1..])
  }

  lemma {:induction false} OddBitsCount(d: seq<bool>)
    ensures OddBits(d) <==> Flipped(d) % 2 == 1
  {
    if d != [] {
      OddBitsCount(d[1..]);
    }
  }

  /** Any odd number of flipped bits is caught, wherever they are. */
  lemma OddErrorsAreCaught(sent: seq<bv8>, got: seq<bv8>)
    requires |sent| == |got| >= 2 && CrcOk(sent)
    requires Flipped(Damage(sent, got)) % 2 == 1
    ensures !CrcOk(got)
  {
    var d := Damage(sent, got);
    OddBitsCount(d);
    FeedParity({}, d);
    OddEmpty(16);
    UnseenDamage(sent, got);
  }

  // ---- what the trace and the probe make of it ----

  /** What is reported without a look at the function codes: a request or an answer of
      fewer than four bytes, silence, and an answer that fails the check. */
  lemma JudgedByShape(tx: seq<bv8>, rx: seq<bv8>)
    ensures Judge(tx, rx) == Malformed <==> |tx| < 4 || 1 <= |rx| < 4
    ensures Judge(tx, rx) == NoResponse <==> |tx| >= 4 && rx == []
    ensures Judge(tx, rx) == CrcError <==> |tx| >= 4 && |rx| >= 4 && !CrcOk(rx)
  {
  }

  /** An answer whose damage is caught is reported as a CRC failure, whatever
      the request; an undamaged one never is. */
  lemma DamagedAnswersAreReported(tx: seq<bv8>, sent: seq<bv8>, got: seq<bv8>, k: nat)
    requires |tx| >= 4 && |sent| == |got| >= 4 && CrcOk(sent)
    requires forall i :: 0 <= i < |Bits(sent)| && Bits(sent)[i] != Bits(got)[i] ==> k <= i < k + 16
    ensures Judge(tx, got) == CrcError <==> sent != got
  {
    if sent != got {
      BurstsAreCaught(sent, got, k);
    }
  }

  /** A slave's own frame is judged by its function code alone. */
  lemma SealedAnswersAreJudged(tx: seq<bv8>, body: seq<bv8>)
    requires |tx| >= 4 && |body| >= 2
    ensures Judge(tx, Sealed(body)) == Answered <==> body[1] == tx[1] && tx[1] < 0x80
    ensures Judge(tx, Sealed(body)).Exception? <==> body[1] & 0x7F == tx[1] & 0x7F && body[1] >= 0x80
    ensures Judge(tx, Sealed(body)).Exception? ==>
              Judge(tx, Sealed(body)).code == if |body| > 2 then Some(body[2]) else None
    ensures Judge(tx, Sealed(body)) != CrcError && Judge(tx, Sealed(body)) != Malformed
  {
    SealedSplits(body);
    Codes(tx[1], body[1]);
  }

  lemma Codes(fc: bv8, rfc: bv8)
    ensures rfc == fc | 0x80 <==> rfc & 0x7F == fc & 0x7F && rfc >= 0x80
    ensures rfc == fc && rfc != fc | 0x80 <==> rfc == fc && fc < 0x80
  {
  }

  /** The probe believes a slave's whole frame of the length it states. */
  lemma ProbeBelievesWholeAnswers(body: seq<bv8>)
    requires |body| >= 3 && AnswerLength(Sealed(body)) == |body| + 2
    ensures RtuOk(Sealed(body), body[0])
  {
    SealedSplits(body);
    assert Sealed(body)[..|body| + 2] == Sealed(body);
  }

  /** The probe believes no answer damaged within sixteen bits, as long as the
      damage leaves the length the answer states. */
  lemma ProbeBelievesNoDamage(sent: seq<bv8>, got: seq<bv8>, address: bv8, k: nat)
    requires RtuOk(sent, address) && |got| >= 5 && AnswerLength(got) == AnswerLength(sent) <= |got|
    requires got[..AnswerLength(got)] != sent[..AnswerLength(sent)]
    requires forall i :: 0 <= i < 8 * AnswerLength(sent) &&
                         Bits(sent[..AnswerLength(sent)])[i] != Bits(got[..AnswerLength(sent)])[i]
                         ==> k <= i < k + 16
    ensures !RtuOk(got, address)
  {
    var n := AnswerLength(sent);
    BurstsAreCaught(sent[..n], got[..n], k);
  }

  lemma LengthIs(got: seq<bv8>)
    requires |got| >= 5
    ensures AnswerLength(got) == if got[1] >= 0x80 then 5 else 5 + got[2] as nat
  {
    assert got[1] & 0x80 != 0 <==> got[1] >= 0x80;
  }

  /** Whatever arrived, the probe believes exactly what begins with some sealed
      body of the slave's, of the length it states: five bytes for an exception, five
      more than the byte count for an answer. */
  lemma ProbeBelievesSealed(got: seq<bv8>, address: bv8)
    ensures RtuOk(got, address) <==>
            && |got| >= 5 && got[0] == address
            && var n := if got[1] >= 0x80 then 5 else 5 + got[2] as nat;
               n <= |got| && got[..n] == Sealed(got[..n - 2])
  {
    if |got| >= 5 {
      LengthIs(got);
      if AnswerLength(got) <= |got| {
        var n := AnswerLength(got);
        assert got[..n][..n - 2] == got[..n - 2];
        OnlySealedPasses(got[..n]);
      }
    }
  }

  /** One damaged byte of an answer goes unseen only when it is the function byte or
      the byte count, and states another length. */
  lemma OneByteSlipsOnlyInTheLength(sent: seq<bv8>, got: seq<bv8>, address: bv8, j: nat)
    requires RtuOk(sent, address) && RtuOk(got, address) && |got| == |sent|
    requires j < AnswerLength(sent) && sent[j] != got[j] && forall i :: 0 <= i < |sent| && i != j ==> sent[i] == got[i]
    ensures (j == 1 || j == 2) && AnswerLength(got) != AnswerLength(sent)
  {
    var n := AnswerLength(sent);
    if AnswerLength(got) == n {
      assert sent[..n][j] != got[..n][j];
      ByteErrorsAreCaught(sent[..n], got[..n], j);
    }
  }

  /** So one damaged byte may go unseen, where it is one of the two that state a
      length: an answer of one register, whose data are the CRC of an empty answer,
      with its byte count gone. */
  lemma LengthDamageMaySlip(address: bv8, sent: seq<bv8>)
    requires sent == Sealed([address, 3, 2] + Sealed([address, 3, 0])[3..])
    ensures |sent| == 7 && AnswerLength(sent) == 7 && RtuOk(sent, address) && RtuOk(sent[2 := 0], address)
  {
    var body, got := [address, 3, 2] + Sealed([address, 3, 0])[3..], sent[2 := 0];
    assert sent[..7] == sent && sent[..5] == body;
    ProbeBelievesSealed(sent, address);
    assert got[..5] == Sealed([address, 3, 0]) && got[..3] == [address, 3, 0];
    ProbeBelievesSealed(got, address);
  }

  /** Or one whose data are the CRC of an exception, with its function byte made
      that of the exception. */
  lemma FunctionDamageMaySlip(address: bv8, sent: seq<bv8>)
    requires sent == Sealed([address, 3, 2] + Sealed([address, 0x83, 2])[3..])
    ensures |sent| == 7 && AnswerLength(sent) == 7 && RtuOk(sent, address) && RtuOk(sent[1 := 0x83], address)
  {
    var body, got := [address, 3, 2] + Sealed([address, 0x83, 2])[3..], sent[1 := 0x83];
    assert sent[..7] == sent && sent[..5] == body;
    ProbeBelievesSealed(sent, address);
    assert got[..5] == Sealed([address, 0x83, 2]) && got[..3] == [address, 0x83, 2];
    ProbeBelievesSealed(got, address);
  }

  /** The bytes after the stated length make no difference to the probe. */
  lemma ProbeIgnoresTheRest(resp: seq<bv8>, more: seq<bv8>, address: bv8)
    requires RtuOk(resp, address)
    ensures RtuOk(resp + more, address)
  {
    var n := AnswerLength(resp);
    assert AnswerLength(resp + more) == n;
    assert (resp + more)[..n] == resp[..n];
  }
}
