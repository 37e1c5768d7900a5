/** Concrete queues in which a newer value in an older one's place leaves other
    registers than both in their turn would. */
module CoalesceLosses {
  import opened Prelude
  import opened LaneModel
  import opened Coalesce
  import F = Frames
  import C = Channels
  import CF = ChannelFacts
  import E = Expressions

  const SET_FIRST := Name("set_first")
  const SET_SECOND := Name("set_second")
  const FIRST := Name("first")
  const SECOND := Name("second")
  const VALUE := Name("value")

  /** Two commands on two registers. */
  const DEFS := C.Defs(
    [SET_FIRST, SET_SECOND],
    map[SET_FIRST := C.CommandDef([F.Write(FIRST, E.Leaf(E.Given(VALUE)))], C.NO_NAME, C.NoAlias),
        SET_SECOND := C.CommandDef([F.Write(SECOND, E.Leaf(E.Given(VALUE)))], C.NO_NAME, C.NoAlias)])

  lemma DefsAreApart()
    ensures C.ValidDefs(DEFS) && CF.KeysApart(DEFS)
  {
    var a, b := DEFS.of[SET_FIRST], DEFS.of[SET_SECOND];
    assert FIRST.text != SECOND.text && FIRST.text != C.NO_NAME.text && SECOND.text != C.NO_NAME.text;
    CF.OneWriteKeys(a);
    CF.OneWriteKeys(b);
    assert SET_FIRST.text != SET_SECOND.text;
    var p := C.AllKeys(DEFS);
    forall u, v | C.Shares(p, u, v) ensures u == v {
      var k :| k in p[u] * p[v];
    }
  }

  /** Each command is alone on its channel. */
  lemma IdsAreNames(ids: map<Name, Name>)
    requires C.ChannelIds(DEFS, ids)
    ensures C.Own(DEFS, SET_FIRST) && C.Own(DEFS, SET_SECOND) && SET_FIRST != SET_SECOND
    ensures ids[SET_FIRST] == SET_FIRST && ids[SET_SECOND] == SET_SECOND
  {
    DefsAreApart();
    assert SET_FIRST.text != SET_SECOND.text;
    CF.ApartIsAlone(DEFS, [], SET_FIRST, [SET_SECOND]);
    CF.ApartIsAlone(DEFS, [SET_FIRST], SET_SECOND, []);
    CF.AloneId(DEFS, SET_FIRST);
    CF.AloneId(DEFS, SET_SECOND);
  }

  function Always(command: Name, known: Readings, params: Args): bool {
    true
  }

  function Put(id: nat, command: Name, value: real): Job {
    Job(id, Name("wire"), Name("plant"), command, command, map[VALUE := Some(value)], Command, true, {VALUE}, None)
  }

  // ---- a scale factor that changes while the value waits ----

  const ADDRESS_FIRST := F.Cell(F.Holding, 0)
  const ADDRESS_SECOND := F.Cell(F.Holding, 1)

  const REGS := map[FIRST := F.Reg(FIRST, 0, F.Holding, 1), SECOND := F.Reg(SECOND, 1, F.Holding, 1)]

  /** The first register is scaled by the second, and takes no more than 100. */
  function ScaledWords(known: Readings, w: F.Write, params: Args): Attempt<seq<int>> {
    if VALUE !in params || params[VALUE].None? || params[VALUE].value > 100.0 then Refuses
    else if w.register == FIRST && SECOND in known && known[SECOND] != [] then
      Done([params[VALUE].value.Floor * known[SECOND][0]])
    else Done([params[VALUE].value.Floor])
  }

  function Scaled(known: Readings): F.Encoder {
    (w, params) => ScaledWords(known, w, params)
  }

  function Plant(ids: map<Name, Name>): Device {
    Device(REGS, DEFS, ids, map[SET_FIRST := {SECOND}], Always, Scaled)
  }

  lemma PlantIsValid(ids: map<Name, Name>)
    requires C.ChannelIds(DEFS, ids)
    ensures ValidDevice(Plant(ids))
  {
    DefsAreApart();
    assert FIRST.text != SECOND.text && FIRST.text != C.NO_NAME.text && SECOND.text != C.NO_NAME.text;
  }

  /** What setting the first register does, by the factor the device has. */
  lemma FirstIsScaled(ids: map<Name, Name>, m: F.Memory, id: nat, value: real)
    requires value <= 100.0
    ensures Accepted(Plant(ids), m, Put(id, SET_FIRST, value))
    ensures Patch(Plant(ids), m, Put(id, SET_FIRST, value)) == map[ADDRESS_FIRST := value.Floor * Look(m, ADDRESS_SECOND)]
  {
    var dev, j := Plant(ids), Put(id, SET_FIRST, value);
    assert FIRST.text != SECOND.text && SET_FIRST.text != SET_SECOND.text;
    OneWord(m, F.Holding, 1);
    assert ReadNames(dev, j) == {SECOND};
    assert Known(dev, m, j).Keys == {SECOND} && Known(dev, m, j)[SECOND] == [Look(m, ADDRESS_SECOND)];
    var word := value.Floor * Look(m, ADDRESS_SECOND);
    OneItem(dev, m, j, REGS[FIRST], [word]);
    OneWordWritten(0, word);
  }

  lemma OneWord(m: F.Memory, kind: F.RegType, address: int)
    ensures WordsAt(m, kind, address, 1) == [Look(m, F.Cell(kind, address))]
  {
    assert WordsAt(m, kind, address + 1, 0) == [];
  }

  lemma SecondIsPlain(ids: map<Name, Name>, m: F.Memory, id: nat, value: real)
    requires value <= 100.0
    ensures Accepted(Plant(ids), m, Put(id, SET_SECOND, value))
    ensures Patch(Plant(ids), m, Put(id, SET_SECOND, value)) == map[ADDRESS_SECOND := value.Floor]
  {
    assert FIRST.text != SECOND.text && SET_FIRST.text != SET_SECOND.text;
    OneItem(Plant(ids), m, Put(id, SET_SECOND, value), REGS[SECOND], [value.Floor]);
    OneWordWritten(1, value.Floor);
  }

  lemma OneWordWritten(address: int, word: int)
    ensures F.WriteWords(map[], F.Holding, address, [word]) == map[F.Cell(F.Holding, address) := word]
  {
    assert [word][1..] == [];
    var c := F.Cell(F.Holding, address);
    assert F.WriteWords(map[][c := word], F.Holding, address + 1, []) == map[][c := word];
  }

  lemma OneItemWritten(it: F.Item)
    ensures F.WriteItems(map[], [it]) == F.WriteWords(map[], it.kind, it.address, it.words)
  {
    assert [it][..0] == [];
    assert F.WriteItems(map[], []) == map[];
  }

  /** A command of one write. */
  lemma OneItem(dev: Device, m: F.Memory, j: Job, reg: F.Reg, words: seq<int>)
    requires |Writes(dev, j)| == 1 && Writes(dev, j)[0].register in dev.regs
    requires dev.regs[Writes(dev, j)[0].register] == reg && reg.kind == F.Holding
    requires ReadNames(dev, j) <= dev.regs.Keys && dev.guard(j.command, Known(dev, m, j), j.params)
    requires dev.enc(Known(dev, m, j))(Writes(dev, j)[0], j.params) == Done(words)
    ensures Accepted(dev, m, j) && Patch(dev, m, j) == F.WriteWords(map[], F.Holding, reg.address, words)
  {
    var writes, it := Writes(dev, j), F.Item(reg.name, reg.address, F.Holding, words);
    assert writes[..0] == [];
    assert F.Items(writes[..0], j.params, dev.regs, dev.enc(Known(dev, m, j))) == Done([]);
    assert [] + [it] == [it];
    OneItemWritten(it);
  }

  lemma OneBehind(dev: Device, m: F.Memory, tail: Job, j: Job)
    ensures Behind(dev, m, tail, [j]) ==
            m + Patch(dev, m, tail) + Patch(dev, m + Patch(dev, m, tail), j)
  {
    var t := m + Patch(dev, m, tail);
    assert [j][1..] == [];
    assert PatchAll(dev, t + Patch(dev, t, j), []) == map[];
    assert Patch(dev, t, j) + map[] == Patch(dev, t, j);
  }

  /** Three runs, patch by patch. */
  lemma ThreeRuns(dev: Device, m: F.Memory, tail: Job, behind: Job, job: Job,
                  t: F.Memory, p: F.Memory, late: F.Memory, n: F.Memory, q: F.Memory)
    requires Patch(dev, m, tail) == t && Patch(dev, m + t, behind) == p && Patch(dev, m + t + p, job) == late
    requires Patch(dev, m, job) == n && Patch(dev, m + n, behind) == q
    ensures Behind(dev, m, tail, [behind]) == m + t + p
    ensures BothRun(dev, m, tail, [behind], job) == m + t + p + late
    ensures NewerRuns(dev, m, [behind], job) == m + n + q
  {
    OneBehind(dev, m, tail, behind);
    OneBehind(dev, m, job, behind);
    QueuesArePatches(dev, m, tail, [behind], job);
  }

  lemma PutReplaces(ids: map<Name, Name>, older: real, other: real, newer: real)
    requires C.ChannelIds(DEFS, ids)
    ensures Replaces(Plant(ids), Put(1, SET_FIRST, older), [Put(2, SET_SECOND, other)], Put(3, SET_FIRST, newer))
    ensures Replaces(Plant(ids), Put(1, SET_FIRST, older), [], Put(3, SET_FIRST, newer))
  {
    PlantIsValid(ids);
    IdsAreNames(ids);
    var x, y := map[VALUE := Some(older)], map[VALUE := Some(newer)];
    assert x - {VALUE} == map[] == y - {VALUE};
    var tail, behind, job := Put(1, SET_FIRST, older), Put(2, SET_SECOND, other), Put(3, SET_FIRST, newer);
    ChannelsReplace(Plant(ids), tail, [behind], job);
    ChannelsReplace(Plant(ids), tail, [], job);
  }

  const FACTOR_ONE: F.Memory := map[ADDRESS_SECOND := 1]

  /** Set to 5, the factor set to 10, then set to 6: in the place of the 5 the 6
      is written by the old factor, in its turn it would be 60. */
  lemma ScaleChangeIsLost(ids: map<Name, Name>)
    requires C.ChannelIds(DEFS, ids)
    ensures
      var dev, tail, mid, job := Plant(ids), Put(1, SET_FIRST, 5.0), [Put(2, SET_SECOND, 10.0)], Put(3, SET_FIRST, 6.0);
      && Replaces(dev, tail, mid, job)
      && Accepted(dev, FACTOR_ONE, job) && Accepted(dev, Behind(dev, FACTOR_ONE, tail, mid), job)
      && NewerRuns(dev, FACTOR_ONE, mid, job) == map[ADDRESS_FIRST := 6, ADDRESS_SECOND := 10]
      && BothRun(dev, FACTOR_ONE, tail, mid, job) == map[ADDRESS_FIRST := 60, ADDRESS_SECOND := 10]
  {
    ScalePatches(ids);
    PutReplaces(ids, 5.0, 10.0, 6.0);
    ScaleSums(Plant(ids), Put(1, SET_FIRST, 5.0), Put(2, SET_SECOND, 10.0), Put(3, SET_FIRST, 6.0));
  }

  const FIVE: F.Memory := map[ADDRESS_FIRST := 5]
  const SIX: F.Memory := map[ADDRESS_FIRST := 6]
  const SIXTY: F.Memory := map[ADDRESS_FIRST := 60]
  const FACTOR_TEN: F.Memory := map[ADDRESS_SECOND := 10]

  lemma ScalePatches(ids: map<Name, Name>)
    ensures
      var dev, m := Plant(ids), FACTOR_ONE;
      && Patch(dev, m, Put(1, SET_FIRST, 5.0)) == FIVE
      && Patch(dev, m, Put(3, SET_FIRST, 6.0)) == SIX && Accepted(dev, m, Put(3, SET_FIRST, 6.0))
      && Patch(dev, m + FIVE + FACTOR_TEN, Put(3, SET_FIRST, 6.0)) == SIXTY
      && Accepted(dev, m + FIVE + FACTOR_TEN, Put(3, SET_FIRST, 6.0))
      && Patch(dev, m + FIVE, Put(2, SET_SECOND, 10.0)) == FACTOR_TEN
      && Patch(dev, m + SIX, Put(2, SET_SECOND, 10.0)) == FACTOR_TEN
  {
    var m := FACTOR_ONE;
    assert Look(m, ADDRESS_SECOND) == 1 && Look(m + FIVE + FACTOR_TEN, ADDRESS_SECOND) == 10;
    FirstIsScaled(ids, m, 1, 5.0);
    FirstIsScaled(ids, m, 3, 6.0);
    FirstIsScaled(ids, m + FIVE + FACTOR_TEN, 3, 6.0);
    SecondIsPlain(ids, m + FIVE, 2, 10.0);
    SecondIsPlain(ids, m + SIX, 2, 10.0);
  }

  lemma ScaleSums(dev: Device, tail: Job, behind: Job, job: Job)
    requires Patch(dev, FACTOR_ONE, tail) == FIVE && Patch(dev, FACTOR_ONE, job) == SIX
    requires Patch(dev, FACTOR_ONE + FIVE + FACTOR_TEN, job) == SIXTY
    requires Patch(dev, FACTOR_ONE + FIVE, behind) == FACTOR_TEN == Patch(dev, FACTOR_ONE + SIX, behind)
    ensures Behind(dev, FACTOR_ONE, tail, [behind]) == FACTOR_ONE + FIVE + FACTOR_TEN
    ensures NewerRuns(dev, FACTOR_ONE, [behind], job) == map[ADDRESS_FIRST := 6, ADDRESS_SECOND := 10]
    ensures BothRun(dev, FACTOR_ONE, tail, [behind], job) == map[ADDRESS_FIRST := 60, ADDRESS_SECOND := 10]
  {
    ThreeRuns(dev, FACTOR_ONE, tail, behind, job, FIVE, FACTOR_TEN, SIXTY, SIX, FACTOR_TEN);
    SixStays();
    SixtyStays();
  }

  lemma SixStays()
    ensures FACTOR_ONE + SIX + FACTOR_TEN == map[ADDRESS_FIRST := 6, ADDRESS_SECOND := 10]
  {
  }

  lemma SixtyStays()
    ensures FACTOR_ONE + FIVE + FACTOR_TEN + SIXTY == map[ADDRESS_FIRST := 60, ADDRESS_SECOND := 10]
  {
  }

  // ---- a job behind that reads the newer value ----

  lemma FactorReplaces(ids: map<Name, Name>)
    requires C.ChannelIds(DEFS, ids)
    ensures
      var dev, tail, mid, job := Plant(ids), Put(1, SET_SECOND, 1.0), [Put(2, SET_FIRST, 5.0)], Put(3, SET_SECOND, 10.0);
      Replaces(dev, tail, mid, job) && ReadsStay(dev, mid, job)
  {
    PlantIsValid(ids);
    IdsAreNames(ids);
    var dev, tail, behind, job := Plant(ids), Put(1, SET_SECOND, 1.0), Put(2, SET_FIRST, 5.0), Put(3, SET_SECOND, 10.0);
    var x, y := map[VALUE := Some(1.0)], map[VALUE := Some(10.0)];
    assert x - {VALUE} == map[] == y - {VALUE};
    ChannelsReplace(dev, tail, [behind], job);
    assert SET_FIRST.text != SET_SECOND.text;
    assert ReadCells(dev, job) == {};
  }

  const STILL_ONE: F.Memory := map[ADDRESS_SECOND := 1]
  const FIFTY: F.Memory := map[ADDRESS_FIRST := 50]

  /** The factor set to 1, a value to 5 behind it, then the factor to 10: in the
      place of the 1 the 10 scales the 5 that was meant to go out before it. Every
      run is accepted, and nothing it reads is written meanwhile. */
  lemma ReadBehindIsLost(ids: map<Name, Name>)
    requires C.ChannelIds(DEFS, ids)
    ensures
      var dev, tail, mid, job := Plant(ids), Put(1, SET_SECOND, 1.0), [Put(2, SET_FIRST, 5.0)], Put(3, SET_SECOND, 10.0);
      && Replaces(dev, tail, mid, job) && ReadsStay(dev, mid, job)
      && Accepted(dev, FACTOR_ONE, job) && Accepted(dev, Behind(dev, FACTOR_ONE, tail, mid), job)
      && NewerRuns(dev, FACTOR_ONE, mid, job) == map[ADDRESS_FIRST := 50, ADDRESS_SECOND := 10]
      && BothRun(dev, FACTOR_ONE, tail, mid, job) == map[ADDRESS_FIRST := 5, ADDRESS_SECOND := 10]
  {
    FactorReplaces(ids);
    ReadPatches(ids);
    SecondIsPlain(ids, Behind(Plant(ids), FACTOR_ONE, Put(1, SET_SECOND, 1.0), [Put(2, SET_FIRST, 5.0)]), 3, 10.0);
    ThreeRuns(Plant(ids), FACTOR_ONE, Put(1, SET_SECOND, 1.0), Put(2, SET_FIRST, 5.0), Put(3, SET_SECOND, 10.0),
              STILL_ONE, FIVE, FACTOR_TEN, FACTOR_TEN, FIFTY);
    FiftyStays();
    FiveOnes();
  }

  lemma ReadPatches(ids: map<Name, Name>)
    ensures
      var dev, m := Plant(ids), FACTOR_ONE;
      && Patch(dev, m, Put(1, SET_SECOND, 1.0)) == STILL_ONE
      && Patch(dev, m, Put(3, SET_SECOND, 10.0)) == FACTOR_TEN && Accepted(dev, m, Put(3, SET_SECOND, 10.0))
      && Patch(dev, m + STILL_ONE, Put(2, SET_FIRST, 5.0)) == FIVE
      && Patch(dev, m + FACTOR_TEN, Put(2, SET_FIRST, 5.0)) == FIFTY
      && Patch(dev, m + STILL_ONE + FIVE, Put(3, SET_SECOND, 10.0)) == FACTOR_TEN
  {
    var m := FACTOR_ONE;
    assert Look(m + STILL_ONE, ADDRESS_SECOND) == 1 && Look(m + FACTOR_TEN, ADDRESS_SECOND) == 10;
    SecondIsPlain(ids, m, 1, 1.0);
    SecondIsPlain(ids, m, 3, 10.0);
    SecondIsPlain(ids, m + STILL_ONE + FIVE, 3, 10.0);
    FirstIsScaled(ids, m + STILL_ONE, 2, 5.0);
    FirstIsScaled(ids, m + FACTOR_TEN, 2, 5.0);
  }

  lemma FiftyStays()
    ensures FACTOR_ONE + FACTOR_TEN + FIFTY == map[ADDRESS_FIRST := 50, ADDRESS_SECOND := 10]
  {
  }

  lemma FiveOnes()
    ensures FACTOR_ONE + STILL_ONE + FIVE + FACTOR_TEN == map[ADDRESS_FIRST := 5, ADDRESS_SECOND := 10]
  {
  }

  // ---- a newer value that is refused ----

  lemma TooMuchIsRefused(ids: map<Name, Name>, m: F.Memory, id: nat, value: real)
    requires value > 100.0
    ensures !Accepted(Plant(ids), m, Put(id, SET_FIRST, value))
    ensures Patch(Plant(ids), m, Put(id, SET_FIRST, value)) == map[]
  {
    assert SET_FIRST.text != SET_SECOND.text;
  }

  lemma TwoRuns(dev: Device, m: F.Memory, tail: Job, job: Job, t: F.Memory)
    requires Patch(dev, m, tail) == t && Patch(dev, m + t, job) == map[] && Patch(dev, m, job) == map[]
    ensures NewerRuns(dev, m, [], job) == m && BothRun(dev, m, tail, [], job) == m + t
  {
    QueuesArePatches(dev, m, tail, [], job);
    NoneBehind(dev, m, tail);
    NoneBehind(dev, m, job);
    NothingMore(m);
    NothingMore(m + t);
  }

  lemma NothingMore(m: F.Memory)
    ensures m + map[] == m
  {
  }

  lemma NoneBehind(dev: Device, m: F.Memory, tail: Job)
    ensures Behind(dev, m, tail, []) == m + Patch(dev, m, tail)
  {
    NothingMore(m + Patch(dev, m, tail));
  }

  /** Set to 5, then to 200, which is refused: the 5 is lost with it. */
  lemma RefusedValueIsLost(ids: map<Name, Name>)
    requires C.ChannelIds(DEFS, ids)
    ensures
      var dev, tail, job := Plant(ids), Put(1, SET_FIRST, 5.0), Put(3, SET_FIRST, 200.0);
      && Replaces(dev, tail, [], job) && Accepted(dev, FACTOR_ONE, tail) && !Accepted(dev, FACTOR_ONE, job)
      && NewerRuns(dev, FACTOR_ONE, [], job) == FACTOR_ONE
      && BothRun(dev, FACTOR_ONE, tail, [], job) == map[ADDRESS_FIRST := 5, ADDRESS_SECOND := 1]
  {
    var dev, tail, job := Plant(ids), Put(1, SET_FIRST, 5.0), Put(3, SET_FIRST, 200.0);
    PutReplaces(ids, 5.0, 0.0, 200.0);
    FiveIsWritten(ids);
    TooMuchIsRefused(ids, FACTOR_ONE, 3, 200.0);
    TooMuchIsRefused(ids, FACTOR_ONE + FIVE, 3, 200.0);
    TwoRuns(dev, FACTOR_ONE, tail, job, FIVE);
    FiveStays();
  }

  lemma FiveIsWritten(ids: map<Name, Name>)
    ensures Accepted(Plant(ids), FACTOR_ONE, Put(1, SET_FIRST, 5.0))
    ensures Patch(Plant(ids), FACTOR_ONE, Put(1, SET_FIRST, 5.0)) == FIVE
  {
    assert Look(FACTOR_ONE, ADDRESS_SECOND) == 1;
    FirstIsScaled(ids, FACTOR_ONE, 1, 5.0);
  }

  lemma FiveStays()
    ensures FACTOR_ONE + FIVE == map[ADDRESS_FIRST := 5, ADDRESS_SECOND := 1]
  {
  }

  // ---- registers that overlap ----

  /** The first register takes both cells, the second the last of them. */
  const WIDE_REGS := map[FIRST := F.Reg(FIRST, 0, F.Holding, 2), SECOND := F.Reg(SECOND, 1, F.Holding, 1)]

  function WideWords(w: F.Write, params: Args): Attempt<seq<int>> {
    if VALUE !in params || params[VALUE].None? then Refuses
    else if w.register == FIRST then Done([params[VALUE].value.Floor, params[VALUE].value.Floor])
    else Done([params[VALUE].value.Floor])
  }

  function Wide(known: Readings): F.Encoder {
    (w, params) => WideWords(w, params)
  }

  function WidePlant(ids: map<Name, Name>): Device {
    Device(WIDE_REGS, DEFS, ids, map[], Always, Wide)
  }

  lemma WideIsTwoCells(ids: map<Name, Name>, m: F.Memory, id: nat, value: real)
    ensures Accepted(WidePlant(ids), m, Put(id, SET_FIRST, value))
    ensures Patch(WidePlant(ids), m, Put(id, SET_FIRST, value)) ==
            map[ADDRESS_FIRST := value.Floor, ADDRESS_SECOND := value.Floor]
  {
    assert FIRST.text != SECOND.text && SET_FIRST.text != SET_SECOND.text;
    var v := value.Floor;
    OneItem(WidePlant(ids), m, Put(id, SET_FIRST, value), WIDE_REGS[FIRST], [v, v]);
    TwoWordsWritten(v);
  }

  lemma TwoWordsWritten(v: int)
    ensures F.WriteWords(map[], F.Holding, 0, [v, v]) == map[ADDRESS_FIRST := v, ADDRESS_SECOND := v]
  {
    assert [v, v][1..] == [v] && [v][1..] == [];
    var one := map[][ADDRESS_FIRST := v];
    assert F.WriteWords(one[ADDRESS_SECOND := v], F.Holding, 2, []) == one[ADDRESS_SECOND := v];
  }

  lemma NarrowIsOneCell(ids: map<Name, Name>, m: F.Memory, id: nat, value: real)
    ensures Accepted(WidePlant(ids), m, Put(id, SET_SECOND, value))
    ensures Patch(WidePlant(ids), m, Put(id, SET_SECOND, value)) == map[ADDRESS_SECOND := value.Floor]
  {
    assert FIRST.text != SECOND.text && SET_FIRST.text != SET_SECOND.text;
    OneItem(WidePlant(ids), m, Put(id, SET_SECOND, value), WIDE_REGS[SECOND], [value.Floor]);
    OneWordWritten(1, value.Floor);
  }

  /** Both cells set to 1, the last one to 7, then both to 2: in the place of the
      first the last cell ends at 7, in its turn it would end at 2. */
  lemma OverlapIsLost(ids: map<Name, Name>)
    requires C.ChannelIds(DEFS, ids)
    ensures
      var dev := WidePlant(ids);
      var tail, mid, job := Put(1, SET_FIRST, 1.0), [Put(2, SET_SECOND, 7.0)], Put(3, SET_FIRST, 2.0);
      && OnItsChannel(dev, tail) && OnItsChannel(dev, mid[0]) && OnItsChannel(dev, job)
      && mid[0].channel != job.channel && tail.SameIntent(job)
      && Accepted(dev, BLANK, job) && NotRead(dev, mid, job) && ReadsStay(dev, mid, job)
      && NewerRuns(dev, BLANK, mid, job) == map[ADDRESS_FIRST := 2, ADDRESS_SECOND := 7]
      && BothRun(dev, BLANK, tail, mid, job) == TWOS
  {
    IdsAreNames(ids);
    PutReplaces(ids, 1.0, 7.0, 2.0);
    WideIsTwoCells(ids, BLANK, 3, 2.0);
    assert ReadCells(WidePlant(ids), Put(3, SET_FIRST, 2.0)) == {};
    assert ReadCells(WidePlant(ids), Put(2, SET_SECOND, 7.0)) == {};
    OnesAreWritten(ids);
    TwosAreWritten(ids, BLANK);
    TwosAreWritten(ids, BLANK + ONES + SEVEN);
    SevenIsWritten(ids, BLANK + ONES);
    SevenIsWritten(ids, BLANK + TWOS);
    WideSums(WidePlant(ids), Put(1, SET_FIRST, 1.0), Put(2, SET_SECOND, 7.0), Put(3, SET_FIRST, 2.0));
  }

  const BLANK: F.Memory := map[]
  const ONES: F.Memory := map[ADDRESS_FIRST := 1, ADDRESS_SECOND := 1]
  const TWOS: F.Memory := map[ADDRESS_FIRST := 2, ADDRESS_SECOND := 2]
  const SEVEN: F.Memory := map[ADDRESS_SECOND := 7]

  lemma OnesAreWritten(ids: map<Name, Name>)
    ensures Patch(WidePlant(ids), BLANK, Put(1, SET_FIRST, 1.0)) == ONES
  {
    WideIsTwoCells(ids, BLANK, 1, 1.0);
  }

  lemma TwosAreWritten(ids: map<Name, Name>, m: F.Memory)
    ensures Patch(WidePlant(ids), m, Put(3, SET_FIRST, 2.0)) == TWOS
  {
    WideIsTwoCells(ids, m, 3, 2.0);
  }

  lemma SevenIsWritten(ids: map<Name, Name>, m: F.Memory)
    ensures Patch(WidePlant(ids), m, Put(2, SET_SECOND, 7.0)) == SEVEN
  {
    NarrowIsOneCell(ids, m, 2, 7.0);
  }

  lemma WideSums(dev: Device, tail: Job, behind: Job, job: Job)
    requires Patch(dev, BLANK, tail) == ONES && Patch(dev, BLANK, job) == TWOS
    requires Patch(dev, BLANK + ONES + SEVEN, job) == TWOS
    requires Patch(dev, BLANK + ONES, behind) == SEVEN == Patch(dev, BLANK + TWOS, behind)
    ensures NewerRuns(dev, BLANK, [behind], job) == map[ADDRESS_FIRST := 2, ADDRESS_SECOND := 7]
    ensures BothRun(dev, BLANK, tail, [behind], job) == TWOS
  {
    ThreeRuns(dev, BLANK, tail, behind, job, ONES, SEVEN, TWOS, TWOS, SEVEN);
    SevenStays();
    TwosStay();
  }

  lemma SevenStays()
    ensures BLANK + TWOS + SEVEN == map[ADDRESS_FIRST := 2, ADDRESS_SECOND := 7]
  {
  }

  lemma TwosStay()
    ensures BLANK + ONES + SEVEN + TWOS == TWOS
  {
  }
}
