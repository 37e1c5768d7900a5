/** From a command's declared writes to the frames that go out, and what they
    leave in the device's registers and coils. */
module Frames {
  import opened Prelude
  import opened Expressions

  datatype RegType = Holding | Coil | ReadOnly

  /** A register of the template: where it is and how many words it takes. */
  datatype Reg = Reg(name: Name, address: int, kind: RegType, count: nat)

  datatype Write = Write(register: Name, value: Expr)

  /** The words one declared write sends with some parameters; it refuses a value
      outside the register's envelope or one that does not encode. */
  type Encoder = (Write, Args) -> Attempt<seq<int>>

  datatype Item = Item(register: Name, address: int, kind: RegType, words: seq<int>)
  datatype Frame = Frame(address: int, kind: RegType, words: seq<int>, registers: seq<Name>)

  ghost predicate Encodes(enc: Encoder, regs: map<Name, Reg>) {
    forall w: Write, p :: w.register in regs && enc(w, p).Done? ==> |enc(w, p).value| == regs[w.register].count
  }

  /** The items of a run in declaration order; the first write that does not
      encode decides what becomes of them all. */
  function Items(writes: seq<Write>, params: Args, regs: map<Name, Reg>, enc: Encoder): Attempt<seq<Item>> {
    if writes == [] then Done([])
    else
      var w := writes[|writes| - 1];
      var front := Items(writes[..|writes| - 1], params, regs, enc);
      if !front.Done? then front
      else if w.register !in regs || regs[w.register].kind == ReadOnly then Refuses
      else
        match enc(w, params)
        case Refuses => Refuses
        case Breaks => Breaks
        case Done(words) =>
          var reg := regs[w.register];
          Done(front.value + [Item(reg.name, reg.address, reg.kind, words)])
  }

  /** Does `it` go on where the frame ends? */
  predicate Joins(f: Frame, it: Item) {
    f.kind == Holding && it.kind == Holding && f.address + |f.words| == it.address
  }

  function AddItem(frames: seq<Frame>, it: Item): seq<Frame> {
    var n := |frames| - 1;
    if n >= 0 && Joins(frames[n], it) then
      frames[..n] + [frames[n].(words := frames[n].words + it.words, registers := frames[n].registers + [it.register])]
    else frames + [Frame(it.address, it.kind, it.words, [it.register])]
  }

  function Merged(items: seq<Item>): seq<Frame> {
    if items == [] then [] else AddItem(Merged(items[..|items| - 1]), items[|items| - 1])
  }

  /** The first loop: every write is checked and encoded. */
  method EncodeItems(writes: seq<Write>, params: Args, regs: map<Name, Reg>, enc: Encoder)
    returns (items: Attempt<seq<Item>>)
    ensures items == Items(writes, params, regs, enc)
  {
    var out: seq<Item> := [];
    var i := 0;
    while i < |writes|
      invariant 0 <= i <= |writes|
      invariant Items(writes[..i], params, regs, enc) == Done(out)
    {
      var w := writes[i];
      assert writes[..i + 1][..i] == writes[..i];
      if w.register !in regs || regs[w.register].kind == ReadOnly || enc(w, params).Refuses? {
        FailureStays(writes, i + 1, params, regs, enc);
        return Refuses;
      }
      if enc(w, params).Breaks? {
        FailureStays(writes, i + 1, params, regs, enc);
        return Breaks;
      }
      var reg := regs[w.register];
      out := out + [Item(reg.name, reg.address, reg.kind, enc(w, params).value)];
      i := i + 1;
    }
    assert writes[..i] == writes;
    items := Done(out);
  }

  /** The second loop: neighbours share a frame. */
  method MergeItems(items: seq<Item>) returns (frames: seq<Frame>)
    ensures frames == Merged(items)
  {
    frames := [];
    for k := 0 to |items|
      invariant frames == Merged(items[..k])
    {
      assert items[..k + 1][..k] == items[..k];
      var n := |frames| - 1;
      if n >= 0 && Joins(frames[n], items[k]) {
        var last := frames[n];
        frames := frames[..n] + [last.(words := last.words + items[k].words, registers := last.registers + [items[k].register])];
      } else {
        frames := frames + [Frame(items[k].address, items[k].kind, items[k].words, [items[k].register])];
      }
    }
    assert items[..|items|] == items;
  }

  method PlanFrames(writes: seq<Write>, params: Args, regs: map<Name, Reg>, enc: Encoder)
    returns (frames: Attempt<seq<Frame>>)
    ensures var items := Items(writes, params, regs, enc);
            frames == match items
                      case Done(list) => Done(Merged(list))
                      case Refuses => Refuses
                      case Breaks => Breaks
  {
    var items := EncodeItems(writes, params, regs, enc);
    match items
    case Refuses => return Refuses;
    case Breaks => return Breaks;
    case Done(list) =>
      var fs := MergeItems(list);
      return Done(fs);
  }

  lemma {:induction false} FailureStays(writes: seq<Write>, i: nat, params: Args, regs: map<Name, Reg>, enc: Encoder)
    requires i <= |writes| && !Items(writes[..i], params, regs, enc).Done?
    ensures Items(writes, params, regs, enc) == Items(writes[..i], params, regs, enc)
    decreases |writes| - i
  {
    if i < |writes| {
      assert writes[..i + 1][..i] == writes[..i];
      FailureStays(writes, i + 1, params, regs, enc);
    } else {
      assert writes[..i] == writes;
    }
  }

  /** A declared write sends nothing: its register is not there, can only be read, or
      does not take the value. */
  predicate SendsNothing(w: Write, params: Args, regs: map<Name, Reg>, enc: Encoder) {
    w.register !in regs || regs[w.register].kind == ReadOnly || !enc(w, params).Done?
  }

  /** Every write is encoded in its turn when each can be. */
  lemma {:induction false} ItemsAre(writes: seq<Write>, params: Args, regs: map<Name, Reg>, enc: Encoder)
    requires forall i :: 0 <= i < |writes| ==> !SendsNothing(writes[i], params, regs, enc)
    ensures
      var items := Items(writes, params, regs, enc);
      && items.Done? && |items.value| == |writes|
      && forall i :: 0 <= i < |writes| ==>
           && writes[i].register in regs && enc(writes[i], params).Done?
           && var reg := regs[writes[i].register];
              items.value[i] == Item(reg.name, reg.address, reg.kind, enc(writes[i], params).value)
  {
    if writes != [] {
      ItemsAre(writes[..|writes| - 1], params, regs, enc);
    }
  }

  /** The first write that sends nothing decides: the run is refused, or breaks off
      where working out its value did. */
  lemma FirstToFailDecides(writes: seq<Write>, params: Args, regs: map<Name, Reg>, enc: Encoder, k: nat)
    requires k < |writes| && SendsNothing(writes[k], params, regs, enc)
    requires forall i :: 0 <= i < k ==> !SendsNothing(writes[i], params, regs, enc)
    ensures Items(writes, params, regs, enc) ==
            if writes[k].register in regs && regs[writes[k].register].kind != ReadOnly && enc(writes[k], params) == Breaks
            then Breaks else Refuses
  {
    assert writes[..k + 1][..k] == writes[..k];
    ItemsAre(writes[..k], params, regs, enc);
    FailureStays(writes, k + 1, params, regs, enc);
  }

  // ---- what writing does to the device ----

  /** One register or coil. */
  datatype Cell = Cell(kind: RegType, address: int)

  /** The device's registers and coils; a coil holds 0 or 1. */
  type Memory = map<Cell, int>

  function Stored(kind: RegType, word: int): int {
    if kind == Coil then (if word == 0 then 0 else 1) else word
  }

  function WriteWords(m: Memory, kind: RegType, address: int, words: seq<int>): Memory
    decreases |words|
  {
    if words == [] then m
    else WriteWords(m[Cell(kind, address) := Stored(kind, words[0])], kind, address + 1, words[1..])
  }

  /** The words land one after the other from the address on; a coil is on for any word
      but zero. Everything else stays. */
  lemma {:induction false} WordsLand(m: Memory, kind: RegType, address: int, words: seq<int>, c: Cell)
    ensures
      var m' := WriteWords(m, kind, address, words);
      if c.kind == kind && address <= c.address < address + |words|
      then c in m' && m'[c] == (if kind != Coil then words[c.address - address] else if words[c.address - address] == 0 then 0 else 1)
      else (c in m' <==> c in m) && (c in m ==> m'[c] == m[c])
    decreases |words|
  {
    if words != [] {
      WordsLand(m[Cell(kind, address) := Stored(kind, words[0])], kind, address + 1, words[1..], c);
    }
  }

  function WriteItems(m: Memory, items: seq<Item>): Memory {
    if items == [] then m
    else
      var it := items[|items| - 1];
      WriteWords(WriteItems(m, items[..|items| - 1]), it.kind, it.address, it.words)
  }

  function WriteFrames(m: Memory, frames: seq<Frame>): Memory {
    if frames == [] then m
    else
      var f := frames[|frames| - 1];
      WriteWords(WriteFrames(m, frames[..|frames| - 1]), f.kind, f.address, f.words)
  }

  lemma {:induction false} WriteTogether(m: Memory, kind: RegType, address: int, a: seq<int>, b: seq<int>)
    ensures WriteWords(m, kind, address, a + b) == WriteWords(WriteWords(m, kind, address, a), kind, address + |a|, b)
    decreases |a|
  {
    if a == [] {
      assert a + b == b;
    } else {
      WriteTogether(m[Cell(kind, address) := Stored(kind, a[0])], kind, address + 1, a[1..], b);
      assert (a + b)[1..] == a[1..] + b;
    }
  }

  /** Merging is only for the wire: the frames leave what the items one by one would. */
  lemma {:induction false} MergingKeepsTheMeaning(m: Memory, items: seq<Item>)
    ensures WriteFrames(m, Merged(items)) == WriteItems(m, items)
  {
    if items != [] {
      MergingKeepsTheMeaning(m, items[..|items| - 1]);
      AddItemWrites(m, Merged(items[..|items| - 1]), items[|items| - 1]);
    }
  }

  lemma AddItemWrites(m: Memory, fs: seq<Frame>, it: Item)
    ensures WriteFrames(m, AddItem(fs, it)) == WriteWords(WriteFrames(m, fs), it.kind, it.address, it.words)
  {
    var n := |fs| - 1;
    var added := AddItem(fs, it);
    if n >= 0 && Joins(fs[n], it) {
      assert added[..n] == fs[..n];
      WriteTogether(WriteFrames(m, fs[..n]), Holding, fs[n].address, fs[n].words, it.words);
    } else {
      assert added[..n + 1] == fs;
    }
  }

  /** Only holding registers share a frame: any other frame is one item by itself. */
  ghost predicate OneItem(f: Frame, items: seq<Item>) {
    exists i :: 0 <= i < |items| && f == Frame(items[i].address, items[i].kind, items[i].words, [items[i].register])
  }

  lemma {:induction false} OthersGoAlone(items: seq<Item>)
    ensures forall f :: f in Merged(items) && f.kind != Holding ==> OneItem(f, items)
  {
    if items != [] {
      var n := |items| - 1;
      OthersGoAlone(items[..n]);
      forall f | f in Merged(items) && f.kind != Holding ensures OneItem(f, items) {
        if f in Merged(items[..n]) {
          var i :| 0 <= i < n && f == Frame(items[..n][i].address, items[..n][i].kind, items[..n][i].words, [items[..n][i].register]);
          assert items[..n][i] == items[i];
        }
      }
    }
  }

  // ---- the frames give the items back ----

  function FrameRegisters(frames: seq<Frame>): seq<Name> {
    if frames == [] then [] else FrameRegisters(frames[..|frames| - 1]) + frames[|frames| - 1].registers
  }

  function ItemRegisters(items: seq<Item>): seq<Name> {
    seq(|items|, i requires 0 <= i < |items| => items[i].register)
  }

  function FrameWords(frames: seq<Frame>): seq<(RegType, int)> {
    if frames == [] then []
    else FrameWords(frames[..|frames| - 1]) + Tagged(frames[|frames| - 1].kind, frames[|frames| - 1].words)
  }

  function ItemWords(items: seq<Item>): seq<(RegType, int)> {
    if items == [] then []
    else ItemWords(items[..|items| - 1]) + Tagged(items[|items| - 1].kind, items[|items| - 1].words)
  }

  function Tagged(kind: RegType, words: seq<int>): seq<(RegType, int)> {
    seq(|words|, i requires 0 <= i < |words| => (kind, words[i]))
  }

  ghost predicate NoneToMerge(fs: seq<Frame>) {
    forall i :: 0 <= i < |fs| - 1 ==>
      !(fs[i].kind == Holding && fs[i + 1].kind == Holding && fs[i].address + |fs[i].words| == fs[i + 1].address)
  }

  /** Nothing is lost, added or put out of order; and nothing more could be merged. */
  lemma {:induction false} FramesGiveTheItemsBack(items: seq<Item>)
    ensures FrameRegisters(Merged(items)) == ItemRegisters(items)
    ensures FrameWords(Merged(items)) == ItemWords(items)
    ensures NoneToMerge(Merged(items))
  {
    if items != [] {
      var front, it := items[..|items| - 1], items[|items| - 1];
      FramesGiveTheItemsBack(front);
      LastRegister(items);
      AddItemRegisters(Merged(front), it);
      AddItemWords(Merged(front), it);
      AddItemUnmerged(Merged(front), it);
    }
  }

  lemma LastRegister(items: seq<Item>)
    requires items != []
    ensures ItemRegisters(items) == ItemRegisters(items[..|items| - 1]) + [items[|items| - 1].register]
  {
  }

  lemma AddItemUnmerged(fs: seq<Frame>, it: Item)
    requires NoneToMerge(fs)
    ensures NoneToMerge(AddItem(fs, it))
  {
  }

  lemma AddItemRegisters(fs: seq<Frame>, it: Item)
    ensures FrameRegisters(AddItem(fs, it)) == FrameRegisters(fs) + [it.register]
  {
    var n := |fs| - 1;
    var added := AddItem(fs, it);
    if n >= 0 && Joins(fs[n], it) {
      assert added[..n] == fs[..n];
      var r, s := FrameRegisters(fs[..n]), fs[n].registers;
      assert r + (s + [it.register]) == (r + s) + [it.register];
    } else {
      assert added[..n + 1] == fs;
    }
  }

  lemma AddItemWords(fs: seq<Frame>, it: Item)
    ensures FrameWords(AddItem(fs, it)) == FrameWords(fs) + Tagged(it.kind, it.words)
  {
    var n := |fs| - 1;
    var added := AddItem(fs, it);
    if n >= 0 && Joins(fs[n], it) {
      assert added[..n] == fs[..n];
      assert Tagged(fs[n].kind, fs[n].words + it.words) == Tagged(fs[n].kind, fs[n].words) + Tagged(it.kind, it.words);
      var a, b, c := FrameWords(fs[..n]), Tagged(fs[n].kind, fs[n].words), Tagged(it.kind, it.words);
      assert a + (b + c) == (a + b) + c;
    } else {
      assert added[..n + 1] == fs;
    }
  }
}
