/**
  What loads and stores do, instruction by instruction, on bytes of memory and
  register values (src/BuiltinInterpreter.cpp).
 */
module Accesses {
  import opened Words
  import opened MemoryModel
  import opened CpuModel
  import opened Interpreter
  import opened BlockMoves

  // ----- numbers in memory -----

  /** The number bytes spell, most significant byte first. */
  function BigEndian(b: seq<u8>): nat {
    if |b| == 0 then 0 else 0x100 * BigEndian(b[..|b| - 1]) + b[|b| - 1]
  }

  /** The number bytes spell, least significant byte first. */
  function LittleEndian(b: seq<u8>): nat {
    if |b| == 0 then 0 else b[0] + 0x100 * LittleEndian(b[1..])
  }

  lemma BigEndian1(b: seq<u8>)
    requires |b| == 1
    ensures BigEndian(b) == b[0]
  {
    assert BigEndian(b[..0]) == 0;
  }

  lemma BigEndian2(b: seq<u8>)
    requires |b| == 2
    ensures BigEndian(b) == Half(b)
  {
    BigEndian1(b[..1]);
  }

  lemma BigEndian4(b: seq<u8>)
    requires |b| == 4
    ensures BigEndian(b) == Word(b)
  {
    BigEndian2(b[..2]);
    assert b[..3][..2] == b[..2];
    assert BigEndian(b[..3]) == 0x100 * BigEndian(b[..2]) + b[2];
  }

  lemma BigEndian8(b: seq<u8>)
    requires |b| == 8
    ensures BigEndian(b) == Double(b)
  {
    BigEndian4(b[..4]);
    BigEndian4(b[4..]);
    assert b[..5][..4] == b[..4] && b[..6][..5] == b[..5] && b[..7][..6] == b[..6];
    assert BigEndian(b[..5]) == 0x100 * BigEndian(b[..4]) + b[4];
    assert BigEndian(b[..6]) == 0x100 * BigEndian(b[..5]) + b[5];
    assert BigEndian(b[..7]) == 0x100 * BigEndian(b[..6]) + b[6];
  }

  lemma LittleEndian2(b: seq<u8>)
    requires |b| == 2
    ensures LittleEndian(b) == Half([b[1], b[0]])
  {
    assert LittleEndian(b[1..][1..]) == 0;
    assert LittleEndian(b[1..]) == b[1];
  }

  lemma LittleEndian4(b: seq<u8>)
    requires |b| == 4
    ensures LittleEndian(b) == Word([b[3], b[2], b[1], b[0]])
  {
    assert b[1..][1..] == b[2..] && b[2..][1..] == b[3..];
    assert LittleEndian(b[3..][1..]) == 0;
    assert LittleEndian(b[3..]) == b[3];
    assert LittleEndian(b[2..]) == b[2] + 0x100 * LittleEndian(b[3..]);
    assert LittleEndian(b[1..]) == b[1] + 0x100 * LittleEndian(b[2..]);
  }

  lemma HalfBytesOf(b: seq<u8>)
    requires |b| == 2
    ensures HalfBytes(Half(b)) == b
  {
    assert Half(b) % 0x100 == b[1] && Half(b) / 0x100 == b[0];
  }

  lemma WordBytesOf(b: seq<u8>)
    requires |b| == 4
    ensures WordBytes(Word(b)) == b
  {
    var v := Word(b);
    var high3, high2 := v / 0x100, v / 0x100 / 0x100;
    assert high3 == b[0] as int * 0x1_0000 + b[1] as int * 0x100 + b[2] && v % 0x100 == b[3];
    assert high2 == b[0] as int * 0x100 + b[1] && high3 % 0x100 == b[2];
  }

  /** Swapping the bytes of a number reverses the bytes that spell it. */
  lemma SwappedBytes(v: u32, h: u16)
    ensures var b := WordBytes(v); WordBytes(ByteSwap32(v)) == [b[3], b[2], b[1], b[0]]
    ensures var b := HalfBytes(h); HalfBytes(ByteSwap16(h)) == [b[1], b[0]]
  {
    var w, n := WordBytes(v), HalfBytes(h);
    hide WordBytes, HalfBytes, Word, Half;
    WordBytesOf([w[3], w[2], w[1], w[0]]);
    HalfBytesOf([n[1], n[0]]);
  }

  lemma SwappedNumbers(b: seq<u8>)
    ensures |b| == 2 ==> ByteSwap16(Half(b)) == LittleEndian(b)
    ensures |b| == 4 ==> ByteSwap32(Word(b)) == LittleEndian(b)
  {
    hide WordBytes, HalfBytes, Word, Half, LittleEndian;
    if |b| == 2 {
      HalfBytesOf(b);
      LittleEndian2(b);
    } else if |b| == 4 {
      WordBytesOf(b);
      LittleEndian4(b);
    }
  }

  // ----- addresses and opcodes -----

  /** The three register numbers of an instruction. */
  function FieldT(insn: u32): Reg { insn / 0x20_0000 % 32 }
  function FieldA(insn: u32): Reg { insn / 0x1_0000 % 32 }
  function FieldB(insn: u32): Reg { insn / 0x800 % 32 }

  /** (rA|0) + d or (rA|0) + rB, modulo 2^32. */
  function Effective(c: CpuState, insn: u32): u32 {
    var base: int := if FieldA(insn) == 0 then 0 else c.gpr[FieldA(insn)];
    var low := insn % 0x1_0000;
    var d: int := if insn / 0x400_0000 == 31 then c.gpr[FieldB(insn)] else if low < 0x8000 then low else low - 0x1_0000;
    (base + d) % 0x1_0000_0000
  }

  /** One of the two opcodes, or opcode 31 with one of the two extended opcodes; the second of each updates rA. */
  predicate IsForm(insn: u32, d: nat, du: nat, x: nat, xu: nat, update: bool) {
    var op, xo := insn / 0x400_0000, insn / 2 % 1024;
    if update then op == du || (op == 31 && xo == xu) else op == d || (op == 31 && xo == x)
  }

  predicate IsX(insn: u32, xo: nat) { insn / 0x400_0000 == 31 && insn / 2 % 1024 == xo }

  /** lbz, lhz and lwz in their four forms. */
  predicate LoadsZeroExtended(insn: u32, width: nat, update: bool) {
    || (width == 1 && IsForm(insn, 34, 35, 87, 119, update))
    || (width == 2 && IsForm(insn, 40, 41, 279, 331, update))
    || (width == 4 && IsForm(insn, 32, 33, 23, 55, update))
  }

  /** stb, sth and stw in their four forms. */
  predicate Stores(insn: u32, width: nat, update: bool) {
    || (width == 1 && IsForm(insn, 38, 39, 215, 247, update))
    || (width == 2 && IsForm(insn, 44, 45, 407, 439, update))
    || (width == 4 && IsForm(insn, 36, 37, 151, 183, update))
  }

  /** lhbrx and lwbrx. */
  predicate LoadsReversed(insn: u32, width: nat) {
    (width == 2 && IsX(insn, 790)) || (width == 4 && IsX(insn, 534))
  }

  /** sthbrx and stwbrx. */
  predicate StoresReversed(insn: u32, width: nat) {
    (width == 2 && IsX(insn, 918)) || (width == 4 && IsX(insn, 662))
  }

  // ----- what they do -----

  /** rA takes the address in the update forms. */
  function WithAddress(c: CpuState, insn: u32, update: bool, ea: u32): CpuState {
    if update then c.(gpr := c.gpr[FieldA(insn) := ea]) else c
  }

  function Fault(c: CpuState, mem: Regions, pc: u32, insn: u32): StepResult {
    Stopped(c, mem, MemoryFault, 0, pc, insn)
  }

  /** The bytes at the address reach rT as the number value makes of them, and nothing else changes; or a fault. */
  ghost predicate LoadsAs(r: StepResult, c: CpuState, mem: Regions, pc: u32, insn: u32, width: nat, update: bool,
      value: seq<u8> -> u32)
  {
    var ea := Effective(c, insn);
    if Readable(mem, ea, width) then
      var b := Peek(mem, ea, width);
      b.Some? && r == Running(WithAddress(c.(gpr := c.gpr[FieldT(insn) := value(b.value)]), insn, update, ea), mem)
    else r == Fault(c, mem, pc, insn)
  }

  function Unsigned(): seq<u8> -> u32 { (b: seq<u8>) => BigEndian(b) % 0x1_0000_0000 }

  /** A halfword as a signed number, modulo 2^32. */
  function SignedHalf(): seq<u8> -> u32 {
    (b: seq<u8>) => if BigEndian(b) < 0x8000 then BigEndian(b) else (BigEndian(b) + 0xFFFF_0000) % 0x1_0000_0000
  }

  function Reversed(): seq<u8> -> u32 { (b: seq<u8>) => LittleEndian(b) % 0x1_0000_0000 }

  function Modulus(width: nat): nat {
    if width == 1 then 0x100 else if width == 2 then 0x1_0000 else if width == 4 then 0x1_0000_0000
        else 0x1_0000_0000_0000_0000
  }

  function Spelled(b: seq<u8>, reversed: bool): nat { if reversed then LittleEndian(b) else BigEndian(b) }

  /** The bytes at the address now spell the number, no other address changed, and rA has the address; or a fault. */
  ghost predicate StoresAs(r: StepResult, c: CpuState, mem: Regions, pc: u32, insn: u32, width: nat, update: bool,
      n: nat, reversed: bool)
  {
    var ea := Effective(c, insn);
    if Writable(mem, ea, width) then
      && r.Running? && r.c == WithAddress(c, insn, update, ea)
      && Valid(r.mem) && OnlyBlockChanged(mem, r.mem, ea, width)
      && var b := Peek(r.mem, ea, width);
         b.Some? && |b.value| == width && Spelled(b.value, reversed) == n
    else r == Fault(c, mem, pc, insn)
  }

  lemma FieldsAgree(c: CpuState, insn: u32)
    ensures FieldT(insn) == Rt(insn) && FieldA(insn) == Ra(insn) && FieldB(insn) == Rb(insn)
    ensures Effective(c, insn) == AccessAddress(c, insn)
  {
  }

  lemma AccessExecutes(cfg: Config, c: CpuState, mem: Regions, pc: u32, insn: u32, a: Access)
    requires AccessOf(insn) == Some(a)
    ensures Execute(cfg, c, mem, pc, insn) == AccessOp(cfg, c, mem, pc, insn, a)
  {
    hide AccessOp, MultipleOp, ReservedOp, RegisterOp, BranchRegister, BranchDirect;
  }

  lemma ReadsPeek(mem: Regions, ea: int, width: nat)
    ensures ReadBytes(mem, ea, width).Some? <==> Readable(mem, ea, width)
    ensures Readable(mem, ea, width) ==> Peek(mem, ea, width).Some? && ReadBytes(mem, ea, width) == Peek(mem, ea, width)
    ensures Peek(mem, ea, width).Some? ==> |Peek(mem, ea, width).value| == width
  {
  }

  /** A load of any kind, from what the kind makes of the bytes. */
  lemma LoadIs(cfg: Config, c: CpuState, mem: Regions, pc: u32, insn: u32, k: LoadKind, update: bool,
      value: seq<u8> -> u32)
    requires AccessOf(insn) == Some(Load(k, update)) && k != Lfs && k != Lfd
    requires forall b: seq<u8> {:trigger value(b)} ::
               |b| == LoadSize(k) ==> Loaded(cfg, c, k, Rt(insn), b) == PutGpr(c, Rt(insn), value(b))
    ensures LoadsAs(Execute(cfg, c, mem, pc, insn), c, mem, pc, insn, LoadSize(k), update, value)
  {
    hide Execute, AccessOf, Loaded, Effective, FieldT, FieldA, Rt, Ra, AccessAddress, ReadBytes, Readable, Peek;
    AccessExecutes(cfg, c, mem, pc, insn, Load(k, update));
    FieldsAgree(c, insn);
    var ea := AccessAddress(c, insn);
    ReadsPeek(mem, ea, LoadSize(k));
    var b := ReadBytes(mem, ea, LoadSize(k));
    if b.Some? { assert Loaded(cfg, c, k, Rt(insn), b.value) == PutGpr(c, Rt(insn), value(b.value)); }
  }

  lemma DecodesLoad(insn: u32, width: nat, update: bool)
    requires LoadsZeroExtended(insn, width, update)
    ensures AccessOf(insn) == Some(Load(if width == 1 then Lbz else if width == 2 then Lhz else Lwz, update))
  {
  }

  lemma ValueOfByte(cfg: Config, c: CpuState, rt: Reg, b: seq<u8>)
    requires |b| == 1
    ensures Loaded(cfg, c, Lbz, rt, b) == PutGpr(c, rt, Unsigned()(b))
  {
    BigEndian1(b);
  }

  lemma ValueOfHalf(cfg: Config, c: CpuState, rt: Reg, b: seq<u8>)
    requires |b| == 2
    ensures Loaded(cfg, c, Lhz, rt, b) == PutGpr(c, rt, Unsigned()(b))
    ensures Loaded(cfg, c, Lha, rt, b) == PutGpr(c, rt, SignedHalf()(b))
    ensures Loaded(cfg, c, Lhbrx, rt, b) == PutGpr(c, rt, Reversed()(b))
  {
    hide ByteSwap16, BigEndian, LittleEndian, Half;
    BigEndian2(b);
    SwappedNumbers(b);
  }

  lemma ValueOfWord(cfg: Config, c: CpuState, rt: Reg, b: seq<u8>)
    requires |b| == 4
    ensures Loaded(cfg, c, Lwz, rt, b) == PutGpr(c, rt, Unsigned()(b))
    ensures Loaded(cfg, c, Lwbrx, rt, b) == PutGpr(c, rt, Reversed()(b))
  {
    hide ByteSwap32, BigEndian, LittleEndian, Word;
    BigEndian4(b);
    SwappedNumbers(b);
  }

  /** lbz, lhz and lwz in all forms: the big-endian number of that width, with zeros above. */
  lemma ZeroExtendedLoad(cfg: Config, c: CpuState, mem: Regions, pc: u32, insn: u32, width: nat, update: bool)
    requires LoadsZeroExtended(insn, width, update)
    ensures LoadsAs(Execute(cfg, c, mem, pc, insn), c, mem, pc, insn, width, update, Unsigned())
  {
    hide Execute, LoadsAs, Loaded, AccessOf, LoadsZeroExtended;
    DecodesLoad(insn, width, update);
    var k := if width == 1 then Lbz else if width == 2 then Lhz else Lwz;
    assert width == LoadSize(k) by { WidthIs(insn, width, update); }
    forall b: seq<u8> | |b| == width ensures Loaded(cfg, c, k, Rt(insn), b) == PutGpr(c, Rt(insn), Unsigned()(b)) {
      if width == 1 {
        ValueOfByte(cfg, c, Rt(insn), b);
      } else if width == 2 {
        ValueOfHalf(cfg, c, Rt(insn), b);
      } else {
        ValueOfWord(cfg, c, Rt(insn), b);
      }
    }
    LoadIs(cfg, c, mem, pc, insn, k, update, Unsigned());
  }

  lemma WidthIs(insn: u32, width: nat, update: bool)
    requires LoadsZeroExtended(insn, width, update) || Stores(insn, width, update)
    ensures width == 1 || width == 2 || width == 4
  {
  }

  /** lha in all forms: the halfword as a signed number. */
  lemma SignExtendedLoad(cfg: Config, c: CpuState, mem: Regions, pc: u32, insn: u32, update: bool)
    requires IsForm(insn, 42, 43, 343, 375, update)
    ensures LoadsAs(Execute(cfg, c, mem, pc, insn), c, mem, pc, insn, 2, update, SignedHalf())
  {
    assert AccessOf(insn) == Some(Load(Lha, update));
    hide Execute, LoadsAs, Loaded, AccessOf;
    forall b: seq<u8> | |b| == 2 ensures Loaded(cfg, c, Lha, Rt(insn), b) == PutGpr(c, Rt(insn), SignedHalf()(b)) {
      ValueOfHalf(cfg, c, Rt(insn), b);
    }
    LoadIs(cfg, c, mem, pc, insn, Lha, update, SignedHalf());
  }

  /** lhbrx and lwbrx: the little-endian number. */
  lemma ReversedLoad(cfg: Config, c: CpuState, mem: Regions, pc: u32, insn: u32, width: nat)
    requires LoadsReversed(insn, width)
    ensures LoadsAs(Execute(cfg, c, mem, pc, insn), c, mem, pc, insn, width, false, Reversed())
  {
    var k := if width == 2 then Lhbrx else Lwbrx;
    assert AccessOf(insn) == Some(Load(k, false)) && width == LoadSize(k);
    hide Execute, LoadsAs, Loaded, AccessOf, LoadsReversed;
    forall b: seq<u8> | |b| == width ensures Loaded(cfg, c, k, Rt(insn), b) == PutGpr(c, Rt(insn), Reversed()(b)) {
      if width == 2 { ValueOfHalf(cfg, c, Rt(insn), b); } else { ValueOfWord(cfg, c, Rt(insn), b); }
    }
    LoadIs(cfg, c, mem, pc, insn, k, false, Reversed());
  }

  /** lfs and lfd in all forms: the floating-point register takes the bit pattern, widened by the host for lfs. */
  lemma FloatLoad(cfg: Config, c: CpuState, mem: Regions, pc: u32, insn: u32, single: bool, update: bool)
    requires if single then IsForm(insn, 48, 49, 535, 567, update) else IsForm(insn, 50, 51, 599, 631, update)
    ensures var r, ea, width := Execute(cfg, c, mem, pc, insn), Effective(c, insn), if single then 4 else 8;
            if Readable(mem, ea, width) then
              var b := Peek(mem, ea, width);
              && b.Some? && BigEndian(b.value) < (if single then 0x1_0000_0000 else 0x1_0000_0000_0000_0000)
              && var bits: u64 := if single then cfg.host.widen(BigEndian(b.value)) else BigEndian(b.value);
                 r == Running(WithAddress(c.(fpr := c.fpr[FieldT(insn) := bits]), insn, update, ea), mem)
            else r == Fault(c, mem, pc, insn)
  {
    var k := if single then Lfs else Lfd;
    assert AccessOf(insn) == Some(Load(k, update));
    hide Execute, AccessOf, Effective, FieldT, FieldA, Rt, Ra, AccessAddress, ReadBytes, Readable, Peek, Word;
    hide Double, BigEndian;
    AccessExecutes(cfg, c, mem, pc, insn, Load(k, update));
    FieldsAgree(c, insn);
    var ea := AccessAddress(c, insn);
    ReadsPeek(mem, ea, LoadSize(k));
    var b := ReadBytes(mem, ea, LoadSize(k));
    if b.Some? {
      if single { BigEndian4(b.value); } else { BigEndian8(b.value); }
    }
  }

  // ----- stores -----

  lemma StoreIs(cfg: Config, c: CpuState, mem: Regions, pc: u32, insn: u32, k: StoreKind, update: bool, width: nat,
      n: nat, reversed: bool)
    requires Valid(mem) && AccessOf(insn) == Some(Store(k, update))
    requires var data := StoreData(cfg, c, k, Rt(insn)); |data| == width && Spelled(data, reversed) == n
    ensures StoresAs(Execute(cfg, c, mem, pc, insn), c, mem, pc, insn, width, update, n, reversed)
  {
    hide Execute, AccessOf, StoreData, Effective, FieldT, FieldA, Rt, Ra, AccessAddress, Writable, Peek, Poke, Spelled;
    hide OnlyBlockChanged, Valid;
    AccessExecutes(cfg, c, mem, pc, insn, Store(k, update));
    FieldsAgree(c, insn);
    var ea, data := AccessAddress(c, insn), StoreData(cfg, c, k, Rt(insn));
    WritesPoke(mem, ea, data);
    if Writable(mem, ea, width) {
      WrittenBlock(mem, ea, data);
      ReadAfterWrite(mem, ea, data);
    }
  }

  lemma WritesPoke(mem: Regions, ea: int, data: seq<u8>)
    ensures WriteBytes(mem, ea, data).Some? <==> Writable(mem, ea, |data|)
    ensures Writable(mem, ea, |data|) ==> Poke(mem, ea, data).Some? && WriteBytes(mem, ea, data) == Poke(mem, ea, data)
  {
  }

  lemma DecodesStore(insn: u32, width: nat, update: bool)
    requires Stores(insn, width, update)
    ensures AccessOf(insn) == Some(Store(if width == 1 then Stb else if width == 2 then Sth else Stw, update))
  {
  }

  lemma DecodesReversed(insn: u32, width: nat)
    ensures LoadsReversed(insn, width) || StoresReversed(insn, width) ==> width == 2 || width == 4
    ensures LoadsReversed(insn, width) ==> AccessOf(insn) == Some(Load(if width == 2 then Lhbrx else Lwbrx, false))
    ensures StoresReversed(insn, width) ==> AccessOf(insn) == Some(Store(if width == 2 then Sthbrx else Stwbrx, false))
  {
  }

  /** The bytes a store writes spell the low end of the register. */
  lemma StoredNumber(cfg: Config, c: CpuState, rt: Reg)
    ensures var b := StoreData(cfg, c, Stb, rt); |b| == 1 && BigEndian(b) == c.gpr[rt] % 0x100
    ensures var b := StoreData(cfg, c, Sth, rt); |b| == 2 && BigEndian(b) == c.gpr[rt] % 0x1_0000
    ensures var b := StoreData(cfg, c, Stw, rt); |b| == 4 && BigEndian(b) == c.gpr[rt]
  {
    BigEndian1(StoreData(cfg, c, Stb, rt));
    BigEndian2(HalfBytes(c.gpr[rt] % 0x1_0000));
    BigEndian4(WordBytes(c.gpr[rt]));
    hide BigEndian, HalfBytes, WordBytes, Half, Word;
  }

  lemma StoredReversed(cfg: Config, c: CpuState, rt: Reg)
    ensures var b := StoreData(cfg, c, Sthbrx, rt); |b| == 2 && LittleEndian(b) == c.gpr[rt] % 0x1_0000
    ensures var b := StoreData(cfg, c, Stwbrx, rt); |b| == 4 && LittleEndian(b) == c.gpr[rt]
  {
    hide LittleEndian, HalfBytes, WordBytes, Half, Word, ByteSwap16, ByteSwap32;
    var h: u16 := c.gpr[rt] % 0x1_0000;
    SwappedBytes(c.gpr[rt], h);
    var x, y := HalfBytes(h), WordBytes(c.gpr[rt]);
    assert [x[0], x[1]] == x && [y[0], y[1], y[2], y[3]] == y;
    LittleEndian2([x[1], x[0]]);
    LittleEndian4([y[3], y[2], y[1], y[0]]);
  }

  lemma StoredFloat(cfg: Config, c: CpuState, rt: Reg)
    ensures var b := StoreData(cfg, c, Stfs, rt); |b| == 4 && BigEndian(b) == cfg.host.narrow(c.fpr[rt])
    ensures var b := StoreData(cfg, c, Stfiw, rt); |b| == 4 && BigEndian(b) == c.fpr[rt] % 0x1_0000_0000
    ensures var b := StoreData(cfg, c, Stfd, rt); |b| == 8 && BigEndian(b) == c.fpr[rt]
  {
    BigEndian4(WordBytes(cfg.host.narrow(c.fpr[rt])));
    BigEndian4(WordBytes(c.fpr[rt] % 0x1_0000_0000));
    var b := DoubleBytes(c.fpr[rt]);
    assert b[..4] == WordBytes(c.fpr[rt] / 0x1_0000_0000) && b[4..] == WordBytes(c.fpr[rt] % 0x1_0000_0000);
    BigEndian8(b);
    hide BigEndian, WordBytes, Word;
  }

  /** stb, sth and stw in all forms: the low end of the register, most significant byte first. */
  lemma IntegerStore(cfg: Config, c: CpuState, mem: Regions, pc: u32, insn: u32, width: nat, update: bool)
    requires Valid(mem) && Stores(insn, width, update)
    ensures StoresAs(Execute(cfg, c, mem, pc, insn), c, mem, pc, insn, width, update,
                c.gpr[FieldT(insn)] % Modulus(width), false)
  {
    hide Execute, StoresAs, StoreData, AccessOf, Stores, BigEndian;
    DecodesStore(insn, width, update);
    assert width == 1 || width == 2 || width == 4 by { WidthIs(insn, width, update); }
    StoredNumber(cfg, c, Rt(insn));
    var k := if width == 1 then Stb else if width == 2 then Sth else Stw;
    StoreIs(cfg, c, mem, pc, insn, k, update, width, c.gpr[FieldT(insn)] % Modulus(width), false);
  }

  /** sthbrx and stwbrx: the low end of the register, least significant byte first. */
  lemma ReversedStore(cfg: Config, c: CpuState, mem: Regions, pc: u32, insn: u32, width: nat)
    requires Valid(mem) && StoresReversed(insn, width)
    ensures StoresAs(Execute(cfg, c, mem, pc, insn), c, mem, pc, insn, width, false,
                c.gpr[FieldT(insn)] % Modulus(width), true)
  {
    hide Execute, StoresAs, StoreData, AccessOf, StoresReversed, LittleEndian;
    DecodesReversed(insn, width);
    StoredReversed(cfg, c, Rt(insn));
    var k := if width == 2 then Sthbrx else Stwbrx;
    StoreIs(cfg, c, mem, pc, insn, k, false, width, c.gpr[FieldT(insn)] % Modulus(width), true);
  }

  /** stfs, stfd and stfiwx: the pattern narrowed by the host, the whole pattern, or its low word. */
  lemma FloatStore(cfg: Config, c: CpuState, mem: Regions, pc: u32, insn: u32, update: bool)
    requires Valid(mem)
    ensures IsForm(insn, 52, 53, 663, 695, update) ==>
              StoresAs(Execute(cfg, c, mem, pc, insn), c, mem, pc, insn, 4, update,
                  cfg.host.narrow(c.fpr[FieldT(insn)]), false)
    ensures IsForm(insn, 54, 55, 727, 759, update) ==>
              StoresAs(Execute(cfg, c, mem, pc, insn), c, mem, pc, insn, 8, update, c.fpr[FieldT(insn)], false)
    ensures IsX(insn, 983) ==>
              StoresAs(Execute(cfg, c, mem, pc, insn), c, mem, pc, insn, 4, false,
                  c.fpr[FieldT(insn)] % 0x1_0000_0000, false)
  {
    assert IsForm(insn, 52, 53, 663, 695, update) ==> AccessOf(insn) == Some(Store(Stfs, update));
    assert IsForm(insn, 54, 55, 727, 759, update) ==> AccessOf(insn) == Some(Store(Stfd, update));
    assert IsX(insn, 983) ==> AccessOf(insn) == Some(Store(Stfiw, false));
    hide Execute, StoresAs, StoreData, AccessOf, BigEndian, IsForm, IsX;
    StoredFloat(cfg, c, Rt(insn));
    var f := c.fpr[FieldT(insn)];
    if IsForm(insn, 52, 53, 663, 695, update) {
      StoreIs(cfg, c, mem, pc, insn, Stfs, update, 4, cfg.host.narrow(f), false);
    }
    if IsForm(insn, 54, 55, 727, 759, update) { StoreIs(cfg, c, mem, pc, insn, Stfd, update, 8, f, false); }
    if IsX(insn, 983) { StoreIs(cfg, c, mem, pc, insn, Stfiw, false, 4, f % 0x1_0000_0000, false); }
  }

  /** What a store of some width leaves in memory, a load of that width from the same address brings back. */
  lemma StoreThenLoad(cfg: Config, c: CpuState, mem: Regions, pc: u32, store: u32, c': CpuState, pc': u32, load: u32,
      width: nat, su: bool, lu: bool)
    requires Valid(mem)
    requires (Stores(store, width, su) && LoadsZeroExtended(load, width, lu))
          || (StoresReversed(store, width) && LoadsReversed(load, width) && !su && !lu)
    requires Execute(cfg, c, mem, pc, store).Running? && Effective(c', load) == Effective(c, store)
    requires Readable(mem, Effective(c, store), width) && (lu ==> FieldA(load) != FieldT(load))
    ensures var stored := Execute(cfg, c, mem, pc, store).mem;
            && Execute(cfg, c', stored, pc', load).Running?
            && Execute(cfg, c', stored, pc', load).mem == stored
            && Execute(cfg, c', stored, pc', load).c.gpr[FieldT(load)] == c.gpr[FieldT(store)] % Modulus(width)
  {
    var stored, ea := Execute(cfg, c, mem, pc, store).mem, Effective(c, store);
    var reversed := StoresReversed(store, width) && LoadsReversed(load, width);
    hide Execute, Stores, StoresReversed, LoadsZeroExtended, LoadsReversed, Effective, FieldT, FieldA;
    hide Readable, Writable, Peek, BigEndian, LittleEndian, Valid;
    if reversed {
      ReversedStore(cfg, c, mem, pc, store, width);
      ReversedLoad(cfg, c', stored, pc', load, width);
    } else {
      IntegerStore(cfg, c, mem, pc, store, width, su);
      ZeroExtendedLoad(cfg, c', stored, pc', load, width, lu);
    }
    StaysReadable(mem, stored, ea, width);
  }

  lemma StaysReadable(mem: Regions, mem': Regions, ea: int, width: nat)
    requires SameLayout(mem, mem')
    ensures Readable(mem', ea, width) == Readable(mem, ea, width)
  {
    LayoutFind(mem, mem', ea, width);
  }

  // ----- reservations and cleared blocks -----

  lemma ReservedExecutes(cfg: Config, c: CpuState, mem: Regions, pc: u32, insn: u32)
    requires IsX(insn, 20) || IsX(insn, 150) || IsX(insn, 1014)
    ensures Execute(cfg, c, mem, pc, insn) == ReservedOp(c, mem, pc, insn)
    ensures Effective(c, insn) == EaX(c, Ra(insn), Rb(insn))
    ensures Xo(insn) == if IsX(insn, 20) then 20 else if IsX(insn, 150) then 150 else 1014
  {
    hide AccessOp, MultipleOp, ReservedOp, RegisterOp, BranchRegister, BranchDirect;
  }

  /** lwarx: an aligned word is loaded and its address reserved. */
  lemma LoadReserved(cfg: Config, c: CpuState, mem: Regions, pc: u32, insn: u32)
    requires IsX(insn, 20)
    ensures var r, ea := Execute(cfg, c, mem, pc, insn), Effective(c, insn);
            if ea % 4 == 0 && Readable(mem, ea, 4) then
              var b := Peek(mem, ea, 4);
              && b.Some? && BigEndian(b.value) < 0x1_0000_0000
              && r == Running(c.(gpr := c.gpr[FieldT(insn) := BigEndian(b.value)], reservationAddress := ea,
                  reservationValid := true), mem)
            else r == Fault(c, mem, pc, insn)
  {
    hide Execute, EaX, Effective, ReadBytes, Readable, Peek, Word, BigEndian;
    ReservedExecutes(cfg, c, mem, pc, insn);
    ReadsPeek(mem, Effective(c, insn), 4);
    var b := ReadBytes(mem, Effective(c, insn), 4);
    if b.Some? { BigEndian4(b.value); }
  }

  /** CR0 says whether the store was done, and the other bits of CR are kept. */
  predicate RecordsSuccess(c: CpuState, cr: u32, done: bool, bi: nat) {
    CrBit(cr, bi) == if bi >= 4 then CrBit(c.cr, bi) else if bi == 2 then done else bi == 3 && So(c.xer)
  }

  /** stwcx.: the word is stored exactly under a reservation of its address, and no reservation is left. */
  lemma StoreConditional(cfg: Config, c: CpuState, mem: Regions, pc: u32, insn: u32)
    requires Valid(mem) && IsX(insn, 150)
    ensures var r, ea := Execute(cfg, c, mem, pc, insn), Effective(c, insn);
            var reserved := c.reservationValid && c.reservationAddress == ea;
            if ea % 4 != 0 || (reserved && !Writable(mem, ea, 4)) then r == Fault(c, mem, pc, insn)
            else
              && r.Running? && r.c == c.(reservationValid := false, cr := r.c.cr)
              && (forall bi: nat :: bi < 32 ==> RecordsSuccess(c, r.c.cr, reserved, bi))
              && Valid(r.mem)
              && if !reserved then r.mem == mem
                 else
                   && OnlyBlockChanged(mem, r.mem, ea, 4)
                   && var b := Peek(r.mem, ea, 4);
                      b.Some? && BigEndian(b.value) == c.gpr[FieldT(insn)]
  {
    hide Execute, EaX, Effective, WriteBytes, Writable, Peek, Poke, WordBytes, BigEndian, OnlyBlockChanged, Valid;
    hide CrBit, PutCrField, CrNibble;
    ReservedExecutes(cfg, c, mem, pc, insn);
    assert FieldT(insn) == Rt(insn);
    var ea, data := Effective(c, insn), WordBytes(c.gpr[Rt(insn)]);
    var reserved := c.reservationValid && c.reservationAddress == ea;
    WritesPoke(mem, ea, data);
    BigEndian4(data);
    forall bi: nat | bi < 32
      ensures RecordsSuccess(c, PutCrField(c.cr, 0, CrNibble(false, false, reserved, So(c.xer))), reserved, bi)
    {
      CrFieldReadsBack(c.cr, 0, false, false, reserved, So(c.xer), bi);
    }
    if reserved && Writable(mem, ea, 4) {
      WrittenBlock(mem, ea, data);
      ReadAfterWrite(mem, ea, data);
    }
  }

  /** dcbz: the aligned block of 32 bytes around the address is cleared, and nothing else changes. */
  lemma ClearsBlock(cfg: Config, c: CpuState, mem: Regions, pc: u32, insn: u32)
    requires Valid(mem) && IsX(insn, 1014)
    ensures var r, block := Execute(cfg, c, mem, pc, insn), Effective(c, insn) / 32 * 32;
            if Writable(mem, block, 32) then
              && r.Running? && r.c == c && Valid(r.mem) && OnlyBlockChanged(mem, r.mem, block, 32)
              && forall k :: block <= k < block + 32 ==> ByteAt(r.mem, k, 0)
            else r == Fault(c, mem, pc, insn)
  {
    hide Execute, EaX, Effective, WriteBytes, Writable, Poke, OnlyBlockChanged, Valid, ByteAt;
    ReservedExecutes(cfg, c, mem, pc, insn);
    var ea, block, zeros: seq<u8> := Effective(c, insn), Effective(c, insn) / 32 * 32, seq(32, _ => 0);
    assert ea - ea % 32 == block;
    WritesPoke(mem, block, zeros);
    if Writable(mem, block, 32) {
      WrittenBlock(mem, block, zeros);
      forall k | block <= k < block + 32 ensures ByteAt(WriteBytes(mem, block, zeros).value, k, 0) {
        assert ByteAt(WriteBytes(mem, block, zeros).value, block + (k - block), zeros[k - block]);
      }
    }
  }

  // ----- from memory to instruction -----

  /**
    A step stops at the return address, then at an import, then where the word
    cannot be executed or read; otherwise it executes the word at pc, most
    significant byte first, with the program counter moved on.
   */
  lemma StepFetches(cfg: Config, c: CpuState, mem: Regions)
    ensures var r, imports := Step(cfg, c, mem), cfg.importBase <= c.pc < cfg.importBase as int + cfg.importSize;
            if c.pc == cfg.returnAddress then r == Stopped(c, mem, Returned, 0, c.pc, 0)
            else if imports then r == Stopped(c, mem, ImportTrap, 0, c.pc, 0)
            else if !Executable(mem, c.pc, 4) || !Readable(mem, c.pc, 4) then
              r == Stopped(c, mem, MemoryFault, 0, c.pc, 0)
            else
              var b := Peek(mem, c.pc, 4);
              && b.Some? && BigEndian(b.value) < 0x1_0000_0000
              && r == Execute(cfg, c.(pc := (c.pc + 4) % 0x1_0000_0000), mem, c.pc, BigEndian(b.value))
  {
    hide Execute, Executable, Readable, Peek, BigEndian, ReadBytes, Word;
    ReadsPeek(mem, c.pc, 4);
    var b := ReadBytes(mem, c.pc, 4);
    if b.Some? { BigEndian4(b.value); }
  }
}
