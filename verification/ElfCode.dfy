/** Relocated code does what it was relocated for when the interpreter executes it. */
module ElfCode {
  import opened Words
  import opened Numbers
  import opened MemoryModel
  import opened CpuModel
  import opened Interpreter
  import opened ElfRelocation
  import opened ElfTables
  import Folds

  function Target(e: Entry): u32
    requires e.symbol.Some?
  {
    Wrap32(e.symbol.value + e.addend)
  }

  lemma PatchedLi(word: u32, value: int)
    requires value % 4 == 0 && FitsSigned(value, 26)
    ensures var w := PutLi(word, value);
            Li(w) == value && Opcode(w) == Opcode(word) && RecordBit(w) == RecordBit(word)
                && Absolute(w) == Absolute(word)
  {
    hide PutLi, RecordBit, Absolute;
    PutLiParts(word, value);
    assert Pow2(25) == 0x200_0000 by {
      assert Pow2(8) == 0x100;
      assert Pow2(16) == 0x1_0000;
      assert Pow2(24) == 0x100_0000;
    }
    var w := PutLi(word, value);
    FlagBits(w, word);
  }

  lemma FlagBits(w: u32, word: u32)
    requires w % 4 == word % 4
    ensures RecordBit(w) == RecordBit(word) && Absolute(w) == Absolute(word)
  {
    assert w % 2 == w % 4 % 2 && w / 2 % 2 == w % 4 / 2;
    assert word % 2 == word % 4 % 2 && word / 2 % 2 == word % 4 / 2;
  }

  /** The fields above the low half, read off the high half. */
  lemma FieldsOfHigh(w: u32)
    ensures Opcode(w) == w / 0x1_0000 / 0x400 && Rt(w) == w / 0x1_0000 / 0x20 % 32 && Ra(w) == w / 0x1_0000 % 32
  {
    Divided(w, 0x1_0000, 0x400);
    Divided(w, 0x1_0000, 0x20);
  }

  lemma HighFields(w: u32, word: u32)
    requires w / 0x1_0000 == word / 0x1_0000
    ensures Opcode(w) == Opcode(word) && Rt(w) == Rt(word) && Ra(w) == Ra(word)
  {
    FieldsOfHigh(w);
    FieldsOfHigh(word);
    hide Opcode, Rt, Ra;
  }

  lemma PatchedBd(word: u32, value: int)
    requires value % 4 == 0 && FitsSigned(value, 16)
    ensures var w := PutBd(word, value);
            && Bd(w) == value && RecordBit(w) == RecordBit(word) && Absolute(w) == Absolute(word)
            && Opcode(w) == Opcode(word) && Rt(w) == Rt(word) && Ra(w) == Ra(word)
  {
    hide PutBd, Opcode, Rt, Ra, RecordBit, Absolute;
    PutBdParts(word, value);
    assert Pow2(15) == 0x8000 by { assert Pow2(5) == 0x20; assert Pow2(10) == 0x400; }
    FlagBits(PutBd(word, value), word);
    HighFields(PutBd(word, value), word);
  }

  /** A successful branch patch: the value was aligned and in range, and the word now holds it. */
  lemma BranchPatch(bias: u32, mem: Regions, e: Entry, w: u32)
    requires Valid(mem) && e.hasAddend && Apply(bias, mem, e).Some?
    requires FieldOf(e.kind) == Some(Branch24) || FieldOf(e.kind) == Some(Branch14)
    requires Peek(mem, e.place, 4) == Some(WordBytes(w))
    ensures e.symbol.Some?
    ensures var v := Value(bias, e, e.addend);
            && v % 4 == 0 && FitsSigned(v, if FieldOf(e.kind) == Some(Branch24) then 26 else 16)
            && Peek(Apply(bias, mem, e).value, e.place, 4)
               == Some(WordBytes(if FieldOf(e.kind) == Some(Branch24) then PutLi(w, v) else PutBd(w, v)))
  {
    hide Peek, Poke, Value, PutLi, PutBd, FitsSigned, Valid, WordBytes;
    var v := Value(bias, e, e.addend);
    ReadAfterWrite(mem, e.place, WordBytes(if FieldOf(e.kind) == Some(Branch24) then PutLi(w, v) else PutBd(w, v)));
  }

  /** The instruction is fetched and executed: the address is executable, readable and not special to the run. */
  predicate Runs(cfg: Config, mem: Regions, pc: u32) {
    pc != cfg.returnAddress && !InImports(cfg, pc) && Executable(mem, pc, 4) && Readable(mem, pc, 4)
  }

  lemma StepAt(cfg: Config, c: CpuState, mem: Regions, w: u32)
    requires Runs(cfg, mem, c.pc) && Peek(mem, c.pc, 4) == Some(WordBytes(w))
    ensures Step(cfg, c, mem) == Execute(cfg, c.(pc := Wrap32(c.pc + 4)), mem, c.pc, w)
  {
    hide Execute, Peek, Readable, Executable, WordBytes;
  }

  lemma ExecuteB(cfg: Config, c: CpuState, mem: Regions, pc: u32, w: u32)
    requires Opcode(w) == 18
    ensures Execute(cfg, c, mem, pc, w)
         == Running(c.(lr := if RecordBit(w) then c.pc else c.lr,
                       pc := Wrap32(if Absolute(w) then Li(w) else pc + Li(w))), mem)
  {
    hide RegisterOp, AccessOp, MultipleOp, ReservedOp, BranchRegister, BranchTaken, Li, Bd;
  }

  lemma ExecuteBc(cfg: Config, c: CpuState, mem: Regions, pc: u32, w: u32)
    requires Opcode(w) == 16
    ensures Execute(cfg, c, mem, pc, w)
         == Running(c.(lr := if RecordBit(w) then c.pc else c.lr, ctr := CtrAfter(c, Rt(w)),
                       pc := if BranchTaken(c, Rt(w), Ra(w))
                             then Wrap32(if Absolute(w) then Bd(w) else pc + Bd(w)) else c.pc), mem)
  {
    hide RegisterOp, AccessOp, MultipleOp, ReservedOp, BranchRegister, Li, Bd, CrBit, Bit;
  }

  /**
    b/bl patched through a 24-bit relocation, relative (AA = 0) or absolute
    (AA = 1): the next step goes to S + A, linking as the word already said.
   */
  lemma RelocatedBranchReaches(cfg: Config, c: CpuState, bias: u32, mem: Regions, e: Entry, w: u32)
    requires Valid(mem) && e.hasAddend && Apply(bias, mem, e).Some? && FieldOf(e.kind) == Some(Branch24)
    requires Peek(mem, e.place, 4) == Some(WordBytes(w))
    requires Opcode(w) == 18 && Absolute(w) == !IsRelative(e.kind)
    requires c.pc == e.place && Runs(cfg, Apply(bias, mem, e).value, c.pc)
    ensures e.symbol.Some?
    ensures var mem' := Apply(bias, mem, e).value;
            Step(cfg, c, mem')
            == Running(c.(lr := if RecordBit(w) then Wrap32(c.pc + 4) else c.lr, pc := Target(e)), mem')
  {
    hide Step, Execute, Apply, Peek, Valid, WordBytes, Li, PutLi, Opcode, RecordBit, Absolute, Runs, FitsSigned;
    BranchPatch(bias, mem, e, w);
    var v := Value(bias, e, e.addend);
    PatchedLi(w, v);
    StepAt(cfg, c, Apply(bias, mem, e).value, PutLi(w, v));
    ExecuteB(cfg, c.(pc := Wrap32(c.pc + 4)), Apply(bias, mem, e).value, c.pc, PutLi(w, v));
  }

  /** bc patched through a 14-bit relocation: its BO, BI and LK are as they were, and when taken it goes to S + A. */
  lemma RelocatedConditionalReaches(cfg: Config, c: CpuState, bias: u32, mem: Regions, e: Entry, w: u32)
    requires Valid(mem) && e.hasAddend && Apply(bias, mem, e).Some? && FieldOf(e.kind) == Some(Branch14)
    requires Peek(mem, e.place, 4) == Some(WordBytes(w))
    requires Opcode(w) == 16 && Absolute(w) == !IsRelative(e.kind)
    requires c.pc == e.place && Runs(cfg, Apply(bias, mem, e).value, c.pc)
    ensures e.symbol.Some?
    ensures var mem', next := Apply(bias, mem, e).value, Wrap32(c.pc + 4);
            Step(cfg, c, mem')
            == Running(c.(lr := if RecordBit(w) then next else c.lr, ctr := CtrAfter(c, Rt(w)),
                          pc := if BranchTaken(c, Rt(w), Ra(w)) then Target(e) else next), mem')
  {
    hide Step, Execute, Apply, Peek, Valid, WordBytes, Bd, PutBd, Opcode, RecordBit, Absolute, Runs, FitsSigned, Rt;
    hide Ra, CrBit, Bit;
    BranchPatch(bias, mem, e, w);
    var v := Value(bias, e, e.addend);
    PatchedBd(w, v);
    StepAt(cfg, c, Apply(bias, mem, e).value, PutBd(w, v));
    ExecuteBc(cfg, c.(pc := Wrap32(c.pc + 4)), Apply(bias, mem, e).value, c.pc, PutBd(w, v));
  }

  // ----- addis/addi pairs -----

  function WithLow(w: u32, h: u16): u32 { w / 0x1_0000 * 0x1_0000 + h }

  lemma WithLowFields(w: u32, h: u16)
    ensures var w' := WithLow(w, h);
            Opcode(w') == Opcode(w) && Rt(w') == Rt(w) && Ra(w') == Ra(w) && w' % 0x1_0000 == h
  {
    HighFields(WithLow(w, h), w);
  }

  /** Overwriting the second half of a word in memory. */
  lemma HalfOfWordPatched(mem: Regions, p: u32, w: u32, h: u16)
    requires Valid(mem) && Peek(mem, p, 4) == Some(WordBytes(w))
    ensures var m := Poke(mem, p + 2, HalfBytes(h));
            m.Some? && Valid(m.value) && Peek(m.value, p, 4) == Some(WordBytes(WithLow(w, h)))
  {
    var i := Find(mem, p, 4);
    var o := p - mem[i].base;
    PokeIsPut(mem, p + 2, HalfBytes(h), i);
    var mem' := Put(mem, i, p + 2, HalfBytes(h));
    FindUnique(mem', p, 4, i);
    assert mem'[i].bytes[o..o + 4] == mem[i].bytes[o..o + 4][..2] + HalfBytes(h);
    BytesOfWithLow(w, h);
  }

  lemma BytesOfWithLow(w: u32, h: u16)
    ensures WordBytes(WithLow(w, h)) == WordBytes(w)[..2] + HalfBytes(h)
  {
    var q := w / 0x1_0000;
    assert WithLow(w, h) / 0x100 / 0x100 == q && w / 0x100 / 0x100 == q;
    assert WithLow(w, h) / 0x100 % 0x100 == h / 0x100;
  }

  lemma HalfRelocation(bias: u32, mem: Regions, e: Entry, p: u32, w: u32)
    requires Valid(mem) && (e.kind == 4 || e.kind == 6) && e.hasAddend && e.symbol.Some?
    requires e.place == p + 2 && Peek(mem, p, 4) == Some(WordBytes(w))
    ensures var m, h := Apply(bias, mem, e), HalfOf(e.kind, e.symbol.value + e.addend);
            m.Some? && Valid(m.value) && Peek(m.value, p, 4) == Some(WordBytes(WithLow(w, h)))
            && m == Poke(mem, p + 2, HalfBytes(h))
  {
    hide Peek, Poke, Valid, WordBytes, WithLow, HalfOf;
    var h := HalfOf(e.kind, e.symbol.value + e.addend);
    HalfOfWordPatched(mem, p, w, h);
    PeekPokeTogether(mem, p + 2, HalfBytes(h));
    assert NewBytes(bias, e, HalfBytes(h)) == Some(HalfBytes(h));
    PeekLength(mem, e.place, 2);
  }

  lemma WrapAbsorbs(x: int, y: int)
    ensures Wrap32(Wrap32(x) + y) == Wrap32(x + y)
  {
  }

  lemma WrapPeriodic(v: int, m: int)
    ensures Wrap32(v - 0x1_0000_0000 * m) == Wrap32(v)
  {
  }

  lemma SignExtendedHalf(x: int) returns (m: int)
    ensures SignExtend16(x % 0x1_0000) == x - 0x1_0000 * m
  {
    m := x / 0x1_0000 + (if x % 0x1_0000 < 0x8000 then 0 else 1);
  }

  /** The adjusted high half makes up for the sign of the low half. */
  lemma HighPlusLow(v: int)
    ensures Wrap32(Wrap32(SignExtend16(HalfOf(6, v)) * 0x1_0000) + SignExtend16(HalfOf(4, v))) == Wrap32(v)
  {
    var hi := (v + 0x8000) / 0x1_0000;
    var m := SignExtendedHalf(hi);
    var low := SignExtend16(v % 0x1_0000);
    assert hi * 0x1_0000 + low == v;
    assert SignExtend16(HalfOf(6, v)) * 0x1_0000 == hi * 0x1_0000 - 0x1_0000_0000 * m;
    hide SignExtend16, HalfOf, Wrap32;
    WrapAbsorbs(hi * 0x1_0000 - 0x1_0000_0000 * m, low);
    WrapPeriodic(v, m);
  }

  lemma ExecuteAddImmediate(cfg: Config, c: CpuState, mem: Regions, pc: u32, w: u32)
    requires Opcode(w) == 14 || Opcode(w) == 15
    ensures var base := if Ra(w) == 0 then 0 else c.gpr[Ra(w)];
            Execute(cfg, c, mem, pc, w)
            == Running(PutGpr(c, Rt(w),
                              Wrap32(base + SignExtend16(w) * (if Opcode(w) == 15 then 0x1_0000 else 1))), mem)
  {
    hide CompareInto, XFormAccess, AccessOp, MultipleOp, ReservedOp, BranchRegister, BranchDirect, CrOp, FpOp;
    hide SystemCallOp, Rotated, Op31, TrapCondition, AddWithCarry, Bitwise32, RecordCr0, RecordIf, Signed32;
    hide SignExtend16;
  }

  /**
    addis rX,0 patched with the high-adjusted half and addi rY,rX patched with
    the low half, rX not r0: executed one after the other, whatever comes
    between them leaves rX alone, they put exactly S + A in rY.
   */
  lemma HighAdjustedPairLoadsAddress(cfg: Config, c: CpuState, bias: u32, mem: Regions, ha: Entry, lo: Entry,
                                     p1: u32, w1: u32, p2: u32, w2: u32, c1: CpuState)
    requires Valid(mem) && ha.kind == 6 && lo.kind == 4 && ha.hasAddend && lo.hasAddend
    requires ha.symbol.Some? && lo.symbol == ha.symbol && lo.addend == ha.addend
    requires ha.place == p1 + 2 && lo.place == p2 + 2 && (p1 + 4 <= p2 || p2 + 4 <= p1)
    requires Peek(mem, p1, 4) == Some(WordBytes(w1)) && Peek(mem, p2, 4) == Some(WordBytes(w2))
    requires Opcode(w1) == 15 && Ra(w1) == 0
    requires Opcode(w2) == 14 && Ra(w2) == Rt(w1) != 0
    ensures var m := ApplyTable(bias, mem, [ha, lo]);
            m.Some? &&
            var b1, b2 := Peek(m.value, p1, 4), Peek(m.value, p2, 4);
            b1.Some? && b2.Some? && |b1.value| == 4 && |b2.value| == 4 &&
            var s1 := Execute(cfg, c, m.value, p1, Word(b1.value));
            s1.Running? && s1.mem == m.value && s1.c == PutGpr(c, Rt(w1), s1.c.gpr[Rt(w1)]) &&
            (c1.gpr[Rt(w1)] == s1.c.gpr[Rt(w1)] ==>
               Execute(cfg, c1, m.value, p2, Word(b2.value)) == Running(PutGpr(c1, Rt(w2), Target(ha)), m.value))
  {
    hide Execute, Peek, Poke, Valid, Apply, WithLow, HalfOf, Opcode, Ra, Rt, SignExtend16;
    var v := ha.symbol.value + ha.addend;
    var h, l := HalfOf(6, v), HalfOf(4, v);
    HalfRelocation(bias, mem, ha, p1, w1);
    var m1 := Apply(bias, mem, ha).value;
    WriteFrame(mem, p1 + 2, HalfBytes(h), p2, 4);
    HalfRelocation(bias, m1, lo, p2, w2);
    var m2 := Apply(bias, m1, lo).value;
    WriteFrame(m1, p2 + 2, HalfBytes(l), p1, 4);
    TwoEntries(bias, mem, ha, lo);
    WithLowFields(w1, h);
    WithLowFields(w2, l);
    ExecuteAddImmediate(cfg, c, m2, p1, WithLow(w1, h));
    ExecuteAddImmediate(cfg, c1, m2, p2, WithLow(w2, l));
    LowHalfOnly(WithLow(w1, h), h);
    LowHalfOnly(WithLow(w2, l), l);
    HighPlusLow(v);
  }

  lemma LowHalfOnly(w: u32, h: u16)
    requires w % 0x1_0000 == h
    ensures SignExtend16(w) == SignExtend16(h)
  {
  }

  lemma TwoEntries(bias: u32, mem: Regions, a: Entry, b: Entry)
    requires Apply(bias, mem, a).Some?
    ensures ApplyTable(bias, mem, [a, b]) == Apply(bias, Apply(bias, mem, a).value, b)
  {
    hide Apply;
    var f, m := Applier(bias), Apply(bias, mem, a).value;
    assert [a, b][1..] == [b] && [b][1..] == [];
    assert Folds.Fold(f, Some(m), [b]) == Folds.Fold(f, f(m, b), []);
  }
}
