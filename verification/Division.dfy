/** Signed division by a power of two as srawi followed by addze. */
module SignedDivision {
  import opened Words
  import opened MemoryModel
  import opened CpuModel
  import opened Interpreter
  import opened Arithmetic
  import opened Numbers

  lemma HalvedQuotient(x: int, p: nat)
    requires p >= 1
    ensures x / 2 / p == x / (2 * p)
  {
    var q := x / 2;
    var a, b := q / p, q % p;
    assert q == p * a + b;
    assert x == 2 * (p * a + b) + x % 2;
    assert (2 * p) * a == 2 * (p * a);
    DivUnique(x, 2 * p, a, 2 * b + x % 2);
  }

  /** An arithmetic shift is division rounding down. */
  lemma {:induction false} AsrIsFloor(x: int, n: nat)
    ensures Asr(x, n) == x / Pow2(n)
    decreases n
  {
    if n > 0 {
      AsrIsFloor(x / 2, n - 1);
      HalvedQuotient(x, Pow2(n - 1));
    }
  }

  /** The bits shifted out are the remainder, whether the word is read as signed or not. */
  lemma LostBits(x: u32, sh: nat)
    requires sh < 32
    ensures x % Pow2(sh) == Signed32(x) % Pow2(sh)
  {
    hide Pow2;
    Pow2Adds(sh, 32 - sh);
    Pow2Of32();
    ModShift(x, Pow2(sh), Pow2(32 - sh));
  }

  /** Rounding towards zero is rounding down, plus one for an inexact negative quotient. */
  lemma TruncFromFloor(x: int, p: nat)
    requires p >= 1
    ensures TruncDiv(x, p) == x / p + (if x < 0 && x % p != 0 then 1 else 0)
  {
    if x < 0 {
      var q, r := x / p, x % p;
      assert x == p * q + r;
      assert p * (-q) == -(p * q) && p * (-q - 1) == -(p * q) - p;
      if r == 0 { DivUnique(-x, p, -q, 0); } else { DivUnique(-x, p, -q - 1, p - r); }
    }
  }

  lemma QuotientRange(x: int, p: nat)
    requires FitsInt32(x) && p >= 1
    ensures FitsInt32(x / p)
    ensures x < 0 ==> x / p < 0
  {
    var q := x / p;
    assert x == p * q + x % p;
    if q >= 0 {
      MulGrows(p, q);
    } else {
      MulGrows(p, -q - 1);
      assert p * (-q - 1) == -(p * q) - p;
    }
  }

  lemma MulGrows(p: nat, q: nat)
    requires p >= 1
    ensures p * q >= q
  {
    assert (p - 1) * q >= 0;
  }

  predicate IsSrawi(insn: u32) { Opcode(insn) == 31 && Xo(insn) == 824 }

  lemma SrawiExecutes(cfg: Config, c: CpuState, mem: Regions, pc: u32, insn: u32)
    requires IsSrawi(insn)
    ensures Execute(cfg, c, mem, pc, insn) == Running(ShiftRightAlgebraic(c, insn, Rb(insn)), mem)
  {
    hide AccessOp, MultipleOp, ReservedOp, BranchRegister, BranchDirect, CarryArith, CrOp, FpOp, ImmediateOp;
    hide SystemCallOp, Rotated, ShiftRightAlgebraic, ShiftWordAlgebraic, SprOp, MoveXerToCr;
    assert XFormAccess(824).None? && CarryFormOf(824).None?;
    assert LogicResult(824, c.gpr[Rt(insn)], c.gpr[Rb(insn)]).None?;
    assert ProductResult(824, c.gpr[Ra(insn)], c.gpr[Rb(insn)]).None?;
  }

  lemma ShiftedRegister(c: CpuState, insn: u32)
    ensures var c', source := ShiftRightAlgebraic(c, insn, Rb(insn)), Signed32(c.gpr[Rt(insn)]);
            && c'.gpr[Ra(insn)] == Wrap32(Asr(source, Rb(insn)))
            && (Ca(c'.xer) <==> source < 0 && c.gpr[Rt(insn)] % Pow2(Rb(insn)) != 0)
  {
    hide Bit, Ca, Ov, So, PutCrField, CrNibble, Asr, Pow2, Signed32;
  }

  /** srawi leaves the quotient rounded down, and CA says whether rounding towards zero would differ. */
  lemma SrawiIsFloor(c: CpuState, insn: u32)
    ensures var c', source, p := ShiftRightAlgebraic(c, insn, Rb(insn)), Signed32(c.gpr[Rt(insn)]), Pow2(Rb(insn));
            && Signed32(c'.gpr[Ra(insn)]) == source / p
            && (Ca(c'.xer) <==> TruncDiv(source, p) != source / p)
  {
    hide Bit, Ca, ShiftRightAlgebraic, Asr, TruncDiv, Pow2, Rb, Ra, Rt;
    var source, p := Signed32(c.gpr[Rt(insn)]), Pow2(Rb(insn));
    ShiftedRegister(c, insn);
    AsrIsFloor(source, Rb(insn));
    LostBits(c.gpr[Rt(insn)], Rb(insn));
    TruncFromFloor(source, p);
    QuotientRange(source, p);
    SignedOfWrapped(source / p);
  }

  lemma SignedOfWrapped(v: int)
    requires FitsInt32(v)
    ensures Signed32(Wrap32(v)) == v
  {
  }

  /** srawi then addze: the quotient rounded towards zero, for every source and every shift. */
  lemma DivisionByPowerOfTwo(cfg: Config, c: CpuState, mem: Regions, pc: u32, srawi: u32, c1: CpuState, pc1: u32,
      addze: u32, c2: CpuState)
    requires IsSrawi(srawi) && IsCarryInsn(addze, AddZE) && Ra(addze) == Ra(srawi)
    requires Execute(cfg, c, mem, pc, srawi) == Running(c1, mem)
    requires Execute(cfg, c1.(pc := Wrap32(c1.pc + 4)), mem, pc1, addze) == Running(c2, mem)
    ensures var source, p := Signed32(c.gpr[Rt(srawi)]), Pow2(Rb(srawi));
            && Signed32(c1.gpr[Ra(srawi)]) == source / p
            && (Ca(c1.xer) <==> TruncDiv(source, p) != source / p)
            && Signed32(c2.gpr[Rt(addze)]) == TruncDiv(source, p)
  {
    hide Execute, Bit, CarryArith, ShiftRightAlgebraic, TruncDiv, Pow2;
    SrawiExecutes(cfg, c, mem, pc, srawi);
    SrawiIsFloor(c, srawi);
    var source, p := Signed32(c.gpr[Rt(srawi)]), Pow2(Rb(srawi));
    TruncFromFloor(source, p);
    QuotientRange(source, p);
    var c1' := c1.(pc := Wrap32(c1.pc + 4));
    CarryExecutes(cfg, c1', mem, pc1, addze, AddZE);
    AddWithCarryIs(c1', AddZE, Xo(addze) >= 512, RecordBit(addze), Rt(addze), Ra(addze), Rb(addze));
  }
}
