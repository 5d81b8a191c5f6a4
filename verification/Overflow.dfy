/**
  When the OV bit of the overflow-recording forms means overflow: the test
  rereads its operands after the result was written.
 */
module OverflowExactness {
  import opened Words
  import opened CpuModel
  import opened MemoryModel
  import opened Interpreter

  /** The signed result of a carrying form leaves the 32-bit range. */
  predicate TrueOverflow(c: CpuState, form: CarryForm, ra: Reg, rb: Reg) {
    !FitsInt32(Signed32(FirstAddend(c, form, ra)) + Signed32(SecondAddend(c, form, rb)) + CarryIn(c, form))
  }

  /** The choices of registers for which overwriting an operand cannot mislead the test. */
  predicate OverflowSafe(form: CarryForm, rt: Reg, ra: Reg, rb: Reg) {
    match form
    case AddC | AddE => rt != ra && rt != rb
    case SubFC => ra == rb || (rt != ra && rt != rb)
    case SubFE => ra == rb || rt != rb
    case AddME | AddZE => rt != ra
    case SubFME | SubFZE => true
  }

  predicate OvIsRight(c: CpuState, form: CarryForm, rt: Reg, ra: Reg, rb: Reg) {
    Ov(CarryArith(c, form, true, false, rt, ra, rb).xer) == TrueOverflow(c, form, ra, rb)
  }

  /** OV after the instruction, in terms of the operands it found. */
  lemma OvRereads(c: CpuState, form: CarryForm, rc: bool, rt: Reg, ra: Reg, rb: Reg)
    ensures var r := Wrap32(FirstAddend(c, form, ra) as int + SecondAddend(c, form, rb) + CarryIn(c, form));
            Ov(CarryArith(c, form, true, rc, rt, ra, rb).xer)
            == OverflowAfter(PutGpr(c, rt, r), form, CarryIn(c, form), rt, ra, rb)
  {
    hide FirstAddend, SecondAddend, CarryIn, PutCrField, CrNibble, WithCarry, WithOverflow, Bit;
    var carry := CarryIn(c, form);
    assert forall c1: CpuState, c2: CpuState
        {:trigger OverflowAfter(c1, form, carry, rt, ra, rb), OverflowAfter(c2, form, carry, rt, ra, rb)} ::
      c1.gpr == c2.gpr ==>
        OverflowAfter(c1, form, carry, rt, ra, rb) == OverflowAfter(c2, form, carry, rt, ra, rb);
  }

  lemma SafeIsRight(c: CpuState, form: CarryForm, rt: Reg, ra: Reg, rb: Reg)
    requires OverflowSafe(form, rt, ra, rb)
    ensures OvIsRight(c, form, rt, ra, rb)
  {
    hide CarryArith, Bit;
    OvRereads(c, form, false, rt, ra, rb);
    if form == AddC || form == SubFC {
      SignTestSafe(c, form, rt, ra, rb);
    } else {
      WideTestSafe(c, form, rt, ra, rb);
    }
  }

  function Raw(c: CpuState, form: CarryForm, ra: Reg, rb: Reg): u32 {
    Wrap32(FirstAddend(c, form, ra) as int + SecondAddend(c, form, rb) + CarryIn(c, form))
  }

  lemma SignTestSafe(c: CpuState, form: CarryForm, rt: Reg, ra: Reg, rb: Reg)
    requires form == AddC || form == SubFC
    requires OverflowSafe(form, rt, ra, rb)
    ensures OverflowAfter(PutGpr(c, rt, Raw(c, form, ra, rb)), form, CarryIn(c, form), rt, ra, rb)
            == TrueOverflow(c, form, ra, rb)
  {
    SignedOperands(c, ra, rb);
    OverflowTests(c.gpr[ra], c.gpr[rb]);
    OverflowTests(c.gpr[rb], c.gpr[ra]);
    hide Bit, FitsInt32, AddOverflow, Negative, Signed32;
    if form == SubFC && ra == rb {
      EqualOperands(c.gpr[ra], c.gpr[rt := 0][ra]);
    }
  }

  /** The operands of the two sign-tested forms, as signed numbers. */
  lemma SignedOperands(c: CpuState, ra: Reg, rb: Reg)
    ensures TrueOverflow(c, AddC, ra, rb) == !FitsInt32(Signed32(c.gpr[ra]) + Signed32(c.gpr[rb]))
    ensures TrueOverflow(c, SubFC, ra, rb) == !FitsInt32(Signed32(c.gpr[rb]) - Signed32(c.gpr[ra]))
    ensures Raw(c, AddC, ra, rb) == Wrap32(c.gpr[ra] as int + c.gpr[rb])
    ensures Raw(c, SubFC, ra, rb) == Wrap32(c.gpr[rb] as int - c.gpr[ra])
  {
    hide Bit;
  }

  lemma EqualOperands(a: u32, r: u32)
    ensures !SubOverflow(r, r, r) && FitsInt32(Signed32(a) - Signed32(a))
  {
  }

  lemma WideTestSafe(c: CpuState, form: CarryForm, rt: Reg, ra: Reg, rb: Reg)
    requires form != AddC && form != SubFC
    requires OverflowSafe(form, rt, ra, rb)
    ensures OverflowAfter(PutGpr(c, rt, Raw(c, form, ra, rb)), form, CarryIn(c, form), rt, ra, rb)
            == TrueOverflow(c, form, ra, rb)
  {
    hide Bit;
    if form == AddE || form == SubFE {
      ExtendedTestSafe(c, form, rt, ra, rb);
    } else {
      UnaryTestSafe(c, form, rt, ra, rb);
    }
  }

  lemma ExtendedTestSafe(c: CpuState, form: CarryForm, rt: Reg, ra: Reg, rb: Reg)
    requires form == AddE || form == SubFE
    requires OverflowSafe(form, rt, ra, rb)
    ensures OverflowAfter(PutGpr(c, rt, Raw(c, form, ra, rb)), form, CarryIn(c, form), rt, ra, rb)
            == TrueOverflow(c, form, ra, rb)
  {
    hide Bit;
  }

  lemma UnaryTestSafe(c: CpuState, form: CarryForm, rt: Reg, ra: Reg, rb: Reg)
    requires form == AddME || form == AddZE || form == SubFME || form == SubFZE
    requires OverflowSafe(form, rt, ra, rb)
    ensures OverflowAfter(PutGpr(c, rt, Raw(c, form, ra, rb)), form, CarryIn(c, form), rt, ra, rb)
            == TrueOverflow(c, form, ra, rb)
  {
    hide Bit;
  }

  function Loaded(ra: Reg, a: u32, rb: Reg, b: u32, carry: bool): CpuState {
    CpuState(seq(32, _ => 0)[ra := a][rb := b], seq(32, _ => 0), 0, 0, 0, 0, WithCarry(0, carry), 0, 0, false)
  }

  /** Operands that mislead the test when the result overwrites one of them. */
  function Misled(form: CarryForm, rt: Reg, ra: Reg, rb: Reg): CpuState {
    match form
    case AddC => if ra == rb then Loaded(ra, 0x4000_0000, rb, 0x4000_0000, false)
        else Loaded(ra, 0x7FFF_FFFF, rb, 1, false)
    case AddE => if ra == rb then Loaded(ra, 0x8000_0000, rb, 0x8000_0000, false)
                 else if rt == ra then Loaded(ra, 0x7FFF_FFFF, rb, 1, false) else Loaded(ra, 1, rb, 0x7FFF_FFFF, false)
    case SubFC => if rt == ra then Loaded(ra, 2, rb, 1, false) else Loaded(ra, 1, rb, 0x8000_0000, false)
    case SubFE => Loaded(ra, 1, rb, 0x8000_0000, true)
    case AddME => Loaded(ra, 0x8000_0000, ra, 0x8000_0000, false)
    case _ => Loaded(ra, 0x7FFF_FFFF, ra, 0x7FFF_FFFF, true)
  }

  lemma LoadedReads(ra: Reg, a: u32, rb: Reg, b: u32, carry: bool)
    ensures var c := Loaded(ra, a, rb, b, carry);
            c.gpr[rb] == b && (ra != rb ==> c.gpr[ra] == a) && Ca(c.xer) == carry
  {
    hide Bit, Ca, Ov, So;
  }

  lemma UnsafeIsWrong(form: CarryForm, rt: Reg, ra: Reg, rb: Reg)
    requires !OverflowSafe(form, rt, ra, rb)
    ensures !OvIsRight(Misled(form, rt, ra, rb), form, rt, ra, rb)
  {
    hide CarryArith, Bit, Loaded;
    OvRereads(Misled(form, rt, ra, rb), form, false, rt, ra, rb);
    match form
    case AddC =>
      if ra == rb {
        LoadedReads(ra, 0x4000_0000, rb, 0x4000_0000, false);
      } else {
        LoadedReads(ra, 0x7FFF_FFFF, rb, 1, false);
      }
    case AddE =>
      if ra == rb { LoadedReads(ra, 0x8000_0000, rb, 0x8000_0000, false); }
      else if rt == ra {
        LoadedReads(ra, 0x7FFF_FFFF, rb, 1, false);
      } else {
        LoadedReads(ra, 1, rb, 0x7FFF_FFFF, false);
      }
    case SubFC =>
      if rt == ra { LoadedReads(ra, 2, rb, 1, false); } else { LoadedReads(ra, 1, rb, 0x8000_0000, false); }
    case SubFE => LoadedReads(ra, 1, rb, 0x8000_0000, true);
    case AddME => LoadedReads(ra, 0x8000_0000, ra, 0x8000_0000, false);
    case AddZE => LoadedReads(ra, 0x7FFF_FFFF, ra, 0x7FFF_FFFF, true);
    case SubFME | SubFZE =>
  }

  /** OV tells overflow for all operands exactly when the registers are chosen safely. */
  lemma OvExactlyWhenSafe(form: CarryForm, rt: Reg, ra: Reg, rb: Reg)
    ensures (forall c :: OvIsRight(c, form, rt, ra, rb)) <==> OverflowSafe(form, rt, ra, rb)
  {
    hide OvIsRight;
    if OverflowSafe(form, rt, ra, rb) {
      forall c ensures OvIsRight(c, form, rt, ra, rb) { SafeIsRight(c, form, rt, ra, rb); }
    } else {
      UnsafeIsWrong(form, rt, ra, rb);
    }
  }

  // ----- the forms without carry -----

  predicate IsPlainOverflowForm(insn: u32) { Opcode(insn) == 31 && Xo(insn) in {552, 778, 616} }

  /** The carrying form that adds the same operands: subfo and addo differ from subfco and addco in CA only. */
  function CarryTwin(insn: u32): CarryForm { if Xo(insn) == 552 then SubFC else AddC }

  /** The signed result of subfo, addo or nego leaves the 32-bit range. */
  predicate PlainTrueOverflow(c: CpuState, insn: u32) {
    var a, b := Signed32(c.gpr[Ra(insn)]), Signed32(c.gpr[Rb(insn)]);
    !FitsInt32(if Xo(insn) == 552 then b - a else if Xo(insn) == 778 then a + b else -a)
  }

  predicate PlainOvIsRight(cfg: Config, c: CpuState, mem: Regions, pc: u32, insn: u32) {
    Ov(Execute(cfg, c, mem, pc, insn).c.xer) == PlainTrueOverflow(c, insn)
  }

  predicate PlainSafe(insn: u32) {
    Xo(insn) == 616 || OverflowSafe(CarryTwin(insn), Rt(insn), Ra(insn), Rb(insn))
  }

  lemma PlainExecutes(cfg: Config, c: CpuState, mem: Regions, pc: u32, insn: u32)
    requires IsPlainOverflowForm(insn)
    ensures PlainArith(c, insn).Some? && Execute(cfg, c, mem, pc, insn) == Running(PlainArith(c, insn).value, mem)
  {
    PlainForm(c, insn);
    PlainIsRegisterOp(cfg, c, insn);
    PlainOpcodes(Xo(insn));
    hide PlainArith, AccessOp, ReservedOp, BranchRegister, BranchDirect, RegisterOp, MultipleOp, XFormAccess;
    hide DFormAccess, Opcode, Xo;
  }

  lemma PlainIsRegisterOp(cfg: Config, c: CpuState, insn: u32)
    requires IsPlainOverflowForm(insn)
    ensures PlainArith(c, insn).Some? && RegisterOp(cfg, c, insn) == Done(PlainArith(c, insn).value)
  {
    PlainForm(c, insn);
    PlainOpcodes(Xo(insn));
    hide PlainArith, FpOp, ImmediateOp, LogicResult, ProductResult, CarryFormOf, Opcode, Xo, CarryArith, SprOp;
    hide MoveXerToCr, ShiftWordAlgebraic, ShiftRightAlgebraic, CopyFields, CompareInto, TrapCondition, Rotated, CrOp;
    hide SystemCallOp;
  }

  lemma PlainOpcodes(xo: nat)
    requires xo in {552, 778, 616}
    ensures XFormAccess(xo).None? && CarryFormOf(xo).None?
  {
  }

  lemma PlainForm(c: CpuState, insn: u32)
    requires IsPlainOverflowForm(insn)
    ensures PlainArith(c, insn).Some?
  {
  }

  lemma RecordKeepsOv(c: CpuState, rc: bool, v: u32, overflow: bool)
    ensures Ov(RecordIf(c.(xer := WithOverflow(c.xer, overflow)), rc, v).xer) == overflow
  {
    hide Bit;
  }

  lemma PlainOvRereads(c: CpuState, insn: u32)
    requires IsPlainOverflowForm(insn) && Xo(insn) != 616
    ensures PlainArith(c, insn).Some?
    ensures var form := CarryTwin(insn);
            Ov(PlainArith(c, insn).value.xer)
            == OverflowAfter(PutGpr(c, Rt(insn), Raw(c, form, Ra(insn), Rb(insn))), form, CarryIn(c, form), Rt(insn),
                Ra(insn), Rb(insn))
  {
    hide Bit, Rt, Ra, Rb, Opcode, RecordIf, WithOverflow, Ov, RecordBit;
    var form, rt, ra, rb := CarryTwin(insn), Rt(insn), Ra(insn), Rb(insn);
    var v := Raw(c, form, ra, rb);
    var c1 := PutGpr(c, rt, v);
    var overflow := OverflowAfter(c1, form, CarryIn(c, form), rt, ra, rb);
    assert v == if Xo(insn) == 552 then Wrap32(c.gpr[rb] as int - c.gpr[ra]) else Wrap32(c.gpr[ra] as int + c.gpr[rb]);
    RecordKeepsOv(c1, RecordBit(insn), v, overflow);
  }

  lemma NegateOvIsRight(c: CpuState, insn: u32)
    requires IsPlainOverflowForm(insn) && Xo(insn) == 616
    ensures PlainArith(c, insn).Some? && Ov(PlainArith(c, insn).value.xer) == PlainTrueOverflow(c, insn)
  {
    hide Bit, Rt, Ra, Rb, Opcode, RecordIf, WithOverflow, Ov, RecordBit;
    var v := Wrap32(-(c.gpr[Ra(insn)] as int));
    var c1 := PutGpr(c, Rt(insn), v);
    RecordKeepsOv(c1, RecordBit(insn), v, c1.gpr[Ra(insn)] == 0x8000_0000);
  }

  /**
    OV of addo and subfo is right for all operands exactly for the same choices
    of registers; that of nego always is.
   */
  lemma PlainOvExactlyWhenSafe(cfg: Config, mem: Regions, pc: u32, insn: u32)
    requires IsPlainOverflowForm(insn)
    ensures (forall c :: PlainOvIsRight(cfg, c, mem, pc, insn)) <==> PlainSafe(insn)
  {
    hide PlainOvIsRight, OverflowSafe, Xo;
    var form, rt, ra, rb := CarryTwin(insn), Rt(insn), Ra(insn), Rb(insn);
    if PlainSafe(insn) {
      forall c ensures PlainOvIsRight(cfg, c, mem, pc, insn) { PlainSafeIsRight(cfg, c, mem, pc, insn); }
    } else {
      PlainUnsafeIsWrong(cfg, mem, pc, insn);
    }
  }

  /** The carrying twin has the same OV and the same signed result. */
  lemma PlainIsTwin(cfg: Config, c: CpuState, mem: Regions, pc: u32, insn: u32)
    requires IsPlainOverflowForm(insn) && Xo(insn) != 616
    ensures PlainOvIsRight(cfg, c, mem, pc, insn) == OvIsRight(c, CarryTwin(insn), Rt(insn), Ra(insn), Rb(insn))
  {
    PlainExecutes(cfg, c, mem, pc, insn);
    PlainOvRereads(c, insn);
    TwinOv(c, CarryTwin(insn), Rt(insn), Ra(insn), Rb(insn));
    TwinOverflow(c, insn);
    hide Execute, PlainArith, CarryArith, OverflowAfter, Rt, Ra, Rb, Opcode, Bit, Ov, TrueOverflow;
    hide PlainTrueOverflow, Raw, PutGpr, CarryIn, Signed32, Xo;
  }

  lemma TwinOv(c: CpuState, form: CarryForm, rt: Reg, ra: Reg, rb: Reg)
    ensures Ov(CarryArith(c, form, true, false, rt, ra, rb).xer)
         == OverflowAfter(PutGpr(c, rt, Raw(c, form, ra, rb)), form, CarryIn(c, form), rt, ra, rb)
  {
    hide CarryArith, OverflowAfter, CarryIn, FirstAddend, SecondAddend, Ov;
    OvRereads(c, form, false, rt, ra, rb);
  }

  lemma TwinOverflow(c: CpuState, insn: u32)
    requires IsPlainOverflowForm(insn) && Xo(insn) != 616
    ensures PlainTrueOverflow(c, insn) == TrueOverflow(c, CarryTwin(insn), Ra(insn), Rb(insn))
  {
    hide Rt, Ra, Rb, Opcode, Bit;
  }

  lemma PlainSafeIsRight(cfg: Config, c: CpuState, mem: Regions, pc: u32, insn: u32)
    requires IsPlainOverflowForm(insn) && PlainSafe(insn)
    ensures PlainOvIsRight(cfg, c, mem, pc, insn)
  {
    hide PlainArith, OvIsRight, Execute, PlainTrueOverflow, Ov;
    if Xo(insn) == 616 {
      PlainExecutes(cfg, c, mem, pc, insn);
      NegateOvIsRight(c, insn);
    } else {
      PlainIsTwin(cfg, c, mem, pc, insn);
      SafeIsRight(c, CarryTwin(insn), Rt(insn), Ra(insn), Rb(insn));
    }
  }

  lemma PlainUnsafeIsWrong(cfg: Config, mem: Regions, pc: u32, insn: u32)
    requires IsPlainOverflowForm(insn) && !PlainSafe(insn)
    ensures !PlainOvIsRight(cfg, Misled(CarryTwin(insn), Rt(insn), Ra(insn), Rb(insn)), mem, pc, insn)
  {
    hide PlainArith, OvIsRight, Execute, PlainTrueOverflow, Misled, PlainOvIsRight, OverflowSafe;
    var form, rt, ra, rb := CarryTwin(insn), Rt(insn), Ra(insn), Rb(insn);
    PlainIsTwin(cfg, Misled(form, rt, ra, rb), mem, pc, insn);
    UnsafeIsWrong(form, rt, ra, rb);
  }
}
