/**
  Where the interpreter and the architecture (PowerPC User Instruction Set
  Architecture, Book I) part, and exactly when they agree: the opcode of
  lhzux, and the link register after bclrl and bcctrl.
 */
module Conformance {
  import opened Words
  import opened MemoryModel
  import opened CpuModel
  import opened Interpreter

  // ----- load halfword and zero with update indexed -----

  /** What the architecture says of opcode 31, extended opcode 311. */
  function HalfwordUpdateLoad(c: CpuState, mem: Regions, pc: u32, insn: u32): StepResult {
    var ea := EaX(c, Ra(insn), Rb(insn));
    var b := ReadBytes(mem, ea, 2);
    if b.None? then FaultAt(c, mem, MemoryFault, pc, insn)
    else Running(c.(gpr := c.gpr[Rt(insn) := Half(b.value)][Ra(insn) := ea]), mem)
  }

  lemma AccessIsNotBranch(insn: u32)
    requires Opcode(insn) == 31
    ensures !IsBranch(insn)
  {
  }

  /** Extended opcode 331 performs it. */
  lemma Xo331Loads(cfg: Config, c: CpuState, mem: Regions, pc: u32, insn: u32)
    requires Opcode(insn) == 31 && Xo(insn) == 331
    ensures Execute(cfg, c, mem, pc, insn) == HalfwordUpdateLoad(c, mem, pc, insn)
  {
    hide ReadBytes, MultipleOp, ReservedOp, RegisterOp, BranchRegister, BranchDirect, Half, Rt, Ra, Rb, EaD;
    AccessIsNotBranch(insn);
    Xo331Access();
    hide XFormAccess, DFormAccess;
  }

  lemma Xo331Access()
    ensures XFormAccess(331) == Some(Load(Lhz, true)) && LoadSize(Lhz) == 2
  {
  }

  /** Extended opcode 311 is refused, whatever the operands. */
  lemma Xo311IsRefused(cfg: Config, c: CpuState, mem: Regions, pc: u32, insn: u32)
    requires Opcode(insn) == 31 && Xo(insn) == 311
    ensures Execute(cfg, c, mem, pc, insn) == FaultAt(c, mem, UnsupportedInstruction, pc, insn)
  {
    hide AccessOp, MultipleOp, ReservedOp, BranchRegister, BranchDirect, RegisterOp, Rt, Ra, Rb;
    AccessIsNotBranch(insn);
    Xo311Decodes(cfg, c, insn);
    hide XFormAccess, DFormAccess;
  }

  lemma Xo311Decodes(cfg: Config, c: CpuState, insn: u32)
    requires Opcode(insn) == 31 && Xo(insn) == 311
    ensures XFormAccess(311).None? && RegisterOp(cfg, c, insn) == Refused(UnsupportedInstruction)
  {
    hide CarryArith, CrOp, FpOp, ImmediateOp, SystemCallOp, Rotated, ShiftRightAlgebraic, ShiftWordAlgebraic, SprOp;
    hide MoveXerToCr, CompareInto, TrapCondition, CopyFields, Rt, Ra, Rb;
    assert PlainArith(c, insn).None?;
    assert LogicResult(311, c.gpr[Rt(insn)], c.gpr[Rb(insn)]).None?;
    assert ProductResult(311, c.gpr[Ra(insn)], c.gpr[Rb(insn)]).None?;
  }

  /**
    An instruction of opcode 31 that is one or the other does what the
    architecture says exactly when it is the wrong one.
   */
  lemma HalfwordUpdateExactly(cfg: Config, c: CpuState, mem: Regions, pc: u32, insn: u32)
    requires Opcode(insn) == 31 && (Xo(insn) == 311 || Xo(insn) == 331)
    ensures Execute(cfg, c, mem, pc, insn) == HalfwordUpdateLoad(c, mem, pc, insn) <==> Xo(insn) == 331
  {
    hide Execute, ReadBytes, Half, Opcode, Rt, Ra, Rb;
    if Xo(insn) == 331 { Xo331Loads(cfg, c, mem, pc, insn); } else { Xo311IsRefused(cfg, c, mem, pc, insn); }
  }

  // ----- the link register of bclr and bcctr -----

  predicate IsBranchToRegister(insn: u32) {
    Opcode(insn) == 19 && (Xo(insn) == 16 || Xo(insn) == 528)
  }

  /** The architecture sets LR by LK alone, whether or not the branch is taken; c.pc is already past the instruction. */
  function ArchitectedLink(c: CpuState, insn: u32): u32 {
    if RecordBit(insn) then c.pc else c.lr
  }

  /** Taken, and not classified as a call of an imported routine: bcctr to 0 with an import address in r12. */
  predicate FollowedNormally(cfg: Config, c: CpuState, insn: u32) {
    && BranchTaken(c, Rt(insn), Ra(insn))
    && !(Xo(insn) == 528 && c.ctr / 4 * 4 == 0 && InImports(cfg, c.gpr[12]))
  }

  lemma LinkAfterBranch(cfg: Config, c: CpuState, mem: Regions, insn: u32)
    requires IsBranchToRegister(insn)
    ensures BranchRegister(cfg, c, mem, insn).c.lr
         == if FollowedNormally(cfg, c, insn) && RecordBit(insn) then c.pc else c.lr
  {
    hide BranchTaken, CtrAfter, StubMemory, FindStub, Rt, Ra, RecordBit, InImports, Opcode;
    assert forall kind: StubKind, d: CpuState :: StubCpu(cfg, d, kind).lr == d.lr;
  }

  /**
    LR agrees with the architecture exactly when LK is 0, the branch is followed
    normally, or LR already held the return address.
   */
  lemma LinkAgreesExactly(cfg: Config, c: CpuState, mem: Regions, pc: u32, insn: u32)
    requires IsBranchToRegister(insn)
    ensures Execute(cfg, c, mem, pc, insn).c.lr == ArchitectedLink(c, insn)
       <==> !RecordBit(insn) || FollowedNormally(cfg, c, insn) || c.lr == c.pc
  {
    hide BranchRegister, FollowedNormally, RecordBit;
    LinkAfterBranch(cfg, c, mem, insn);
    assert Execute(cfg, c, mem, pc, insn) == BranchRegister(cfg, c, mem, insn) by {
      hide AccessOp, MultipleOp, ReservedOp, RegisterOp, BranchDirect;
    }
    hide Execute;
  }
}
