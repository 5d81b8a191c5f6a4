/**
  A whole program run: the five-word loop that counts r3 down to zero and
  returns (scripts/ppc_lab_platform.py), executed from any start value.
 */
module Countdown {
  import opened Words
  import opened MemoryModel
  import opened CpuModel
  import opened Interpreter
  import opened RunLaws

  const CMPWI: u32 := 0x2C03_0000 // cmpwi r3,0
  const BEQ: u32 := 0x4182_000C // beq +12
  const ADDI: u32 := 0x3863_FFFF // addi r3,r3,-1
  const B: u32 := 0x4BFF_FFF4 // b -12
  const BLR: u32 := 0x4E80_0020 // blr

  const PROGRAM: seq<u32> := [CMPWI, BEQ, ADDI, B, BLR]

  /** The address holds the word, and a run that gets there executes it. */
  predicate Executes(cfg: Config, mem: Regions, a: u32, insn: u32) {
    Fetch(mem, a) == Some(insn) && a != cfg.returnAddress && !InImports(cfg, a)
  }

  predicate ProgramAt(cfg: Config, mem: Regions, base: u32) {
    base + 20 <= 0x1_0000_0000 && forall i :: 0 <= i < 5 ==> Executes(cfg, mem, base + 4 * i, PROGRAM[i])
  }

  lemma StepExecutes(cfg: Config, c: CpuState, mem: Regions, insn: u32)
    requires Executes(cfg, mem, c.pc, insn)
    ensures Step(cfg, c, mem) == Execute(cfg, c.(pc := Wrap32(c.pc + 4)), mem, c.pc, insn)
  {
    hide Execute, Fetch;
  }

  function Compared(c: CpuState): CpuState {
    CompareInto(c.(pc := Wrap32(c.pc + 4)), 0, Signed32(c.gpr[3]), 0)
  }

  lemma ExecuteCmpwi(cfg: Config, c: CpuState, mem: Regions, pc: u32)
    ensures Execute(cfg, c, mem, pc, CMPWI) == Running(CompareInto(c, 0, Signed32(c.gpr[3]), 0), mem)
  {
    hide CompareInto, XFormAccess, AccessOp, MultipleOp, ReservedOp, BranchRegister, BranchDirect, CrOp, FpOp;
    hide SystemCallOp, Rotated, Op31, TrapCondition, AddWithCarry, Bitwise32, RecordCr0, RecordIf, Signed32;
  }

  lemma ExecuteAddi(cfg: Config, c: CpuState, mem: Regions, pc: u32)
    ensures Execute(cfg, c, mem, pc, ADDI) == Running(PutGpr(c, 3, Wrap32(c.gpr[3] as int - 1)), mem)
  {
    hide CompareInto, XFormAccess, AccessOp, MultipleOp, ReservedOp, BranchRegister, BranchDirect, CrOp, FpOp;
    hide SystemCallOp, Rotated, Op31, TrapCondition, AddWithCarry, Bitwise32, RecordCr0, RecordIf, Signed32;
  }

  lemma ExecuteBeq(cfg: Config, c: CpuState, mem: Regions, pc: u32)
    ensures Execute(cfg, c, mem, pc, BEQ) == Running(if CrBit(c.cr, 2) then c.(pc := Wrap32(pc + 12)) else c, mem)
  {
    hide CrBit, AccessOp, XFormAccess, MultipleOp, ReservedOp, BranchRegister, RegisterOp;
  }

  lemma ExecuteB(cfg: Config, c: CpuState, mem: Regions, pc: u32)
    ensures Execute(cfg, c, mem, pc, B) == Running(c.(pc := Wrap32(pc as int - 12)), mem)
  {
    hide BranchTaken, AccessOp, XFormAccess, MultipleOp, ReservedOp, BranchRegister, RegisterOp;
  }

  lemma ExecuteBlr(cfg: Config, c: CpuState, mem: Regions, pc: u32)
    ensures Execute(cfg, c, mem, pc, BLR) == Running(c.(pc := c.lr / 4 * 4), mem)
  {
    hide CrBit, AccessOp, XFormAccess, MultipleOp, ReservedOp, BranchDirect, RegisterOp, StubMemory, StubCpu, InImports;
  }

  lemma StepCmpwi(cfg: Config, c: CpuState, mem: Regions)
    requires Executes(cfg, mem, c.pc, CMPWI)
    ensures Step(cfg, c, mem) == Running(Compared(c), mem)
    ensures CrBit(Compared(c).cr, 2) <==> c.gpr[3] == 0
  {
    hide Step, Execute, Executes, PutCrField, CrNibble, CrBit;
    StepExecutes(cfg, c, mem, CMPWI);
    ExecuteCmpwi(cfg, c.(pc := Wrap32(c.pc + 4)), mem, c.pc);
    var v := Signed32(c.gpr[3]);
    CrFieldReadsBack(c.cr, 0, v < 0, v > 0, v == 0, So(c.xer), 2);
  }

  lemma StepBeq(cfg: Config, c: CpuState, mem: Regions)
    requires Executes(cfg, mem, c.pc, BEQ) && c.pc + 12 < 0x1_0000_0000
    ensures Step(cfg, c, mem) == Running(c.(pc := if CrBit(c.cr, 2) then c.pc + 12 else c.pc + 4), mem)
  {
    hide Step, Execute, Executes, CrBit;
    StepExecutes(cfg, c, mem, BEQ);
    ExecuteBeq(cfg, c.(pc := Wrap32(c.pc + 4)), mem, c.pc);
  }

  lemma StepAddi(cfg: Config, c: CpuState, mem: Regions)
    requires Executes(cfg, mem, c.pc, ADDI) && c.pc + 4 < 0x1_0000_0000
    ensures Step(cfg, c, mem) == Running(PutGpr(c, 3, Wrap32(c.gpr[3] as int - 1)).(pc := c.pc + 4), mem)
  {
    hide Step, Execute, Executes;
    StepExecutes(cfg, c, mem, ADDI);
    ExecuteAddi(cfg, c.(pc := Wrap32(c.pc + 4)), mem, c.pc);
  }

  lemma StepB(cfg: Config, c: CpuState, mem: Regions)
    requires Executes(cfg, mem, c.pc, B) && c.pc >= 12
    ensures Step(cfg, c, mem) == Running(c.(pc := c.pc - 12), mem)
  {
    hide Step, Execute, Executes;
    StepExecutes(cfg, c, mem, B);
    ExecuteB(cfg, c.(pc := Wrap32(c.pc + 4)), mem, c.pc);
  }

  lemma StepBlr(cfg: Config, c: CpuState, mem: Regions)
    requires Executes(cfg, mem, c.pc, BLR)
    ensures Step(cfg, c, mem) == Running(c.(pc := c.lr / 4 * 4), mem)
  {
    hide Step, Execute, Executes;
    StepExecutes(cfg, c, mem, BLR);
    ExecuteBlr(cfg, c.(pc := Wrap32(c.pc + 4)), mem, c.pc);
  }

  /** Two runs that continue alike: one step of the first has been taken. */
  lemma OneStep(cfg: Config, c: CpuState, mem: Regions, c': CpuState, count: nat, limit: nat)
    requires Step(cfg, c, mem) == Running(c', mem) && count < limit
    ensures Run(cfg, c, mem, count, limit) == Run(cfg, c', mem, count + 1, limit)
  {
    hide Step;
  }

  lemma ProgramWords(cfg: Config, mem: Regions, base: u32)
    requires ProgramAt(cfg, mem, base)
    ensures Executes(cfg, mem, base, CMPWI) && Executes(cfg, mem, base + 4, BEQ) && Executes(cfg, mem, base + 8, ADDI)
         && Executes(cfg, mem, base + 12, B) && Executes(cfg, mem, base + 16, BLR) && base + 20 <= 0x1_0000_0000
  {
    hide Executes;
    assert PROGRAM[0] == CMPWI && PROGRAM[1] == BEQ && PROGRAM[2] == ADDI && PROGRAM[3] == B && PROGRAM[4] == BLR;
    assert Executes(cfg, mem, base + 4 * 0, PROGRAM[0]);
  }

  /** Compare and branch: on to the loop body, or out of the loop. */
  lemma CompareAndBranch(cfg: Config, c: CpuState, mem: Regions, count: nat, limit: nat) returns (c': CpuState)
    requires ProgramAt(cfg, mem, c.pc) && count + 2 <= limit
    ensures c'.pc == (if c.gpr[3] == 0 then c.pc + 16 else c.pc + 8) && c'.lr == c.lr && c'.gpr == c.gpr
    ensures Run(cfg, c, mem, count, limit) == Run(cfg, c', mem, count + 2, limit)
  {
    hide Step, Run, ProgramAt, Executes, CrBit, PutCrField, CrNibble, Signed32;
    ProgramWords(cfg, mem, c.pc);
    StepCmpwi(cfg, c, mem);
    var c1 := Compared(c);
    OneStep(cfg, c, mem, c1, count, limit);
    StepBeq(cfg, c1, mem);
    c' := c1.(pc := if c.gpr[3] == 0 then c.pc + 16 else c.pc + 8);
    OneStep(cfg, c1, mem, c', count + 1, limit);
  }

  /** One trip round the loop. */
  lemma Iteration(cfg: Config, c: CpuState, mem: Regions, count: nat, limit: nat) returns (c': CpuState)
    requires ProgramAt(cfg, mem, c.pc) && c.gpr[3] > 0 && count + 4 <= limit
    ensures c'.pc == c.pc && c'.lr == c.lr && c'.gpr[3] == c.gpr[3] - 1
    ensures Run(cfg, c, mem, count, limit) == Run(cfg, c', mem, count + 4, limit)
  {
    hide Step, Run, ProgramAt, Executes;
    ProgramWords(cfg, mem, c.pc);
    var c2 := CompareAndBranch(cfg, c, mem, count, limit);
    StepAddi(cfg, c2, mem);
    var c3 := PutGpr(c2, 3, Wrap32(c2.gpr[3] as int - 1)).(pc := c2.pc + 4);
    OneStep(cfg, c2, mem, c3, count + 2, limit);
    StepB(cfg, c3, mem);
    c' := c3.(pc := c.pc);
    OneStep(cfg, c3, mem, c', count + 3, limit);
  }

  /** The last, partial trip: compare, leave the loop, return. */
  lemma Finish(cfg: Config, c: CpuState, mem: Regions, count: nat, limit: nat)
    requires ProgramAt(cfg, mem, c.pc) && c.gpr[3] == 0
    requires c.lr == cfg.returnAddress && c.lr % 4 == 0
    requires count + 3 < limit
    ensures Run(cfg, c, mem, count, limit).reason == Returned
    ensures Run(cfg, c, mem, count, limit).instructions == count + 3
    ensures Run(cfg, c, mem, count, limit).pc == cfg.returnAddress
    ensures Run(cfg, c, mem, count, limit).c.gpr == c.gpr && Run(cfg, c, mem, count, limit).mem == mem
  {
    hide Step, Run, ProgramAt, Executes;
    ProgramWords(cfg, mem, c.pc);
    var c2 := CompareAndBranch(cfg, c, mem, count, limit);
    StepBlr(cfg, c2, mem);
    var c3 := c2.(pc := c2.lr / 4 * 4);
    OneStep(cfg, c2, mem, c3, count + 2, limit);
    RunReturns(cfg, c3, mem, count + 3, limit);
  }

  lemma RunReturns(cfg: Config, c: CpuState, mem: Regions, count: nat, limit: nat)
    requires c.pc == cfg.returnAddress && count < limit
    ensures Run(cfg, c, mem, count, limit) == RunResult(Returned, count, c.pc, 0, c, mem)
  {
    hide Execute, Fetch;
  }

  lemma {:induction false} CountsDown(cfg: Config, c: CpuState, mem: Regions, count: nat, limit: nat)
    requires ProgramAt(cfg, mem, c.pc)
    requires c.lr == cfg.returnAddress && c.lr % 4 == 0
    requires count + 4 * c.gpr[3] as int + 3 < limit
    ensures var r := Run(cfg, c, mem, count, limit);
            && r.reason == Returned && r.instructions == count + 4 * c.gpr[3] as int + 3
            && r.pc == cfg.returnAddress && r.c.gpr[3] == 0 && r.mem == mem
    decreases c.gpr[3]
  {
    hide Run, ProgramAt;
    if c.gpr[3] == 0 {
      Finish(cfg, c, mem, count, limit);
    } else {
      var c' := Iteration(cfg, c, mem, count, limit);
      CountsDown(cfg, c', mem, count + 4, limit);
    }
  }

  lemma StopAtOnceCountsNothing(cfg: Config, c: CpuState, mem: Regions)
    ensures var s := Step(cfg, c, mem); s.Stopped? && s.reason == Returned ==> s.extra == 0
  {
    hide Execute, Fetch;
    var insn := Fetch(mem, c.pc);
    if insn.Some? { ExecuteNeverReturns(cfg, c.(pc := Wrap32(c.pc + 4)), mem, c.pc, insn.value); }
  }

  lemma ExecuteNeverReturns(cfg: Config, c: CpuState, mem: Regions, pc: u32, insn: u32)
    ensures Execute(cfg, c, mem, pc, insn).Stopped? ==> Execute(cfg, c, mem, pc, insn).reason != Returned
  {
    hide RegisterOp;
    RegisterOpRefuses(cfg, c, insn);
  }

  lemma {:induction false} ReturnsWithinLimit(cfg: Config, c: CpuState, mem: Regions, count: nat, limit: nat)
    requires Run(cfg, c, mem, count, limit).reason == Returned
    ensures Run(cfg, c, mem, count, limit).instructions < limit
    decreases limit - count
  {
    hide Step;
    if count < limit {
      StopAtOnceCountsNothing(cfg, c, mem);
      var s := Step(cfg, c, mem);
      if s.Running? { ReturnsWithinLimit(cfg, s.c, s.mem, count + 1, limit); }
    }
  }

  /**
    Started with r3 = n, the loop returns with r3 = 0 after exactly 4n + 3
    instructions if the limit is larger than that, and otherwise uses up the
    limit.
   */
  lemma CountdownRun(cfg: Config, c: CpuState, mem: Regions, limit: nat)
    requires ProgramAt(cfg, mem, c.pc)
    requires c.lr == cfg.returnAddress && c.lr % 4 == 0
    ensures var n, r := c.gpr[3] as int, Run(cfg, c, mem, 0, limit);
            if limit > 4 * n + 3
            then r.reason == Returned && r.instructions == 4 * n + 3 && r.pc == cfg.returnAddress && r.c.gpr[3] == 0
                && r.mem == mem
            else r.reason == InstructionLimit && r.instructions == limit
  {
    hide ProgramAt, Run;
    var n := c.gpr[3] as int;
    if limit > 4 * n + 3 {
      CountsDown(cfg, c, mem, 0, limit);
    } else {
      var all := 4 * n + 4;
      CountsDown(cfg, c, mem, 0, all);
      RunContinues(cfg, c, mem, 0, limit, all);
      var r := Run(cfg, c, mem, 0, limit);
      if r.reason == Returned { ReturnsWithinLimit(cfg, c, mem, 0, limit); }
      LimitReported(cfg, c, mem, 0, limit);
    }
  }

  lemma {:induction false} LimitReported(cfg: Config, c: CpuState, mem: Regions, count: nat, limit: nat)
    ensures var r := Run(cfg, c, mem, count, limit); r.reason == InstructionLimit ==> r.instructions == limit
    decreases limit - count
  {
    hide Step;
    if count < limit {
      StepNeverReportsLimit(cfg, c, mem);
      var s := Step(cfg, c, mem);
      if s.Running? { LimitReported(cfg, s.c, s.mem, count + 1, limit); }
    }
  }
}
