/**
  The interpreter as the program runs it: a processor object and a memory
  object updated in place, proved to do what `Interpreter.Run` says.
 */
module Engine {
  import opened Words
  import opened MemoryModel
  import opened MemoryMapping
  import opened CpuModel
  import opened Interpreter

  class Cpu {
    var gpr: Gprs
    var fpr: Fprs
    var pc: u32
    var lr: u32
    var ctr: u32
    var cr: u32
    var xer: u32
    var fpscr: u32
    var reservationAddress: u32
    var reservationValid: bool

    function State(): CpuState
      reads this
    {
      CpuState(gpr, fpr, pc, lr, ctr, cr, xer, fpscr, reservationAddress, reservationValid)
    }

    constructor ()
      ensures State() == CpuState(seq(32, _ => 0), seq(32, _ => 0), 0, 0, 0, 0, 0, 0, 0, false)
    {
      gpr, fpr := seq(32, _ => 0), seq(32, _ => 0);
      pc, lr, ctr, cr, xer, fpscr := 0, 0, 0, 0, 0, 0;
      reservationAddress, reservationValid := 0, false;
    }

    method Assign(c: CpuState)
      modifies this
      ensures State() == c
    {
      gpr, fpr, pc, lr, ctr, cr, xer, fpscr := c.gpr, c.fpr, c.pc, c.lr, c.ctr, c.cr, c.xer, c.fpscr;
      reservationAddress, reservationValid := c.reservationAddress, c.reservationValid;
    }

    method SetCarry(carry: bool)
      modifies `xer
      ensures xer == WithCarry(old(xer), carry)
      ensures forall j: nat :: Bit(xer, j) == if j == 29 then carry else Bit(old(xer), j)
    {
      hide *;
      CarryMask(xer, carry);
      forall j: nat ensures Bit(WithCarry(xer, carry), j) == if j == 29 then carry else Bit(xer, j) {
        WithCarryBits(xer, carry, j);
      }
      if carry { xer := Or32(xer, 0x2000_0000); } else { xer := And32(xer, Not32(0x2000_0000)); }
    }

    method SetOverflow(overflow: bool)
      modifies `xer
      ensures xer == WithOverflow(old(xer), overflow)
      ensures forall j: nat :: Bit(xer, j)
                == if j == 30 then overflow else if j == 31 then overflow || Bit(old(xer), 31) else Bit(old(xer), j)
    {
      hide *;
      OverflowMask(xer, overflow);
      forall j: nat
        ensures Bit(WithOverflow(xer, overflow), j)
             == if j == 30 then overflow else if j == 31 then overflow || Bit(xer, 31) else Bit(xer, j)
      {
        WithOverflowBits(xer, overflow, j);
      }
      if overflow {
        xer := Or32(xer, Or32(0x8000_0000, 0x4000_0000));
      } else {
        xer := And32(xer, Not32(0x4000_0000));
      }
    }

    method SetCrField(field: nat, less: bool, greater: bool, equal: bool, so: bool)
      modifies `cr
      ensures cr == PutCrField(old(cr), field, CrNibble(less, greater, equal, so))
      ensures forall bi :: 0 <= bi < 32 ==>
                CrBit(cr, bi) == if bi / 4 != field then CrBit(old(cr), bi)
                                 else if bi % 4 == 0 then less else if bi % 4 == 1 then greater
                                 else if bi % 4 == 2 then equal else so
    {
      hide CrBit, PutCrField, Bit, And32, Or32, Not32, Shl32, Nibble;
      if field >= 8 {
        NoSuchField(cr, field, CrNibble(less, greater, equal, so));
        return;
      }
      var shift := 28 - 4 * field;
      var nibble := (if less then 8 else 0) + (if greater then 4 else 0) + (if equal then 2 else 0)
          + (if so then 1 else 0);
      CrFieldMask(cr, field, nibble);
      forall bi | 0 <= bi < 32
        ensures CrBit(PutCrField(cr, field, nibble), bi)
             == if bi / 4 != field then CrBit(cr, bi)
                else if bi % 4 == 0 then less else if bi % 4 == 1 then greater else if bi % 4 == 2 then equal else so
      {
        CrFieldReadsBack(cr, field, less, greater, equal, so, bi);
      }
      cr := Or32(And32(cr, Not32(Shl32(0xF, shift))), Shl32(nibble, shift));
    }

    method EvaluateBranchCondition(bo: nat, bi: nat) returns (taken: bool)
      modifies `ctr
      ensures taken == BranchTaken(old(State()), bo, bi)
      ensures ctr == CtrAfter(old(State()), bo)
    {
      var ctrOk := true;
      if !Bit(bo, 2) {
        ctr := Wrap32(ctr - 1);
        ctrOk := (ctr != 0) != Bit(bo, 1);
      }
      var condOk := Bit(bo, 4) || CrBit(cr, bi) == Bit(bo, 3);
      return ctrOk && condOk;
    }

    /**
      The carrying instructions of primary opcode 31: result, then CA, then OV
      from the registers as they now are, then CR0.
     */
    method CarryInstruction(form: CarryForm, oe: bool, rc: bool, rt: Reg, ra: Reg, rb: Reg)
      modifies this
      ensures State() == CarryArith(old(State()), form, oe, rc, rt, ra, rb)
    {
      hide WithCarry, WithOverflow, PutCrField, OverflowAfter, FirstAddend, SecondAddend, CarryIn;
      var carryIn := CarryIn(State(), form);
      var wide := FirstAddend(State(), form, ra) as int + SecondAddend(State(), form, rb) + carryIn;
      gpr := gpr[rt := Wrap32(wide)];
      SetCarry(wide >= 0x1_0000_0000);
      if oe { SetOverflow(OverflowAfter(State(), form, carryIn, rt, ra, rb)); }
      if rc { SetCrField(0, Signed32(gpr[rt]) < 0, Signed32(gpr[rt]) > 0, Signed32(gpr[rt]) == 0, So(xer)); }
    }

    /** mtcrf: one CR field at a time. */
    method CopyCrFields(from: u32, fxm: nat)
      modifies `cr
      ensures cr == CopyFields(old(cr), from, fxm, 0)
      ensures forall f :: 0 <= f < 8 ==> GetCrField(cr, f) == GetCrField(if Bit(fxm, 7 - f) then from else old(cr), f)
    {
      forall f | 0 <= f < 8
        ensures GetCrField(CopyFields(cr, from, fxm, 0), f) == GetCrField(if Bit(fxm, 7 - f) then from else cr, f)
      {
        CopiedFields(cr, from, fxm, 0, f);
      }
      hide GetCrField;
      for field := 0 to 8
        invariant CopyFields(old(cr), from, fxm, 0) == CopyFields(cr, from, fxm, field)
      {
        if Bit(fxm, 7 - field) { cr := PutCrField(cr, field, GetCrField(from, field)); }
      }
    }

    method RotateInstruction(insn: u32)
      modifies this
      ensures State() == Rotated(old(State()), insn, PpcMask(Rc(insn), Me(insn)))
    {
      var mask := BuildMask(Rc(insn), Me(insn));
      var c := Rotated(State(), insn, mask);
      gpr, cr := c.gpr, c.cr;
    }
  }

  datatype Stop = Stop(reason: StopReason, extra: nat, pc: u32, instruction: u32)

  function Outcome(stop: Option<Stop>, c: CpuState, mem: Regions): StepResult {
    match stop
    case None => Running(c, mem)
    case Some(s) => Stopped(c, mem, s.reason, s.extra, s.pc, s.instruction)
  }

  function Fault(reason: StopReason, pc: u32, insn: u32): Option<Stop> {
    Some(Stop(reason, 0, pc, insn))
  }

  method FindImportStub(bindings: seq<StubBinding>, address: u32) returns (kind: Option<StubKind>)
    ensures kind == FindStub(bindings, address)
  {
    for i := 0 to |bindings|
      invariant FindStub(bindings, address) == FindStub(bindings[i..], address)
    {
      if bindings[i].address == address { return Some(bindings[i].kind); }
    }
    return None;
  }

  method MoveBlock(memory: Memory, destination: u32, source: u32, count: u32) returns (ok: bool)
    modifies memory
    ensures ok == CopyBlock(old(memory.regions), destination, source, count).Some?
    ensures memory.regions == if ok then CopyBlock(old(memory.regions), destination, source, count).value
            else old(memory.regions)
  {
    hide ReadBytes, WriteBytes;
    if count > MAX_STUB_COUNT { return false; }
    if count == 0 { return true; }
    var bytes := memory.Read(source, count);
    if bytes.None? { return false; }
    ok := memory.Write(destination, bytes.value);
  }

  method ClearBlock(memory: Memory, destination: u32, value: u8, count: u32) returns (ok: bool)
    modifies memory
    ensures ok == FillBlock(old(memory.regions), destination, value, count).Some?
    ensures memory.regions == if ok then FillBlock(old(memory.regions), destination, value, count).value
            else old(memory.regions)
  {
    hide ReadBytes, WriteBytes;
    if count > MAX_STUB_COUNT { return false; }
    if count == 0 { return true; }
    ok := memory.Write(destination, seq(count, _ => value));
  }

  method ExecuteImportStub(cfg: Config, kind: StubKind, memory: Memory, cpu: Cpu) returns (ok: bool)
    modifies memory, cpu
    ensures ok == StubMemory(old(cpu.State()), old(memory.regions), kind).Some?
    ensures memory.regions == if ok then StubMemory(old(cpu.State()), old(memory.regions), kind).value
            else old(memory.regions)
    ensures cpu.State() == if ok then StubCpu(cfg, old(cpu.State()), kind) else old(cpu.State())
  {
    hide CopyBlock, FillBlock;
    match kind
    case BlockMoveData => ok := MoveBlock(memory, cpu.gpr[4], cpu.gpr[3], cpu.gpr[5]);
    case Memcpy | Memmove => ok := MoveBlock(memory, cpu.gpr[3], cpu.gpr[4], cpu.gpr[5]);
    case Memset => ok := ClearBlock(memory, cpu.gpr[3], cpu.gpr[4] % 0x100, cpu.gpr[5]);
    case Bzero => ok := ClearBlock(memory, cpu.gpr[3], 0, cpu.gpr[4]);
    case _ =>
      cpu.fpr := cpu.fpr[1 := cfg.host.libm(kind, cpu.fpr[1], cpu.fpr[2])];
      ok := true;
  }

  method ExecuteBranchDirect(memory: Memory, cpu: Cpu, pc: u32, insn: u32)
    modifies cpu
    ensures Running(cpu.State(), memory.regions) == BranchDirect(old(cpu.State()), memory.regions, pc, insn)
  {
    hide BranchTaken, CtrAfter, Bd, Li;
    if RecordBit(insn) { cpu.lr := cpu.pc; }
    if Opcode(insn) == 18 {
      cpu.pc := Wrap32(if Absolute(insn) then Li(insn) else pc + Li(insn));
    } else {
      var taken := cpu.EvaluateBranchCondition(Rt(insn), Ra(insn));
      if taken { cpu.pc := Wrap32(if Absolute(insn) then Bd(insn) else pc + Bd(insn)); }
    }
  }

  method ExecuteBranchRegister(cfg: Config, memory: Memory, cpu: Cpu, insn: u32) returns (stop: Option<Stop>)
    modifies memory, cpu
    ensures Outcome(stop, cpu.State(), memory.regions)
            == BranchRegister(cfg, old(cpu.State()), old(memory.regions), insn)
  {
    hide BranchTaken, CtrAfter, StubMemory, StubCpu;
    var viaCtr := Xo(insn) == 528;
    var target := (if viaCtr then cpu.ctr else cpu.lr) / 4 * 4;
    var taken := cpu.EvaluateBranchCondition(Rt(insn), Ra(insn));
    if taken {
      if viaCtr && target == 0 && InImports(cfg, cpu.gpr[12]) {
        var stub := FindImportStub(cfg.importStubs, cpu.gpr[12]);
        if stub.None? { return Some(Stop(ImportTrap, 1, cpu.gpr[12], insn)); }
        ghost var c1 := cpu.State();
        var ok := ExecuteImportStub(cfg, stub.value, memory, cpu);
        if !ok { return Some(Stop(MemoryFault, 1, cpu.gpr[12], insn)); }
        assert StubCpu(cfg, c1, stub.value).lr == c1.lr by { StubKeepsLink(cfg, c1, stub.value); }
        cpu.pc := cpu.lr;
        return None;
      }
      if RecordBit(insn) { cpu.lr := cpu.pc; }
      cpu.pc := target;
    }
    return None;
  }

  lemma StubKeepsLink(cfg: Config, c: CpuState, kind: StubKind)
    ensures StubCpu(cfg, c, kind).lr == c.lr
  {
  }

  method ExecuteAccess(cfg: Config, memory: Memory, cpu: Cpu, pc: u32, insn: u32, a: Access)
    returns (stop: Option<Stop>)
    modifies memory, cpu
    ensures Outcome(stop, cpu.State(), memory.regions)
         == AccessOp(cfg, old(cpu.State()), old(memory.regions), pc, insn, a)
  {
    hide ReadBytes, WriteBytes, Loaded, StoreData, AccessAddress, LoadSize;
    var ea, rt, ra := AccessAddress(cpu.State(), insn), Rt(insn), Ra(insn);
    match a {
    case Load(k, u) =>
      var b := memory.Read(ea, LoadSize(k));
      if b.None? { return Fault(MemoryFault, pc, insn); }
      PeekLength(memory.regions, ea, LoadSize(k));
      cpu.Assign(Loaded(cfg, cpu.State(), k, rt, b.value));
      if u { cpu.gpr := cpu.gpr[ra := ea]; }
    case Store(k, u) =>
      var ok := memory.Write(ea, StoreData(cfg, cpu.State(), k, rt));
      if !ok { return Fault(MemoryFault, pc, insn); }
      if u { cpu.gpr := cpu.gpr[ra := ea]; }
    }
    return None;
  }

  /** lmw and stmw: one register at a time, keeping what was done before a fault. */
  method ExecuteMultiple(memory: Memory, cpu: Cpu, pc: u32, insn: u32) returns (stop: Option<Stop>)
    requires Opcode(insn) == 46 || Opcode(insn) == 47
    modifies memory, cpu
    ensures Outcome(stop, cpu.State(), memory.regions) == MultipleOp(old(cpu.State()), old(memory.regions), pc, insn)
  {
    var ea := EaD(cpu.State(), Ra(insn), SignExtend16(insn));
    var ok;
    if Opcode(insn) == 46 {
      ok := LoadRegisters(memory, cpu, ea, Rt(insn));
    } else {
      ok := StoreRegisters(memory, cpu, ea, Rt(insn));
    }
    return if ok then None else Fault(MemoryFault, pc, insn);
  }

  method LoadRegisters(memory: Memory, cpu: Cpu, start: u32, first: Reg) returns (ok: bool)
    modifies cpu
    ensures (cpu.State(), ok) == LoadMultiple(old(cpu.State()), memory.regions, start, first)
  {
    hide ReadBytes, Word, Peek;
    var ea, reg: nat := start, first;
    while reg < 32
      invariant reg <= 32
      invariant LoadMultiple(old(cpu.State()), memory.regions, start, first)
              == LoadMultiple(cpu.State(), memory.regions, ea, reg)
    {
      var b := memory.Read(ea, 4);
      if b.None? { return false; }
      PeekLength(memory.regions, ea, 4);
      cpu.gpr := cpu.gpr[reg := Word(b.value)];
      reg, ea := reg + 1, Wrap32(ea as int + 4);
    }
    return true;
  }

  method StoreRegisters(memory: Memory, cpu: Cpu, start: u32, first: Reg) returns (ok: bool)
    modifies memory
    ensures (memory.regions, ok) == StoreMultiple(cpu.gpr, old(memory.regions), start, first)
  {
    hide WriteBytes, WordBytes;
    var ea, reg: nat := start, first;
    while reg < 32
      invariant reg <= 32
      invariant StoreMultiple(cpu.gpr, old(memory.regions), start, first)
              == StoreMultiple(cpu.gpr, memory.regions, ea, reg)
    {
      var written := memory.Write(ea, WordBytes(cpu.gpr[reg]));
      if !written { return false; }
      reg, ea := reg + 1, Wrap32(ea as int + 4);
    }
    return true;
  }

  method ExecuteReserved(memory: Memory, cpu: Cpu, pc: u32, insn: u32) returns (stop: Option<Stop>)
    modifies memory, cpu
    ensures Outcome(stop, cpu.State(), memory.regions) == ReservedOp(old(cpu.State()), old(memory.regions), pc, insn)
  {
    hide ReadBytes, WriteBytes, WordBytes, Word, PutCrField, EaX;
    var ea, rt := EaX(cpu.State(), Ra(insn), Rb(insn)), Rt(insn);
    if Xo(insn) == 1014 {
      var zeros := seq(32, _ => 0);
      var ok := memory.Write(ea - ea % 32, zeros);
      return if ok then None else Fault(MemoryFault, pc, insn);
    }
    if ea % 4 != 0 { return Fault(MemoryFault, pc, insn); }
    if Xo(insn) == 20 {
      var b := memory.Read(ea, 4);
      if b.None? { return Fault(MemoryFault, pc, insn); }
      PeekLength(memory.regions, ea, 4);
      cpu.gpr := cpu.gpr[rt := Word(b.value)];
      cpu.reservationAddress, cpu.reservationValid := ea, true;
      return None;
    }
    var success := cpu.reservationValid && cpu.reservationAddress == ea;
    if success {
      var ok := memory.Write(ea, WordBytes(cpu.gpr[rt]));
      if !ok { return Fault(MemoryFault, pc, insn); }
    }
    cpu.reservationValid := false;
    cpu.SetCrField(0, false, false, success, So(cpu.xer));
    return None;
  }

  /** Instructions that touch registers only. */
  method ExecuteRegister(cfg: Config, memory: Memory, cpu: Cpu, pc: u32, insn: u32) returns (stop: Option<Stop>)
    modifies cpu
    ensures Outcome(stop, cpu.State(), memory.regions)
         == match RegisterOp(cfg, old(cpu.State()), insn)
            case Done(c) => Running(c, memory.regions)
            case Refused(reason) => FaultAt(old(cpu.State()), memory.regions, reason, pc, insn)
  {
    hide CarryArith, Op31Plain, CrOp, FpOp, ImmediateOp, SystemCallOp, Rotated, CarryFormOf;
    var op := Opcode(insn);
    if op == 31 && CarryFormOf(Xo(insn)).Some? {
      cpu.CarryInstruction(CarryFormOf(Xo(insn)).value, Xo(insn) >= 512, RecordBit(insn), Rt(insn), Ra(insn), Rb(insn));
    } else if op == 20 || op == 21 || op == 23 {
      cpu.RotateInstruction(insn);
    } else if op == 31 && Xo(insn) == 144 {
      MtcrfIsCopy(cfg, cpu.State(), insn);
      cpu.CopyCrFields(cpu.gpr[Rt(insn)], insn / 0x1000 % 256);
    } else {
      var r := RegisterOp(cfg, cpu.State(), insn);
      match r
      case Refused(reason) => return Fault(reason, pc, insn);
      case Done(c) => cpu.Assign(c);
    }
    return None;
  }

  lemma MtcrfIsCopy(cfg: Config, c: CpuState, insn: u32)
    requires Opcode(insn) == 31 && Xo(insn) == 144
    ensures RegisterOp(cfg, c, insn) == Done(c.(cr := CopyFields(c.cr, c.gpr[Rt(insn)], insn / 0x1000 % 256, 0)))
  {
    hide CarryArith, CrOp, FpOp, ImmediateOp, SystemCallOp, Rotated, ShiftRightAlgebraic, ShiftWordAlgebraic, SprOp;
    hide MoveXerToCr, CopyFields;
    assert CarryFormOf(144).None? && PlainArith(c, insn).None?;
    assert LogicResult(144, c.gpr[Rt(insn)], c.gpr[Rb(insn)]).None?;
    assert ProductResult(144, c.gpr[Ra(insn)], c.gpr[Rb(insn)]).None?;
  }

  method ExecuteInstruction(cfg: Config, memory: Memory, cpu: Cpu, pc: u32, insn: u32) returns (stop: Option<Stop>)
    modifies memory, cpu
    ensures Outcome(stop, cpu.State(), memory.regions) == Execute(cfg, old(cpu.State()), old(memory.regions), pc, insn)
  {
    hide RegisterOp, AccessOp, MultipleOp, ReservedOp, BranchDirect, BranchRegister, AccessOf;
    var op := Opcode(insn);
    if IsBranch(insn) {
      if op == 19 {
        stop := ExecuteBranchRegister(cfg, memory, cpu, insn);
      } else {
        ExecuteBranchDirect(memory, cpu, pc, insn);
        stop := None;
      }
    } else if AccessOf(insn).Some? {
      stop := ExecuteAccess(cfg, memory, cpu, pc, insn, AccessOf(insn).value);
    } else if op == 46 || op == 47 {
      stop := ExecuteMultiple(memory, cpu, pc, insn);
    } else if IsReserved(insn) {
      stop := ExecuteReserved(memory, cpu, pc, insn);
    } else {
      stop := ExecuteRegister(cfg, memory, cpu, pc, insn);
    }
  }

  method StepOnce(cfg: Config, memory: Memory, cpu: Cpu) returns (stop: Option<Stop>)
    modifies memory, cpu
    ensures Outcome(stop, cpu.State(), memory.regions) == Step(cfg, old(cpu.State()), old(memory.regions))
  {
    hide Execute, ReadBytes, Word;
    if cpu.pc == cfg.returnAddress { return Fault(Returned, cpu.pc, 0); }
    if InImports(cfg, cpu.pc) { return Fault(ImportTrap, cpu.pc, 0); }
    if !Executable(memory.regions, cpu.pc, 4) { return Fault(MemoryFault, cpu.pc, 0); }
    var b := memory.Read(cpu.pc, 4);
    if b.None? { return Fault(MemoryFault, cpu.pc, 0); }
    PeekLength(memory.regions, cpu.pc, 4);
    var currentPc := cpu.pc;
    cpu.pc := Wrap32(cpu.pc + 4);
    stop := ExecuteInstruction(cfg, memory, cpu, currentPc, Word(b.value));
  }

  method RunLoop(cfg: Config, memory: Memory, cpu: Cpu, limit: nat)
    returns (reason: StopReason, instructions: nat, pc: u32, instruction: u32)
    modifies memory, cpu
    ensures RunResult(reason, instructions, pc, instruction, cpu.State(), memory.regions)
         == Run(cfg, old(cpu.State()), old(memory.regions), 0, limit)
  {
    hide Step;
    var count := 0;
    while count < limit
      invariant count <= limit
      invariant Run(cfg, old(cpu.State()), old(memory.regions), 0, limit)
              == Run(cfg, cpu.State(), memory.regions, count, limit)
    {
      var stop := StepOnce(cfg, memory, cpu);
      if stop.Some? {
        return stop.value.reason, count + stop.value.extra, stop.value.pc, stop.value.instruction;
      }
      count := count + 1;
    }
    return InstructionLimit, limit, cpu.pc, 0;
  }
}
