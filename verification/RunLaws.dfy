/** Laws of whole runs: splitting at any limit, and what no run can change. */
module RunLaws {
  import opened Words
  import opened MemoryModel
  import opened CpuModel
  import opened Interpreter

  // ----- splitting -----

  lemma ExecuteNeverReportsLimit(cfg: Config, c: CpuState, mem: Regions, pc: u32, insn: u32)
    ensures Execute(cfg, c, mem, pc, insn).Stopped? ==> Execute(cfg, c, mem, pc, insn).reason != InstructionLimit
  {
    hide RegisterOp;
    RegisterOpRefuses(cfg, c, insn);
  }

  lemma StepNeverReportsLimit(cfg: Config, c: CpuState, mem: Regions)
    ensures Step(cfg, c, mem).Stopped? ==> Step(cfg, c, mem).reason != InstructionLimit
  {
    hide Execute, Fetch;
    var insn := Fetch(mem, c.pc);
    if insn.Some? {
      ExecuteNeverReportsLimit(cfg, c.(pc := Wrap32(c.pc + 4)), mem, c.pc, insn.value);
    }
  }

  function Later(r: RunResult, m: nat): RunResult {
    r.(instructions := m + r.instructions)
  }

  /** Starting the count elsewhere moves the reported count by as much. */
  lemma {:induction false} RunOffset(cfg: Config, c: CpuState, mem: Regions, k: nat, count: nat, limit: nat)
    ensures Run(cfg, c, mem, k + count, k + limit) == Later(Run(cfg, c, mem, count, limit), k)
    decreases limit - count, 1
  {
    hide Step;
    if count < limit { ProceedOffset(cfg, Step(cfg, c, mem), k, count, limit); }
  }

  lemma {:induction false} ProceedOffset(cfg: Config, s: StepResult, k: nat, count: nat, limit: nat)
    requires count < limit
    ensures Proceed(cfg, s, k + count, k + limit) == Later(Proceed(cfg, s, count, limit), k)
    decreases limit - count, 0
  {
    if s.Running? { RunOffset(cfg, s.c, s.mem, k, count + 1, limit); }
  }

  function Resumed(cfg: Config, first: RunResult, m: nat, limit: nat): RunResult {
    if first.reason == InstructionLimit then Run(cfg, first.c, first.mem, m, limit) else first
  }

  lemma {:induction false} RunContinues(cfg: Config, c: CpuState, mem: Regions, count: nat, m: nat, limit: nat)
    requires count <= m <= limit
    ensures Run(cfg, c, mem, count, limit) == Resumed(cfg, Run(cfg, c, mem, count, m), m, limit)
    decreases m - count, 1
  {
    hide Step;
    if count < m {
      StepNeverReportsLimit(cfg, c, mem);
      ProceedContinues(cfg, Step(cfg, c, mem), count, m, limit);
    }
  }

  lemma {:induction false} ProceedContinues(cfg: Config, s: StepResult, count: nat, m: nat, limit: nat)
    requires count < m <= limit
    requires s.Stopped? ==> s.reason != InstructionLimit
    ensures Proceed(cfg, s, count, limit) == Resumed(cfg, Proceed(cfg, s, count, m), m, limit)
    decreases m - count, 0
  {
    if s.Running? { RunContinues(cfg, s.c, s.mem, count + 1, m, limit); }
  }

  /**
    A run with limit m + n is a run with limit m and, only if that one used up
    its limit, a run with limit n from where it left off. Any other stop is
    the stop of every larger limit.
   */
  lemma RunSplits(cfg: Config, c: CpuState, mem: Regions, m: nat, n: nat)
    ensures var first := Run(cfg, c, mem, 0, m);
            Run(cfg, c, mem, 0, m + n)
            == if first.reason == InstructionLimit then Later(Run(cfg, first.c, first.mem, 0, n), m) else first
  {
    hide Step, Proceed, Run;
    RunContinues(cfg, c, mem, 0, m, m + n);
    var first := Run(cfg, c, mem, 0, m);
    RunOffset(cfg, first.c, first.mem, m, 0, n);
  }

  // ----- safety -----

  /** The regions, their permissions and every byte of a region without Write permission are as before. */
  ghost predicate ReadOnlyKept(rs: Regions, rs': Regions) {
    && SameLayout(rs, rs')
    && forall i :: 0 <= i < |rs| && !rs[i].perms.write ==> rs'[i] == rs[i]
  }

  lemma ReadOnlyKeptTransitive(rs: Regions, ss: Regions, ts: Regions)
    requires ReadOnlyKept(rs, ss) && ReadOnlyKept(ss, ts)
    ensures ReadOnlyKept(rs, ts)
  {
    forall i | 0 <= i < |rs| ensures SameShape(rs[i], ts[i]) && (!rs[i].perms.write ==> ts[i] == rs[i]) {
      assert SameShape(rs[i], ss[i]) && SameShape(ss[i], ts[i]);
    }
  }

  lemma WriteKeepsReadOnly(rs: Regions, address: int, data: seq<u8>)
    requires WriteBytes(rs, address, data).Some?
    ensures ReadOnlyKept(rs, WriteBytes(rs, address, data).value)
  {
  }

  lemma {:induction false} StoreMultipleKeepsReadOnly(gpr: Gprs, mem: Regions, ea: u32, reg: nat)
    requires reg <= 32
    ensures ReadOnlyKept(mem, StoreMultiple(gpr, mem, ea, reg).0)
    decreases 32 - reg
  {
    if reg < 32 {
      var m := WriteBytes(mem, ea, WordBytes(gpr[reg]));
      if m.Some? {
        WriteKeepsReadOnly(mem, ea, WordBytes(gpr[reg]));
        StoreMultipleKeepsReadOnly(gpr, m.value, Wrap32(ea + 4), reg + 1);
        ReadOnlyKeptTransitive(mem, m.value, StoreMultiple(gpr, mem, ea, reg).0);
      }
    }
  }

  lemma StubKeepsReadOnly(c: CpuState, mem: Regions, kind: StubKind)
    requires StubMemory(c, mem, kind).Some?
    ensures ReadOnlyKept(mem, StubMemory(c, mem, kind).value)
  {
    match kind
    case BlockMoveData => CopyKeepsReadOnly(mem, c.gpr[4], c.gpr[3], c.gpr[5]);
    case Memcpy | Memmove => CopyKeepsReadOnly(mem, c.gpr[3], c.gpr[4], c.gpr[5]);
    case Memset => FillKeepsReadOnly(mem, c.gpr[3], c.gpr[4] % 0x100, c.gpr[5]);
    case Bzero => FillKeepsReadOnly(mem, c.gpr[3], 0, c.gpr[4]);
    case _ =>
  }

  lemma CopyKeepsReadOnly(mem: Regions, destination: u32, source: u32, count: u32)
    requires CopyBlock(mem, destination, source, count).Some?
    ensures ReadOnlyKept(mem, CopyBlock(mem, destination, source, count).value)
  {
    if count > 0 {
      WriteKeepsReadOnly(mem, destination, ReadBytes(mem, source, count).value);
    }
  }

  lemma FillKeepsReadOnly(mem: Regions, destination: u32, value: u8, count: u32)
    requires FillBlock(mem, destination, value, count).Some?
    ensures ReadOnlyKept(mem, FillBlock(mem, destination, value, count).value)
  {
    if count > 0 {
      WriteKeepsReadOnly(mem, destination, seq(count, _ => value));
    }
  }

  lemma BranchKeepsReadOnly(cfg: Config, c: CpuState, mem: Regions, insn: u32)
    ensures ReadOnlyKept(mem, BranchRegister(cfg, c, mem, insn).mem)
  {
    var c1 := c.(ctr := CtrAfter(c, Rt(insn)));
    var stub := FindStub(cfg.importStubs, c1.gpr[12]);
    if stub.Some? && StubMemory(c1, mem, stub.value).Some? {
      StubKeepsReadOnly(c1, mem, stub.value);
    }
  }

  lemma AccessKeepsReadOnly(cfg: Config, c: CpuState, mem: Regions, pc: u32, insn: u32, a: Access)
    ensures ReadOnlyKept(mem, AccessOp(cfg, c, mem, pc, insn, a).mem)
  {
    if a.Store? {
      var data := StoreData(cfg, c, a.store, Rt(insn));
      if WriteBytes(mem, AccessAddress(c, insn), data).Some? {
        WriteKeepsReadOnly(mem, AccessAddress(c, insn), data);
      }
    }
  }

  /** Whatever is written, if anything is. */
  lemma AnyWriteKeepsReadOnly(mem: Regions, ea: int, data: seq<u8>)
    ensures var m := WriteBytes(mem, ea, data); m.Some? ==> ReadOnlyKept(mem, m.value)
  {
    if WriteBytes(mem, ea, data).Some? { WriteKeepsReadOnly(mem, ea, data); }
  }

  lemma ReservedKeepsReadOnly(c: CpuState, mem: Regions, pc: u32, insn: u32)
    ensures ReadOnlyKept(mem, ReservedOp(c, mem, pc, insn).mem)
  {
    hide WriteBytes, ReadBytes, WordBytes, PutGpr, PutCrField;
    var ea := EaX(c, Ra(insn), Rb(insn));
    AnyWriteKeepsReadOnly(mem, ea - ea % 32, seq(32, _ => 0));
    AnyWriteKeepsReadOnly(mem, ea, WordBytes(c.gpr[Rt(insn)]));
  }

  lemma ExecuteKeepsReadOnly(cfg: Config, c: CpuState, mem: Regions, pc: u32, insn: u32)
    ensures ReadOnlyKept(mem, Execute(cfg, c, mem, pc, insn).mem)
  {
    var op := Opcode(insn);
    if IsBranch(insn) {
      if op == 19 { BranchKeepsReadOnly(cfg, c, mem, insn); }
    } else if AccessOf(insn).Some? {
      AccessKeepsReadOnly(cfg, c, mem, pc, insn, AccessOf(insn).value);
    } else if op == 46 || op == 47 {
      StoreMultipleKeepsReadOnly(c.gpr, mem, EaD(c, Ra(insn), SignExtend16(insn)), Rt(insn));
    } else if IsReserved(insn) {
      ReservedKeepsReadOnly(c, mem, pc, insn);
    }
  }

  lemma StepKeepsReadOnly(cfg: Config, c: CpuState, mem: Regions)
    ensures ReadOnlyKept(mem, Step(cfg, c, mem).mem)
  {
    hide Execute, Fetch;
    var insn := Fetch(mem, c.pc);
    if insn.Some? {
      ExecuteKeepsReadOnly(cfg, c.(pc := Wrap32(c.pc + 4)), mem, c.pc, insn.value);
    }
  }

  /** No run of any length, however it ends, changes the layout, a permission, or a byte it may not write. */
  lemma {:induction false} RunKeepsReadOnly(cfg: Config, c: CpuState, mem: Regions, count: nat, limit: nat)
    ensures ReadOnlyKept(mem, Run(cfg, c, mem, count, limit).mem)
    decreases limit - count, 1
  {
    hide Step;
    if count < limit {
      StepKeepsReadOnly(cfg, c, mem);
      ProceedKeepsReadOnly(cfg, Step(cfg, c, mem), mem, count, limit);
    }
  }

  lemma {:induction false} ProceedKeepsReadOnly(cfg: Config, s: StepResult, mem: Regions, count: nat, limit: nat)
    requires count < limit && ReadOnlyKept(mem, s.mem)
    ensures ReadOnlyKept(mem, Proceed(cfg, s, count, limit).mem)
    decreases limit - count, 0
  {
    if s.Running? {
      RunKeepsReadOnly(cfg, s.c, s.mem, count + 1, limit);
      ReadOnlyKeptTransitive(mem, s.mem, Proceed(cfg, s, count, limit).mem);
    }
  }

  /** In particular the instruction found at a read-only address is the same throughout the run. */
  lemma ReadOnlyCodeIsConstant(cfg: Config, c: CpuState, mem: Regions, limit: nat, pc: u32)
    requires !Writable(mem, pc, 4)
    ensures Fetch(Run(cfg, c, mem, 0, limit).mem, pc) == Fetch(mem, pc)
  {
    hide Run;
    RunKeepsReadOnly(cfg, c, mem, 0, limit);
    var mem' := Run(cfg, c, mem, 0, limit).mem;
    LayoutFind(mem, mem', pc, 4);
  }
}
