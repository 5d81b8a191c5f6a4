/**
  Traps, system calls, moves to and from the condition register, and the
  floating-point instructions up to the host's arithmetic (src/BuiltinInterpreter.cpp).
 */
module SystemInstructions {
  import opened Words
  import opened MemoryModel
  import opened CpuModel
  import opened Interpreter
  import opened Accesses
  import opened Registers
  import opened RegisterNumbers

  /** What a register instruction comes to. */
  function Came(r: RegOutcome, c: CpuState, mem: Regions, pc: u32, insn: u32): StepResult {
    match r
    case Done(c') => Running(c', mem)
    case Refused(reason) => Stopped(c, mem, reason, 0, pc, insn)
  }

  lemma RegisterExecutes(cfg: Config, c: CpuState, mem: Regions, pc: u32, insn: u32)
    requires Opcode(insn) in {3, 17, 59, 63}
    ensures Execute(cfg, c, mem, pc, insn) == Came(RegisterOp(cfg, c, insn), c, mem, pc, insn)
  {
    hide RegisterOp, AccessOp, MultipleOp, ReservedOp, BranchRegister, BranchDirect;
  }

  // ----- traps and system calls -----

  /** The five bits of TO ask for less, greater, equal, and less or greater without sign. */
  predicate Traps(bits: nat, a: u32, b: u32) {
    || (bits / 16 % 2 == 1 && Signed32(a) < Signed32(b)) || (bits / 8 % 2 == 1 && Signed32(a) > Signed32(b))
    || (bits / 4 % 2 == 1 && a == b) || (bits / 2 % 2 == 1 && a < b) || (bits % 2 == 1 && a > b)
  }

  lemma TrapsAgree(bits: nat, a: u32, b: u32)
    requires bits < 32
    ensures TrapCondition(bits, a, b) <==> Traps(bits, a, b)
  {
    LowBits(bits);
    BitFourUp(bits, 0);
    hide Bit, Signed32;
  }

  /** tw and twi: the run stops where the condition holds, unless traps are ignored; nothing else happens. */
  lemma TrapInstruction(cfg: Config, c: CpuState, mem: Regions, pc: u32, insn: u32)
    requires IsX(insn, 4) || insn / 0x400_0000 == 3
    ensures var a, b := c.gpr[FieldA(insn)], if IsX(insn, 4) then c.gpr[FieldB(insn)]
                        else Wrap32(SignedImmediate(insn));
            Execute(cfg, c, mem, pc, insn)
            == if Traps(FieldT(insn), a, b) && !cfg.ignoreTraps then Stopped(c, mem, Trap, 0, pc, insn)
               else Running(c, mem)
  {
    var a, b := c.gpr[FieldA(insn)], if IsX(insn, 4) then c.gpr[FieldB(insn)] else Wrap32(SignedImmediate(insn));
    TrapsAgree(FieldT(insn), a, b);
    hide Execute, TrapCondition, Traps, Wrap32;
    if IsX(insn, 4) {
      TrapIs(cfg, c, insn);
      hide Op31Plain, PlainXo;
      PlainOutcome(cfg, c, mem, pc, insn);
    } else {
      ImmediateTrapIs(cfg, c, insn);
      hide RegisterOp;
      RegisterExecutes(cfg, c, mem, pc, insn);
    }
  }

  lemma TrapIs(cfg: Config, c: CpuState, insn: u32)
    requires Xo(insn) == 4
    ensures PlainXo(4)
    ensures Op31Plain(cfg, c, insn)
         == if TrapCondition(Rt(insn), c.gpr[Ra(insn)], c.gpr[Rb(insn)]) && !cfg.ignoreTraps then Refused(Trap)
             else Done(c)
  {
    NoOtherResult(c, insn);
    hide PlainXo, LogicResult, ProductResult, PlainArith, RecordIf, WithOverflow, TrapCondition, CopyFields;
    hide SprOp, MoveXerToCr, CompareInto, ShiftWordAlgebraic, ShiftRightAlgebraic;
  }

  lemma ImmediateTrapIs(cfg: Config, c: CpuState, insn: u32)
    requires Opcode(insn) == 3
    ensures RegisterOp(cfg, c, insn)
         == if TrapCondition(Rt(insn), c.gpr[Ra(insn)], Wrap32(SignedImmediate(insn))) && !cfg.ignoreTraps
            then Refused(Trap) else Done(c)
  {
    hide TrapCondition, AddWithCarry, CompareInto, Op31, CrOp, FpOp, SystemCallOp;
  }

  lemma NoOtherResult(c: CpuState, insn: u32)
    requires Xo(insn) in {4, 19, 144, 512}
    ensures PlainXo(Xo(insn)) && PlainArith(c, insn).None?
    ensures LogicResult(Xo(insn), c.gpr[Rt(insn)], c.gpr[Rb(insn)]).None?
    ensures ProductResult(Xo(insn), c.gpr[Ra(insn)], c.gpr[Rb(insn)]).None?
  {
    NotPlainArith(c, insn);
    MoreXos(Xo(insn), c.gpr[Rt(insn)], c.gpr[Ra(insn)], c.gpr[Rb(insn)]);
    hide PlainArith, PlainXo, LogicResult, ProductResult;
  }

  lemma MoreXos(xo: nat, s: u32, a: u32, b: u32)
    requires xo in {4, 19, 144, 512}
    ensures PlainXo(xo) && LogicResult(xo, s, b).None? && ProductResult(xo, a, b).None?
  {
    hide And32, Or32, Xor32, Not32, Shl32, Shr32, CountLeadingZeros32, SignExtend16, SignExtend8, Bit, Signed32;
    hide TruncDiv;
  }

  /** No binding before i has the number. */
  predicate NotBefore(bindings: seq<SystemCallBinding>, number: u32, i: nat)
    requires i <= |bindings|
  {
    forall j :: 0 <= j < i ==> bindings[j].number != number
  }

  lemma {:induction false} FirstBinding(bindings: seq<SystemCallBinding>, number: u32, i: nat)
    requires i <= |bindings| && NotBefore(bindings, number, i) && (i == |bindings| || bindings[i].number == number)
    ensures FindSystemCall(bindings, number) == if i == |bindings| then None else Some(bindings[i].returnValue)
    decreases i
  {
    if i > 0 {
      assert bindings[0].number != number;
      assert forall j :: 0 <= j < i - 1 ==> bindings[1..][j] == bindings[j + 1];
      FirstBinding(bindings[1..], number, i - 1);
    }
  }

  /** sc: r3 gets what the first binding of the number in r0 returns, or the default; without either the run stops. */
  lemma SystemCallInstruction(cfg: Config, c: CpuState, mem: Regions, pc: u32, insn: u32, i: nat)
    requires insn / 0x400_0000 == 17
    requires i <= |cfg.systemCallStubs| && NotBefore(cfg.systemCallStubs, c.gpr[0], i)
    requires i == |cfg.systemCallStubs| || cfg.systemCallStubs[i].number == c.gpr[0]
    ensures var r, bound := Execute(cfg, c, mem, pc, insn), i < |cfg.systemCallStubs|;
            if bound || cfg.defaultSystemCallReturn.Some? then
              var v := if bound then cfg.systemCallStubs[i].returnValue else cfg.defaultSystemCallReturn.value;
              r == Running(c.(gpr := c.gpr[3 := v]), mem)
            else r == Stopped(c, mem, SystemCall, 0, pc, insn)
  {
    hide Execute;
    RegisterExecutes(cfg, c, mem, pc, insn);
    FirstBinding(cfg.systemCallStubs, c.gpr[0], i);
    hide FindSystemCall;
  }

  // ----- calls of imports -----

  ghost predicate UnboundBefore(bindings: seq<StubBinding>, address: u32, i: nat)
    requires i <= |bindings|
  {
    forall j :: 0 <= j < i ==> bindings[j].address != address
  }

  lemma {:induction false} FirstStub(bindings: seq<StubBinding>, address: u32, i: nat)
    requires i <= |bindings| && UnboundBefore(bindings, address, i)
    requires i == |bindings| || bindings[i].address == address
    ensures FindStub(bindings, address) == if i == |bindings| then None else Some(bindings[i].kind)
    decreases i
  {
    if i > 0 {
      assert bindings[0].address != address;
      assert forall j :: 0 <= j < i - 1 ==> bindings[1..][j] == bindings[j + 1];
      FirstStub(bindings[1..], address, i - 1);
    }
  }

  /** The memory stubs leave the registers; the others put the host's function of f1 and f2 into f1. */
  function AfterStub(cfg: Config, c: CpuState, kind: StubKind): CpuState {
    if kind in {BlockMoveData, Memcpy, Memmove, Memset, Bzero} then c
    else c.(fpr := c.fpr[1 := cfg.host.libm(kind, c.fpr[1], c.fpr[2])])
  }

  /**
    A bcctr to 0 that is taken with the address of an import in r12 runs the
    first stub bound to it and returns to LR; without one, or if its block is
    not accessible, the run stops at the import, the branch counted.
   */
  lemma ImportCall(cfg: Config, c: CpuState, mem: Regions, pc: u32, insn: u32, i: nat)
    requires insn / 0x400_0000 == 19 && insn / 2 % 1024 == 528 && c.ctr < 4 && Taken(c, insn)
    requires cfg.importBase <= c.gpr[12] < cfg.importBase as int + cfg.importSize
    requires i <= |cfg.importStubs| && UnboundBefore(cfg.importStubs, c.gpr[12], i)
    requires i == |cfg.importStubs| || cfg.importStubs[i].address == c.gpr[12]
    ensures var r, c1 := Execute(cfg, c, mem, pc, insn), c.(ctr := CountAfter(c, insn));
            if i == |cfg.importStubs| then r == Stopped(c1, mem, ImportTrap, 1, c.gpr[12], insn)
            else
              var kind := cfg.importStubs[i].kind;
              if StubMemory(c, mem, kind).None? then r == Stopped(c1, mem, MemoryFault, 1, c.gpr[12], insn)
              else r == Running(AfterStub(cfg, c1, kind).(pc := c.lr), StubMemory(c, mem, kind).value)
  {
    hide Execute, FindStub, Taken, BranchTaken, CtrAfter, CountAfter, CopyBlock, FillBlock;
    RegisterBranchExecutes(cfg, c, mem, pc, insn);
    BranchAgrees(c, insn);
    AlignedDown(c.ctr);
    FirstStub(cfg.importStubs, c.gpr[12], i);
  }

  // ----- moves of condition fields -----

  lemma BitOfField(cr: u32, bi: nat)
    requires bi < 32
    ensures CrBit(cr, bi) == Bit(GetCrField(cr, bi / 4), 3 - bi % 4)
  {
    hide Bit, Nibble;
    var k, b := 7 - bi / 4, 3 - bi % 4;
    assert 31 - bi == 4 * k + b;
    BitOfNibble(cr, k, b);
  }

  /** Bit bi of CR is the register's if the mask names its field, and the old one if not. */
  predicate Copied(cr: u32, cr': u32, from: u32, mask: nat, bi: nat)
    requires bi < 32
  {
    CrBit(cr', bi) == CrBit(if Bit(mask, 7 - bi / 4) then from else cr, bi)
  }

  /** mtcrf and mfcr. */
  lemma ConditionMoves(cfg: Config, c: CpuState, mem: Regions, pc: u32, insn: u32)
    ensures IsX(insn, 144) ==>
              var r := Execute(cfg, c, mem, pc, insn);
              && r.Running? && r.mem == mem && r.c == c.(cr := r.c.cr)
              && forall bi: nat :: bi < 32 ==> Copied(c.cr, r.c.cr, c.gpr[FieldT(insn)], insn / 0x1000 % 256, bi)
    ensures IsX(insn, 19) ==>
              Execute(cfg, c, mem, pc, insn) == Running(c.(gpr := c.gpr[FieldT(insn) := c.cr]), mem)
  {
    if IsX(insn, 144) || IsX(insn, 19) {
      MoveIs(cfg, c, insn);
      hide Execute, CopyFields, CrBit, Bit, Op31Plain, PlainXo;
      PlainExecutes(cfg, c, mem, pc, insn);
      var from, mask := c.gpr[FieldT(insn)], insn / 0x1000 % 256;
      forall bi: nat | bi < 32 ensures Copied(c.cr, CopyFields(c.cr, from, mask, 0), from, mask, bi) {
        CopiedFields(c.cr, from, mask, 0, bi / 4);
        BitOfField(c.cr, bi);
        BitOfField(from, bi);
        BitOfField(CopyFields(c.cr, from, mask, 0), bi);
      }
    }
  }

  lemma MoveIs(cfg: Config, c: CpuState, insn: u32)
    requires Xo(insn) == 144 || Xo(insn) == 19
    ensures PlainXo(Xo(insn))
    ensures Op31Plain(cfg, c, insn)
         == Done(if Xo(insn) == 19 then PutGpr(c, Rt(insn), c.cr)
                 else c.(cr := CopyFields(c.cr, c.gpr[Rt(insn)], insn / 0x1000 % 256, 0)))
  {
    NoOtherResult(c, insn);
    hide PlainXo, LogicResult, ProductResult, PlainArith, RecordIf, WithOverflow, TrapCondition, CopyFields;
    hide SprOp, MoveXerToCr, CompareInto, ShiftWordAlgebraic, ShiftRightAlgebraic;
  }

  predicate FieldMoved(cr: u32, cr': u32, to: nat, from: nat, bi: nat) {
    CrBit(cr', bi) == CrBit(cr, if bi / 4 == to then 4 * from + bi % 4 else bi)
  }

  /** mcrf: one field of CR becomes a copy of another. */
  lemma FieldMove(cfg: Config, c: CpuState, mem: Regions, pc: u32, insn: u32)
    requires insn / 0x400_0000 == 19 && insn / 2 % 1024 == 0
    ensures var r := Execute(cfg, c, mem, pc, insn);
            && r.Running? && r.mem == mem && r.c == c.(cr := r.c.cr)
            && forall bi: nat :: bi < 32 ==>
                 FieldMoved(c.cr, r.c.cr, insn / 0x80_0000 % 8, insn / 0x4_0000 % 8, bi)
  {
    var to, from := insn / 0x80_0000 % 8, insn / 0x4_0000 % 8;
    FieldMoveIs(c, insn);
    hide Execute, CrOp, FieldMoved, PutCrField, GetCrField;
    CrExecutes(cfg, c, mem, pc, insn);
    forall bi: nat | bi < 32 ensures FieldMoved(c.cr, PutCrField(c.cr, to, GetCrField(c.cr, from)), to, from, bi) {
      MovedBit(c.cr, to, from, bi);
    }
  }

  lemma FieldMoveIs(c: CpuState, insn: u32)
    requires Xo(insn) == 0
    ensures CrOp(c, insn) == Done(c.(cr := PutCrField(c.cr, Bf(insn), GetCrField(c.cr, insn / 0x4_0000 % 8))))
  {
    hide CrBit, SetCrBitTo, CrLogic, PutCrField, GetCrField, Rt, Ra, Rb, Bf;
  }

  lemma MovedBit(cr: u32, to: nat, from: nat, bi: nat)
    requires to < 8 && from < 8 && bi < 32
    ensures FieldMoved(cr, PutCrField(cr, to, GetCrField(cr, from)), to, from, bi)
  {
    hide CrBit, PutCrField, GetCrField;
    var cr' := PutCrField(cr, to, GetCrField(cr, from));
    PutCrFieldGets(cr, to, GetCrField(cr, from), bi / 4);
    BitOfField(cr', bi);
    BitOfField(cr, bi);
    BitOfField(cr, 4 * from + bi % 4);
  }

  /** mcrxr: SO, OV and CA go to a field of CR, and XER loses them. */
  lemma ExceptionMove(cfg: Config, c: CpuState, mem: Regions, pc: u32, insn: u32)
    requires IsX(insn, 512)
    ensures var r, to := Execute(cfg, c, mem, pc, insn), insn / 0x80_0000 % 8;
            && r.Running? && r.mem == mem && r.c == c.(cr := r.c.cr, xer := c.xer % 0x2000_0000)
            && forall bi: nat :: bi < 32 ==> ExceptionBit(c, r.c.cr, to, bi)
  {
    ExceptionIs(cfg, c, insn);
    hide Execute, Op31Plain, PlainXo, ExceptionBit, PutCrField, CrNibble, Bit;
    PlainExecutes(cfg, c, mem, pc, insn);
    var to := insn / 0x80_0000 % 8;
    forall bi: nat | bi < 32
      ensures ExceptionBit(c, PutCrField(c.cr, to, CrNibble(So(c.xer), Ov(c.xer), Ca(c.xer), false)), to, bi)
    {
      ExceptionBits(c, to, bi);
    }
  }

  lemma ExceptionBits(c: CpuState, to: nat, bi: nat)
    requires to < 8 && bi < 32
    ensures ExceptionBit(c, PutCrField(c.cr, to, CrNibble(So(c.xer), Ov(c.xer), Ca(c.xer), false)), to, bi)
  {
    hide CrBit, PutCrField, CrNibble, Bit;
    CrFieldReadsBack(c.cr, to, So(c.xer), Ov(c.xer), Ca(c.xer), false, bi);
  }

  predicate ExceptionBit(c: CpuState, cr: u32, to: nat, bi: nat) {
    CrBit(cr, bi)
    == if bi / 4 != to then CrBit(c.cr, bi) else bi % 4 < 3 && Bit(c.xer, 31 - bi % 4)
  }

  lemma ExceptionIs(cfg: Config, c: CpuState, insn: u32)
    requires Xo(insn) == 512
    ensures PlainXo(512) && Op31Plain(cfg, c, insn) == Done(MoveXerToCr(c, insn))
  {
    NoOtherResult(c, insn);
    hide PlainXo, LogicResult, ProductResult, PlainArith, RecordIf, WithOverflow, TrapCondition, CopyFields;
    hide SprOp, MoveXerToCr, CompareInto, ShiftWordAlgebraic, ShiftRightAlgebraic;
  }

  // ----- floating point -----

  function FieldC(insn: u32): Reg { insn / 0x40 % 32 }

  /** The operations by their opcode: of three operands by five bits, others by five or ten. */
  predicate Calculates(insn: u32, selector: nat) {
    var op, short, long := insn / 0x400_0000, insn / 2 % 32, insn / 2 % 1024;
    || (op == 59 && selector == short && short in {18, 20, 21, 22, 24, 25, 28, 29, 30, 31})
    || (op == 63 && selector == short && short in {22, 23, 25, 26, 28, 29, 30, 31})
    || (op == 63 && selector == long && long in {12, 14, 15, 18, 20, 21, 40, 72, 136, 264, 583}
        && short !in {22, 23, 25, 26, 28, 29, 30, 31})
  }

  /** CR1 is the high nibble of FPSCR where the instruction records. */
  predicate RecordsFpscr(c: CpuState, cr: u32, record: bool, bi: nat) {
    CrBit(cr, bi) == if record && bi / 4 == 1 then Bit(c.fpscr, 35 - bi) else CrBit(c.cr, bi)
  }

  lemma RecordedFpscr(c: CpuState, record: bool, bi: nat)
    requires bi < 32
    ensures RecordsFpscr(c, RecordCr1(c, record).cr, record, bi)
  {
    hide Bit, Nibble, CrBit, PutCrField;
    if record {
      var high := c.fpscr / 0x1000_0000;
      PutCrFieldGets(c.cr, 1, high, bi / 4);
      BitOfField(RecordCr1(c, record).cr, bi);
      BitOfField(c.cr, bi);
      if bi / 4 == 1 { HighNibbleBit(c.fpscr, 3 - bi % 4); }
    }
  }

  lemma HighNibbleBit(x: u32, b: nat)
    requires b < 4
    ensures Bit(x, 28 + b) == Bit(x / 0x1000_0000, b)
  {
    hide Bit;
    BitFourUp(x, 24 + b);
    BitFourUp(x / 16, 20 + b);
    BitFourUp(x / 0x100, 16 + b);
    BitFourUp(x / 0x1000, 12 + b);
    BitFourUp(x / 0x1_0000, 8 + b);
    BitFourUp(x / 0x10_0000, 4 + b);
    BitFourUp(x / 0x100_0000, b);
  }

  /** The host's result on the three named registers reaches the fourth. */
  lemma FloatInstruction(cfg: Config, c: CpuState, mem: Regions, pc: u32, insn: u32, selector: nat)
    requires Calculates(insn, selector)
    ensures var r := Execute(cfg, c, mem, pc, insn);
            var v := cfg.host.arith(insn / 0x400_0000, selector, c.fpr[FieldA(insn)], c.fpr[FieldB(insn)],
                         c.fpr[FieldC(insn)], c.fpscr);
            && r.Running? && r.mem == mem && r.c == c.(fpr := c.fpr[FieldT(insn) := v], cr := r.c.cr)
            && forall bi: nat :: bi < 32 ==> RecordsFpscr(c, r.c.cr, RecordBit(insn), bi)
  {
    var v := cfg.host.arith(insn / 0x400_0000, selector, c.fpr[FieldA(insn)], c.fpr[FieldB(insn)],
        c.fpr[FieldC(insn)], c.fpscr);
    var c1 := c.(fpr := c.fpr[FieldT(insn) := v]);
    FloatIs(cfg, c, insn, selector);
    hide Execute, FpOp, RecordCr1, RecordsFpscr, Calculates;
    RegisterExecutes(cfg, c, mem, pc, insn);
    forall bi: nat | bi < 32 ensures RecordsFpscr(c1, RecordCr1(c1, RecordBit(insn)).cr, RecordBit(insn), bi) {
      RecordedFpscr(c1, RecordBit(insn), bi);
    }
    SameCondition(c, c1, RecordBit(insn));
  }

  lemma SameCondition(c: CpuState, c1: CpuState, record: bool)
    requires c1.cr == c.cr && c1.fpscr == c.fpscr
    ensures RecordCr1(c1, record) == c1.(cr := RecordCr1(c1, record).cr)
    ensures forall cr, bi :: RecordsFpscr(c1, cr, record, bi) == RecordsFpscr(c, cr, record, bi)
  {
    hide PutCrField, CrBit, Bit;
  }

  lemma FloatIs(cfg: Config, c: CpuState, insn: u32, selector: nat)
    requires Calculates(insn, selector)
    ensures Opcode(insn) == 59 || Opcode(insn) == 63
    ensures FpOp(cfg, c, insn)
         == Done(RecordCr1(c.(fpr := c.fpr[Rt(insn) := cfg.host.arith(Opcode(insn), selector, c.fpr[Ra(insn)],
                c.fpr[Rb(insn)], c.fpr[Rc(insn)], c.fpscr)]), RecordBit(insn)))
    ensures RegisterOp(cfg, c, insn) == FpOp(cfg, c, insn)
  {
    hide RecordCr1, Rt, Ra, Rb, Rc, RecordBit, PutCrField, CrNibble;
  }

  /** fcmpu and fcmpo: the host's order in a field of CR. */
  lemma FloatCompare(cfg: Config, c: CpuState, mem: Regions, pc: u32, insn: u32)
    requires insn / 0x400_0000 == 63 && insn / 2 % 1024 in {0, 32}
    ensures var r, order := Execute(cfg, c, mem, pc, insn),
                cfg.host.compare(c.fpr[FieldA(insn)], c.fpr[FieldB(insn)]);
            && r.Running? && r.mem == mem && r.c == c.(cr := r.c.cr)
            && forall bi: nat :: bi < 32 ==> OrderBit(c, r.c.cr, insn / 0x80_0000 % 8, order, bi)
  {
    var order, to := cfg.host.compare(c.fpr[FieldA(insn)], c.fpr[FieldB(insn)]), insn / 0x80_0000 % 8;
    FloatCompareIs(cfg, c, insn);
    hide Execute, FpOp, PutCrField, CrNibble, CrBit;
    RegisterExecutes(cfg, c, mem, pc, insn);
    forall bi: nat | bi < 32
      ensures OrderBit(c, PutCrField(c.cr, to, CrNibble(order.FpLess?, order.FpGreater?, order.FpEqual?,
                  order.FpUnordered?)), to, order, bi)
    {
      CrFieldReadsBack(c.cr, to, order.FpLess?, order.FpGreater?, order.FpEqual?, order.FpUnordered?, bi);
    }
  }

  predicate OrderBit(c: CpuState, cr: u32, to: nat, order: FpOrder, bi: nat) {
    CrBit(cr, bi)
    == if bi / 4 != to then CrBit(c.cr, bi)
       else order == (if bi % 4 == 0 then FpLess else if bi % 4 == 1 then FpGreater else if bi % 4 == 2 then FpEqual
                      else FpUnordered)
  }

  lemma FloatCompareIs(cfg: Config, c: CpuState, insn: u32)
    requires Opcode(insn) == 63 && (Xo(insn) == 0 || Xo(insn) == 32)
    ensures var o := cfg.host.compare(c.fpr[Ra(insn)], c.fpr[Rb(insn)]);
            && RegisterOp(cfg, c, insn) == FpOp(cfg, c, insn)
            && FpOp(cfg, c, insn)
               == Done(c.(cr := PutCrField(c.cr, Bf(insn),
                      CrNibble(o.FpLess?, o.FpGreater?, o.FpEqual?, o.FpUnordered?))))
  {
    ShortSelector(insn);
    hide Rt, Ra, Rb, Rc, Bf, RecordBit, PutCrField, CrNibble;
  }

  lemma ShortSelector(insn: u32)
    ensures Xo5(insn) == Xo(insn) % 32
  {
  }
}
