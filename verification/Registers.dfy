/**
  What the register instructions leave behind, told on the bits and the
  numbers in the registers (src/BuiltinInterpreter.cpp).
 */
module Registers {
  import opened Words
  import opened Numbers
  import opened MemoryModel
  import opened CpuModel
  import opened Interpreter
  import opened Accesses
  import SignedDivision

  // ----- what is said of a result -----

  /** CR0 tells the sign of a recorded result and carries SO along; all other bits are kept. */
  predicate RecordsBit(c: CpuState, c': CpuState, v: u32, record: bool, bi: nat) {
    CrBit(c'.cr, bi)
    == if !record || bi >= 4 then CrBit(c.cr, bi)
       else if bi == 0 then v >= 0x8000_0000 else if bi == 1 then 0 < v < 0x8000_0000
       else if bi == 2 then v == 0 else So(c'.xer)
  }

  /** Besides CR0 and XER only the register changes. */
  ghost predicate Gives(r: StepResult, c: CpuState, mem: Regions, d: Reg, v: u32, record: bool) {
    && r.Running? && r.mem == mem
    && r.c == c.(gpr := c.gpr[d := v], cr := r.c.cr, xer := r.c.xer)
    && forall bi: nat :: bi < 32 ==> RecordsBit(c, r.c, v, record, bi)
  }

  /** XER is kept but for OV and the sticky SO, where overflow is recorded. */
  ghost predicate XerKept(xer: u32, xer': u32, oe: bool, overflow: bool) {
    && (!oe ==> xer' == xer)
    && forall j: nat :: j < 32 ==>
         Bit(xer', j) == if oe && j == 30 then overflow else if oe && j == 31 then overflow || Bit(xer, 31)
                         else Bit(xer, j)
  }

  lemma Recorded(c: CpuState, c': CpuState, v: u32, record: bool)
    requires c'.cr == c.cr
    ensures forall bi: nat :: bi < 32 ==> RecordsBit(c, RecordIf(c', record, v), v, record, bi)
    ensures RecordIf(c', record, v) == c'.(cr := RecordIf(c', record, v).cr)
  {
    hide PutCrField, CrNibble, CrBit, Bit;
    if record {
      forall bi: nat | bi < 32 ensures RecordsBit(c, RecordIf(c', record, v), v, record, bi) {
        CrFieldReadsBack(c.cr, 0, Signed32(v) < 0, Signed32(v) > 0, Signed32(v) == 0, So(c'.xer), bi);
      }
    }
  }

  lemma XerAfter(xer: u32, oe: bool, overflow: bool)
    ensures XerKept(xer, if oe then WithOverflow(xer, overflow) else xer, oe, overflow)
  {
    hide Bit, WithOverflow;
    if oe {
      forall j: nat | j < 32
        ensures Bit(WithOverflow(xer, overflow), j)
             == if j == 30 then overflow else if j == 31 then overflow || Bit(xer, 31) else Bit(xer, j)
      {
        WithOverflowBits(xer, overflow, j);
      }
    }
  }

  lemma Given(c: CpuState, mem: Regions, d: Reg, v: u32, record: bool, xer: u32)
    ensures Gives(Running(RecordIf(PutGpr(c, d, v).(xer := xer), record, v), mem), c, mem, d, v, record)
    ensures RecordIf(PutGpr(c, d, v).(xer := xer), record, v).xer == xer
  {
    hide RecordsBit, RecordIf;
    Recorded(c, PutGpr(c, d, v).(xer := xer), v, record);
  }

  // ----- which instructions are meant -----

  /** The extended opcodes of opcode 31 that neither access memory nor use the carry. */
  predicate PlainXo(xo: nat) {
    XFormAccess(xo).None? && xo !in {20, 150, 1014} && CarryFormOf(xo).None?
  }

  lemma PlainOutcome(cfg: Config, c: CpuState, mem: Regions, pc: u32, insn: u32)
    requires Opcode(insn) == 31 && PlainXo(Xo(insn))
    ensures Execute(cfg, c, mem, pc, insn)
         == match Op31Plain(cfg, c, insn)
            case Done(c') => Running(c', mem)
            case Refused(reason) => FaultAt(c, mem, reason, pc, insn)
  {
    hide Op31Plain, AccessOp, MultipleOp, ReservedOp, BranchRegister, BranchDirect, CarryArith, CrOp, FpOp;
    hide ImmediateOp, SystemCallOp, Rotated, XFormAccess, CarryFormOf;
  }

  lemma PlainExecutes(cfg: Config, c: CpuState, mem: Regions, pc: u32, insn: u32)
    requires Opcode(insn) == 31 && PlainXo(Xo(insn)) && Op31Plain(cfg, c, insn).Done?
    ensures Execute(cfg, c, mem, pc, insn) == Running(Op31Plain(cfg, c, insn).c, mem)
  {
    hide *;
    PlainOutcome(cfg, c, mem, pc, insn);
  }

  lemma OtherExecutes(cfg: Config, c: CpuState, mem: Regions, pc: u32, insn: u32)
    requires Opcode(insn) in {3, 7, 10, 11, 14, 15, 20, 21, 23, 24, 25, 26, 27, 28, 29}
            && RegisterOp(cfg, c, insn).Done?
    ensures Execute(cfg, c, mem, pc, insn) == Running(RegisterOp(cfg, c, insn).c, mem)
  {
    hide RegisterOp, AccessOp, MultipleOp, ReservedOp, BranchRegister, BranchDirect;
  }

  // ----- bits -----

  lemma XorBits(a: u32, b: u32, k: nat)
    requires k < 32
    ensures Bit(Xor32(a, b), k) == (Bit(a, k) != Bit(b, k))
  {
    hide Bit;
  }

  lemma {:induction false} NoHighBits(x: nat, n: nat, k: nat)
    requires x < Pow2(n) && k >= n
    ensures !Bit(x, k)
    decreases n
  {
    if n == 0 { ZeroBits(k); } else { NoHighBits(x / 2, n - 1, k - 1); }
  }

  lemma {:induction false} ShiftedDownBits(x: u32, n: nat, k: nat)
    ensures Bit(Shr32(x, n), k) == Bit(x, k + n)
    decreases n
  {
    if n > 0 { ShiftedDownBits(x / 2, n - 1, k); }
  }

  /** A rotation to the left by n moves bit p + n, counted from the top and around, to p. */
  lemma RotatedBits(x: u32, n: nat, p: nat)
    requires n < 32 && p < 32
    ensures CrBit(Rotl32(x, n), p) == CrBit(x, (p + n) % 32)
  {
    hide Bit, Or32, Shl32, Shr32;
    if n > 0 {
      OrAndBits(Shl32(x, n), Shr32(x, 32 - n), 31 - p);
      ShiftedBits(x, n, 31 - p);
      ShiftedDownBits(x, 32 - n, 31 - p);
      if p + n < 32 { NoHighBits(x, 32, 31 - p + 32 - n) by { Pow2Of32(); } }
    }
  }

  // ----- logic -----

  /** and, andc, nor, eqv, xor, orc, or and nand, by extended opcode. */
  predicate Combined(xo: nat, a: bool, b: bool) {
    if xo == 28 then a && b else if xo == 60 then a && !b else if xo == 124 then !a && !b
    else if xo == 284 then a == b else if xo == 316 then a != b else if xo == 412 then a || !b
    else if xo == 444 then a || b else !a || !b
  }

  const LogicXos := {28, 60, 124, 284, 316, 412, 444, 476}

  /** Every bit of the one is the combination of the bits of the other two. */
  ghost predicate Combines(v: u32, xo: nat, a: u32, b: u32) {
    forall k: nat :: k < 32 ==> Bit(v, k) == Combined(xo, Bit(a, k), Bit(b, k))
  }

  lemma LogicCombines(xo: nat, a: u32, b: u32)
    requires xo in LogicXos
    ensures LogicResult(xo, a, b).Some? && Combines(LogicResult(xo, a, b).value, xo, a, b)
  {
    hide Bit, And32, Or32, Xor32, Not32, Shl32, Shr32, CountLeadingZeros32, SignExtend16, SignExtend8;
    var v := LogicResult(xo, a, b).value;
    forall k: nat | k < 32 ensures Bit(v, k) == Combined(xo, Bit(a, k), Bit(b, k)) {
      NotBits(b, k);
      OrAndBits(a, b, k);
      OrAndBits(a, Not32(b), k);
      XorBits(a, b, k);
      NotBits(Or32(a, b), k);
      NotBits(And32(a, b), k);
      NotBits(Xor32(a, b), k);
    }
  }

  /** An instruction of the logical and shift group leaves its result in rA. */
  lemma LogicExecutes(cfg: Config, c: CpuState, mem: Regions, pc: u32, insn: u32, xo: nat)
    requires IsX(insn, xo) && xo in LogicXos + {24, 26, 536, 922, 954}
    ensures LogicResult(xo, c.gpr[FieldT(insn)], c.gpr[FieldB(insn)]).Some?
    ensures var r := Execute(cfg, c, mem, pc, insn);
            && Gives(r, c, mem, FieldA(insn), LogicResult(xo, c.gpr[FieldT(insn)], c.gpr[FieldB(insn)]).value,
                insn % 2 == 1)
            && r.c.xer == c.xer
  {
    var s, b, d := c.gpr[FieldT(insn)], c.gpr[FieldB(insn)], FieldA(insn);
    hide Execute, Op31Plain, LogicResult, Gives, RecordIf, LogicXos;
    LogicDefined(xo, s, b);
    PlainLogic(xo, c, insn);
    var v := LogicResult(xo, s, b).value;
    LogicIs(cfg, c, insn, v);
    PlainExecutes(cfg, c, mem, pc, insn);
    Given(c, mem, d, v, RecordBit(insn), c.xer);
    SameXer(c, d, v);
  }

  lemma SameXer(c: CpuState, d: Reg, v: u32)
    ensures PutGpr(c, d, v).(xer := c.xer) == PutGpr(c, d, v)
  {
  }

  lemma PlainLogic(xo: nat, c: CpuState, insn: u32)
    requires xo in LogicXos + {24, 26, 536, 922, 954}
    ensures PlainXo(xo) && (Xo(insn) == xo ==> PlainArith(c, insn).None?)
  {
    hide PlainArith, Xo;
    if Xo(insn) == xo { NotPlainArith(c, insn); }
  }

  lemma NotPlainArith(c: CpuState, insn: u32)
    requires Xo(insn) !in {40, 104, 266, 552, 616, 778}
    ensures PlainArith(c, insn).None?
  {
    hide Xo, Rt, Ra, Rb, PutGpr, SubOverflow, AddOverflow, WithOverflow, RecordIf, RecordBit;
  }

  lemma LogicDefined(xo: nat, a: u32, b: u32)
    requires xo in LogicXos + {24, 26, 536, 922, 954}
    ensures LogicResult(xo, a, b).Some?
  {
    hide And32, Or32, Xor32, Not32, Shl32, Shr32, CountLeadingZeros32, SignExtend16, SignExtend8, Bit;
  }

  lemma LogicIs(cfg: Config, c: CpuState, insn: u32, v: u32)
    requires LogicResult(Xo(insn), c.gpr[Rt(insn)], c.gpr[Rb(insn)]) == Some(v) && PlainArith(c, insn).None?
    ensures Op31Plain(cfg, c, insn) == Done(RecordIf(PutGpr(c, Ra(insn), v), RecordBit(insn), v))
  {
    hide LogicResult, PlainArith, ProductResult, TrapCondition, CompareInto, CopyFields, SprOp, MoveXerToCr, RecordIf;
    hide ShiftWordAlgebraic, ShiftRightAlgebraic, Xo, Rt, Ra, Rb, Bf, RecordBit, CacheHint, Signed32;
  }

  /** and, andc, nor, eqv, xor, orc, or, nand: bit by bit. */
  lemma LogicalInstruction(cfg: Config, c: CpuState, mem: Regions, pc: u32, insn: u32, xo: nat)
    requires IsX(insn, xo) && xo in LogicXos
    ensures var r := Execute(cfg, c, mem, pc, insn);
            && r.Running? && Gives(r, c, mem, FieldA(insn), r.c.gpr[FieldA(insn)], insn % 2 == 1) && r.c.xer == c.xer
            && Combines(r.c.gpr[FieldA(insn)], xo, c.gpr[FieldT(insn)], c.gpr[FieldB(insn)])
  {
    hide Execute, LogicResult, Combines, Gives, IsX, LogicXos;
    var s, b := c.gpr[FieldT(insn)], c.gpr[FieldB(insn)];
    LogicExecutes(cfg, c, mem, pc, insn, xo);
    LogicCombines(xo, s, b);
    GivenIs(Execute(cfg, c, mem, pc, insn), c, mem, FieldA(insn), LogicResult(xo, s, b).value, insn % 2 == 1);
  }

  /** The 16 bits of the instruction, moved to the high half by the opcodes with s. */
  function Immediate(insn: u32): u32 {
    if insn / 0x400_0000 % 2 == 0 then insn % 0x1_0000 else insn % 0x1_0000 * 0x1_0000
  }

  /** ori, oris, xori, xoris, andi. and andis.: with the immediate in the low or the high half. */
  lemma LogicalImmediate(cfg: Config, c: CpuState, mem: Regions, pc: u32, insn: u32)
    requires 24 <= insn / 0x400_0000 <= 29
    ensures var r, op := Execute(cfg, c, mem, pc, insn), insn / 0x400_0000;
            && r.Running? && Gives(r, c, mem, FieldA(insn), r.c.gpr[FieldA(insn)], op >= 28) && r.c.xer == c.xer
            && Combines(r.c.gpr[FieldA(insn)], if op <= 25 then 444 else if op <= 27 then 316 else 28,
                c.gpr[FieldT(insn)], Immediate(insn))
  {
    var op, s, d := insn / 0x400_0000, c.gpr[FieldT(insn)], FieldA(insn);
    hide Execute, RegisterOp, Combines, Gives, RecordIf, Immediate;
    var v := ImmediateResult(op, s, Immediate(insn));
    ImmediateLogicIs(cfg, c, insn, v);
    hide *;
    ImmediateGives(cfg, c, mem, pc, insn, d, v);
  }

  lemma ImmediateGives(cfg: Config, c: CpuState, mem: Regions, pc: u32, insn: u32, d: Reg, v: u32)
    requires 24 <= Opcode(insn) <= 29
    requires RegisterOp(cfg, c, insn) == Done(RecordIf(PutGpr(c, d, v), Opcode(insn) >= 28, v))
    ensures var r := Execute(cfg, c, mem, pc, insn);
            Gives(r, c, mem, d, v, Opcode(insn) >= 28) && r.c.xer == c.xer && r.c.gpr[d] == v
  {
    hide *;
    OtherExecutes(cfg, c, mem, pc, insn);
    Given(c, mem, d, v, Opcode(insn) >= 28, c.xer);
    SameXer(c, d, v);
    GivenIs(Execute(cfg, c, mem, pc, insn), c, mem, d, v, Opcode(insn) >= 28);
  }

  lemma ImmediateResult(op: nat, s: u32, mask: u32) returns (v: u32)
    requires 24 <= op <= 29
    ensures v == if op <= 25 then Or32(s, mask) else if op <= 27 then Xor32(s, mask) else And32(s, mask)
    ensures Combines(v, if op <= 25 then 444 else if op <= 27 then 316 else 28, s, mask)
  {
    hide And32, Or32, Xor32, Combines;
    var xo := if op <= 25 then 444 else if op <= 27 then 316 else 28;
    v := LogicResult(xo, s, mask).value;
    LogicCombines(xo, s, mask);
  }

  lemma GivenIs(r: StepResult, c: CpuState, mem: Regions, d: Reg, v: u32, record: bool)
    requires Gives(r, c, mem, d, v, record)
    ensures r.Running? && r.c.gpr[d] == v
  {
    hide RecordsBit;
  }

  lemma ImmediateLogicIs(cfg: Config, c: CpuState, insn: u32, v: u32)
    requires 24 <= Opcode(insn) <= 29
    requires var s, mask := c.gpr[Rt(insn)], Immediate(insn);
             v == if Opcode(insn) <= 25 then Or32(s, mask) else if Opcode(insn) <= 27 then Xor32(s, mask)
                  else And32(s, mask)
    ensures RegisterOp(cfg, c, insn) == Done(RecordIf(PutGpr(c, Ra(insn), v), Opcode(insn) >= 28, v))
  {
    hide And32, Or32, Xor32, RecordCr0, TrapCondition, AddWithCarry, CompareInto, Op31, CrOp, FpOp, SystemCallOp;
  }

  // ----- shifts and counts -----

  lemma {:induction false} ShiftedLeftIs(x: u32, n: nat)
    ensures Shl32(x, n) == x * Pow2(n) % 0x1_0000_0000
    decreases n
  {
    if n > 0 {
      ShiftedLeftIs(Wrap32(2 * x), n - 1);
      Doubling(x, Pow2(n - 1));
    }
  }

  lemma Doubling(x: nat, p: nat)
    ensures 2 * x % 0x1_0000_0000 * p % 0x1_0000_0000 == x * (2 * p) % 0x1_0000_0000
  {
    var w, y := 0x1_0000_0000, 2 * x;
    var q, r := y / w, y % w;
    Rearrange(x, p, w, q, r);
    var t := r * p;
    DivUnique(x * (2 * p), w, q * p + t / w, t % w);
  }

  lemma Rearrange(x: nat, p: nat, w: nat, q: nat, r: nat)
    requires w > 0 && 2 * x == w * q + r
    ensures r * p == w * (r * p / w) + r * p % w
    ensures x * (2 * p) == w * (q * p + r * p / w) + r * p % w
  {
    assert x * (2 * p) == 2 * x * p == (w * q + r) * p;
    Distributed(w * q, r, p);
    assert w * q * p == w * (q * p);
    Distributed(q * p, r * p / w, w);
  }

  lemma Distributed(a: int, b: int, m: int)
    ensures (a + b) * m == a * m + b * m && m * (a + b) == m * a + m * b
  {
  }

  lemma {:induction false} ShiftedRightIs(x: u32, n: nat)
    ensures Shr32(x, n) == x / Pow2(n)
    decreases n
  {
    if n > 0 {
      ShiftedRightIs(x / 2, n - 1);
      SignedDivision.HalvedQuotient(x, Pow2(n - 1));
    }
  }

  /** The position of the highest bit, from the top. */
  lemma {:induction false} LeadingZeros(x: u32)
    requires x > 0
    ensures var n := CountLeadingZeros(x); n < 32 && 0x8000_0000 <= x * Pow2(n) < 0x1_0000_0000
    decreases 0x1_0000_0000 - x
  {
    if x < 0x8000_0000 {
      LeadingZeros(2 * x);
      var n := CountLeadingZeros(2 * x);
      assert 2 * x * Pow2(n) == x * (2 * Pow2(n));
      assert Pow2(n + 1) == 2 * Pow2(n);
      SmallCount(x, n);
    }
  }

  lemma SmallCount(x: nat, n: nat)
    requires x > 0 && 2 * x * Pow2(n) < 0x1_0000_0000
    ensures n < 31
  {
    if n >= 31 {
      HighPowers();
      PowersGrow(31, n);
      hide Pow2;
      Scaled(1, x, Pow2(n));
    }
  }

  lemma {:induction false} PowersGrow(a: nat, b: nat)
    requires a <= b
    ensures Pow2(a) <= Pow2(b)
  {
    if a < b { PowersGrow(a, b - 1); }
  }

  /** slw and srw by n, which may be 32 or more, cntlzw, extsh and extsb, by extended opcode. */
  predicate ShiftsTo(v: u32, xo: nat, s: u32, n: nat) {
    if xo == 24 then v == if n >= 32 then 0 else s * Pow2(n) % 0x1_0000_0000
    else if xo == 536 then v == if n >= 32 then 0 else s / Pow2(n)
    else if xo == 26 then
      v <= 32 && (v == 32 <==> s == 0) && (s != 0 ==> 0x8000_0000 <= s * Pow2(v) < 0x1_0000_0000)
    else if xo == 922 then v == if s % 0x1_0000 < 0x8000 then s % 0x1_0000 else s % 0x1_0000 + 0xFFFF_0000
    else v == if s % 0x100 < 0x80 then s % 0x100 else s % 0x100 + 0xFFFF_FF00
  }

  /** The shift is by the low six bits of rB. */
  lemma ShiftInstruction(cfg: Config, c: CpuState, mem: Regions, pc: u32, insn: u32, xo: nat)
    requires IsX(insn, xo) && xo in {24, 26, 536, 922, 954}
    ensures var r, s, n := Execute(cfg, c, mem, pc, insn), c.gpr[FieldT(insn)], c.gpr[FieldB(insn)] % 64;
            && r.Running?
            && var v := r.c.gpr[FieldA(insn)];
               && Gives(r, c, mem, FieldA(insn), v, insn % 2 == 1) && r.c.xer == c.xer
               && ShiftsTo(v, xo, s, n)
  {
    var s, b := c.gpr[FieldT(insn)], c.gpr[FieldB(insn)];
    hide Execute, Gives, LogicResult, ShiftsTo, IsX;
    LogicExecutes(cfg, c, mem, pc, insn, xo);
    ShiftResult(xo, s, b);
    GivenIs(Execute(cfg, c, mem, pc, insn), c, mem, FieldA(insn), LogicResult(xo, s, b).value, insn % 2 == 1);
  }

  lemma ShiftResult(xo: nat, s: u32, b: u32)
    requires xo in {24, 26, 536, 922, 954}
    ensures LogicResult(xo, s, b).Some?
    ensures ShiftsTo(LogicResult(xo, s, b).value, xo, s, b % 64)
  {
    hide *;
    ShiftDefined(xo, s, b);
    if xo == 24 {
      LeftBySix(s, b);
    } else if xo == 536 {
      ShiftedRightIs(s, b % 64);
    } else if xo == 26 {
      LeadingZeroCount(s);
    } else {
      Extensions(s);
    }
    CaseOfShift(LogicResult(xo, s, b).value, xo, s, b % 64);
  }

  lemma CaseOfShift(v: u32, xo: nat, s: u32, n: nat)
    requires xo in {24, 26, 536, 922, 954}
    requires xo == 24 ==> v == if n >= 32 then 0 else s * Pow2(n) % 0x1_0000_0000
    requires xo == 536 ==> v == if n >= 32 then 0 else s / Pow2(n)
    requires xo == 26 ==>
      v <= 32 && (v == 32 <==> s == 0) && (s != 0 ==> 0x8000_0000 <= s * Pow2(v) < 0x1_0000_0000)
    requires xo == 922 ==> v == if s % 0x1_0000 < 0x8000 then s % 0x1_0000 else s % 0x1_0000 + 0xFFFF_0000
    requires xo == 954 ==> v == if s % 0x100 < 0x80 then s % 0x100 else s % 0x100 + 0xFFFF_FF00
    ensures ShiftsTo(v, xo, s, n)
  {
    hide Pow2;
  }

  lemma LeftBySix(s: u32, b: u32)
    ensures (if Bit(b, 5) then 0 else Shl32(s, b % 32))
         == if b % 64 >= 32 then 0 else s * Pow2(b % 64) % 0x1_0000_0000
  {
    hide *;
    FifthBit(b);
    ShiftedLeftIs(s, b % 32);
  }

  lemma Extensions(s: u32)
    ensures Wrap32(SignExtend16(s))
         == if s % 0x1_0000 < 0x8000 then s % 0x1_0000 else s % 0x1_0000 + 0xFFFF_0000
    ensures Wrap32(SignExtend8(s)) == if s % 0x100 < 0x80 then s % 0x100 else s % 0x100 + 0xFFFF_FF00
  {
  }

  lemma LeadingZeroCount(s: u32)
    ensures var v := CountLeadingZeros32(s);
            v <= 32 && (v == 32 <==> s == 0) && (s != 0 ==> 0x8000_0000 <= s * Pow2(v) < 0x1_0000_0000)
  {
    hide CountLeadingZeros, Pow2;
    if s > 0 { LeadingZeros(s); }
  }

  lemma ShiftDefined(xo: nat, s: u32, b: u32)
    requires xo in {24, 26, 536, 922, 954}
    ensures LogicResult(xo, s, b)
         == Some(if xo == 24 then (if Bit(b, 5) then 0 else Shl32(s, b % 32))
                 else if xo == 26 then CountLeadingZeros32(s)
                 else if xo == 536 then (if b % 64 >= 32 then 0 else Shr32(s, b % 64))
                 else if xo == 922 then Wrap32(SignExtend16(s)) else Wrap32(SignExtend8(s)))
  {
    hide And32, Or32, Xor32, Not32, Bit, Shl32, Shr32, CountLeadingZeros32, SignExtend16, SignExtend8;
  }

  lemma FifthBit(b: u32)
    ensures Bit(b, 5) <==> b % 64 >= 32
    ensures !Bit(b, 5) ==> b % 32 == b % 64
  {
    BitFourUp(b, 1);
    LowBits(b / 16);
    hide Bit;
    SixthOf(b);
  }

  lemma SixthOf(b: nat)
    ensures b / 16 / 2 % 2 == 1 <==> b % 64 >= 32
    ensures b % 64 < 32 ==> b % 32 == b % 64
  {
    var q, r := b / 64, b % 64;
    DivUnique(b, 32, 2 * q + r / 32, r % 32);
    Divided(b, 16, 2);
  }
}
