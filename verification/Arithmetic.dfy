/** Arithmetic that spans several instructions: sums and differences of any number of limbs. */
module Arithmetic {
  import opened Words
  import opened Numbers
  import opened MemoryModel
  import opened CpuModel
  import opened Interpreter

  /** One executed instruction: the state it found, with pc already advanced, and the state it left. */
  datatype LimbStep = LimbStep(pre: CpuState, mem: Regions, pc: u32, insn: u32, post: CpuState)

  predicate IsCarryInsn(insn: u32, form: CarryForm) {
    Opcode(insn) == 31 && CarryFormOf(Xo(insn)) == Some(form)
  }

  lemma CarryExecutes(cfg: Config, c: CpuState, mem: Regions, pc: u32, insn: u32, form: CarryForm)
    requires IsCarryInsn(insn, form)
    ensures Execute(cfg, c, mem, pc, insn)
         == Running(CarryArith(c, form, Xo(insn) >= 512, RecordBit(insn), Rt(insn), Ra(insn), Rb(insn)), mem)
  {
    hide Op31Plain, AccessOp, MultipleOp, ReservedOp, BranchRegister, BranchDirect, CarryArith, CrOp, FpOp;
    hide ImmediateOp, SystemCallOp, Rotated;
    var xo := Xo(insn);
    assert XFormAccess(xo).None?;
    assert RegisterOp(cfg, c, insn) == Op31(cfg, c, insn);
  }

  /**
    A chain of carrying instructions over consecutive limbs, least significant
    first. Other instructions may come between two of them as long as they
    leave CA alone.
   */
  ghost predicate Chain(cfg: Config, steps: seq<LimbStep>, first: CarryForm, rest: CarryForm) {
    && (forall i :: 0 <= i < |steps| ==> IsCarryInsn(steps[i].insn, if i == 0 then first else rest))
    && (forall i :: 0 <= i < |steps| ==>
          Execute(cfg, steps[i].pre, steps[i].mem, steps[i].pc, steps[i].insn) == Running(steps[i].post, steps[i].mem))
    && (forall i :: 0 < i < |steps| ==> Ca(steps[i].pre.xer) == Ca(steps[i - 1].post.xer))
  }

  function Base(n: nat): (b: nat)
    ensures b >= 1
  {
    if n == 0 then 1 else 0x1_0000_0000 * Base(n - 1)
  }

  lemma LimbFits(low: nat, unit: nat, top: u32)
    requires low < unit
    ensures 0 <= low + top as int * unit < 0x1_0000_0000 * unit
  {
    assert top as int * unit <= 0xFFFF_FFFF * unit;
  }

  /** The number whose limbs are read off the steps. */
  function Limbs(steps: seq<LimbStep>, read: LimbStep -> u32): (v: nat)
    ensures v < Base(|steps|)
  {
    if |steps| == 0 then 0
    else
      var m := |steps| - 1;
      LimbFits(Limbs(steps[..m], read), Base(m), read(steps[m]));
      Limbs(steps[..m], read) + read(steps[m]) as int * Base(m)
  }

  function OperandA(s: LimbStep): u32 { s.pre.gpr[Ra(s.insn)] }
  function OperandB(s: LimbStep): u32 { s.pre.gpr[Rb(s.insn)] }
  function NotOperandA(s: LimbStep): u32 { Not32(OperandA(s)) }
  function Result(s: LimbStep): u32 { s.post.gpr[Rt(s.insn)] }

  predicate CarryOut(steps: seq<LimbStep>)
    requires |steps| > 0
  {
    Ca(steps[|steps| - 1].post.xer)
  }

  function One(b: bool): nat { if b then 1 else 0 }

  lemma AddWithCarryIs(c: CpuState, form: CarryForm, oe: bool, rc: bool, rt: Reg, ra: Reg, rb: Reg)
    ensures var c' := CarryArith(c, form, oe, rc, rt, ra, rb);
            && c'.gpr[rt] as int + 0x1_0000_0000 * One(Ca(c'.xer))
               == FirstAddend(c, form, ra) as int + SecondAddend(c, form, rb) + CarryIn(c, form)
            && c'.gpr == c.gpr[rt := c'.gpr[rt]]
            && (oe ==> Ov(c'.xer) == OverflowAfter(c.(gpr := c'.gpr), form, CarryIn(c, form), rt, ra, rb))
  {
    hide FirstAddend, SecondAddend, CarryIn, PutCrField, CrNibble, WithCarry, WithOverflow, Bit;
    var carry := CarryIn(c, form);
    assert forall c1: CpuState, c2: CpuState
        {:trigger OverflowAfter(c1, form, carry, rt, ra, rb), OverflowAfter(c2, form, carry, rt, ra, rb)} ::
      c1.gpr == c2.gpr ==>
        OverflowAfter(c1, form, carry, rt, ra, rb) == OverflowAfter(c2, form, carry, rt, ra, rb);
  }

  /** One limb: the two addends and the carry in are the result and the carry out. */
  lemma OneLimb(cfg: Config, s: LimbStep, form: CarryForm)
    requires IsCarryInsn(s.insn, form)
    requires Execute(cfg, s.pre, s.mem, s.pc, s.insn) == Running(s.post, s.mem)
    ensures FirstAddend(s.pre, form, Ra(s.insn)) as int + SecondAddend(s.pre, form, Rb(s.insn)) + CarryIn(s.pre, form)
         == Result(s) as int + 0x1_0000_0000 * One(Ca(s.post.xer))
  {
    hide Execute, CarryArith;
    CarryExecutes(cfg, s.pre, s.mem, s.pc, s.insn, form);
    AddWithCarryIs(s.pre, form, Xo(s.insn) >= 512, RecordBit(s.insn), Rt(s.insn), Ra(s.insn), Rb(s.insn));
  }

  lemma ChainPrefix(cfg: Config, steps: seq<LimbStep>, first: CarryForm, rest: CarryForm)
    requires Chain(cfg, steps, first, rest) && |steps| > 0
    ensures Chain(cfg, steps[..|steps| - 1], first, rest)
  {
    hide Execute;
  }

  lemma CarriesUp(low: int, top: int, unit: nat, x: int, y: int, cin: nat, lowX: int, lowY: int, c0: nat, cout: nat)
    requires lowX + lowY + c0 == low + unit * cin
    requires x + y + cin == top + 0x1_0000_0000 * cout
    ensures lowX + x * unit + (lowY + y * unit) + c0 == low + top * unit + 0x1_0000_0000 * unit * cout
  {
    assert (x + y + cin) * unit == (top + 0x1_0000_0000 * cout) * unit;
  }

  predicate AddForms(first: CarryForm, rest: CarryForm) { first == AddC && rest == AddE }
  predicate SubForms(first: CarryForm, rest: CarryForm) { first == SubFC && rest == SubFE }

  /** The addends of a chain: ra and rb when adding, the complement of ra and rb when subtracting. */
  function Addend(first: CarryForm): LimbStep -> u32 {
    if first == AddC then OperandA else NotOperandA
  }

  lemma {:induction false} ChainSums(cfg: Config, steps: seq<LimbStep>, first: CarryForm, rest: CarryForm)
    requires Chain(cfg, steps, first, rest) && |steps| > 0
    requires AddForms(first, rest) || SubForms(first, rest)
    ensures Limbs(steps, Addend(first)) + Limbs(steps, OperandB) + One(first == SubFC)
         == Limbs(steps, Result) + Base(|steps|) * One(CarryOut(steps))
  {
    hide Execute;
    var m := |steps| - 1;
    var s, low, unit := steps[m], steps[..m], Base(m);
    OneLimb(cfg, s, if m == 0 then first else rest);
    var x, y := Addend(first)(s), OperandB(s);
    var cin := if m == 0 then One(first == SubFC) else One(CarryOut(low));
    if m == 0 {
      assert low == [];
    } else {
      ChainPrefix(cfg, steps, first, rest);
      ChainSums(cfg, low, first, rest);
    }
    CarriesUp(Limbs(low, Result), Result(s), unit, x, y, cin,
              Limbs(low, Addend(first)), Limbs(low, OperandB), One(first == SubFC), One(CarryOut(steps)));
  }

  lemma {:induction false} ComplementLimbs(steps: seq<LimbStep>)
    ensures Limbs(steps, NotOperandA) == Base(|steps|) - 1 - Limbs(steps, OperandA)
  {
    if |steps| > 0 {
      var m := |steps| - 1;
      ComplementLimbs(steps[..m]);
      assert (0xFFFF_FFFF - OperandA(steps[m])) * Base(m) == 0xFFFF_FFFF * Base(m) - OperandA(steps[m]) * Base(m);
    }
  }

  /** addc, then adde for every further limb: the sum, with CA as its carry out. */
  lemma MultiWordSum(cfg: Config, steps: seq<LimbStep>)
    requires |steps| > 0 && Chain(cfg, steps, AddC, AddE)
    ensures Limbs(steps, OperandA) + Limbs(steps, OperandB)
         == Limbs(steps, Result) + Base(|steps|) * One(CarryOut(steps))
  {
    hide Execute;
    ChainSums(cfg, steps, AddC, AddE);
  }

  /** subfc, then subfe for every further limb: rb - ra, with CA clear exactly when that borrows. */
  lemma MultiWordDifference(cfg: Config, steps: seq<LimbStep>)
    requires |steps| > 0 && Chain(cfg, steps, SubFC, SubFE)
    ensures Limbs(steps, OperandB) - Limbs(steps, OperandA)
         == Limbs(steps, Result) - Base(|steps|) * One(!CarryOut(steps))
    ensures CarryOut(steps) <==> Limbs(steps, OperandA) <= Limbs(steps, OperandB)
  {
    hide Execute;
    ChainSums(cfg, steps, SubFC, SubFE);
    ComplementLimbs(steps);
  }

  // ----- overflow of the last limb -----

  /** The two's-complement reading of the limbs. */
  function SignedLimbs(steps: seq<LimbStep>, read: LimbStep -> u32): int
    requires |steps| > 0
  {
    Limbs(steps, read) - (if Negative(read(steps[|steps| - 1])) then Base(|steps|) else 0)
  }

  /** Representable in n limbs of two's complement. */
  predicate FitsLimbs(v: int, n: nat)
    requires n > 0
  {
    -0x8000_0000 * Base(n - 1) <= v < 0x8000_0000 * Base(n - 1)
  }

  lemma TopDecidesFit(top: int, low: nat, unit: nat)
    requires low < unit
    ensures -0x8000_0000 * unit <= top * unit + low < 0x8000_0000 * unit <==> FitsInt32(top)
  {
    if top >= 0x8000_0000 {
      Scaled(0x8000_0000, top, unit);
    } else if top < -0x8000_0000 {
      Scaled(top, -0x8000_0001, unit);
    } else {
      Scaled(-0x8000_0000, top, unit);
      Scaled(top, 0x7FFF_FFFF, unit);
    }
  }

  /** The bit the last instruction leaves in OV, for a result register that is not also an operand. */
  lemma LastOverflow(cfg: Config, s: LimbStep, form: CarryForm)
    requires IsCarryInsn(s.insn, form) && (form == AddC || form == AddE || form == SubFC || form == SubFE)
    requires Execute(cfg, s.pre, s.mem, s.pc, s.insn) == Running(s.post, s.mem)
    requires Xo(s.insn) >= 512 && Rt(s.insn) != Ra(s.insn) && Rt(s.insn) != Rb(s.insn)
    ensures Ov(s.post.xer) <==> !FitsInt32(Signed32(FirstAddend(s.pre, form, Ra(s.insn))) + Signed32(OperandB(s))
            + CarryIn(s.pre, form))
  {
    hide Execute, CarryArith, Xo, Rt, Ra, Rb;
    CarryExecutes(cfg, s.pre, s.mem, s.pc, s.insn, form);
    AddWithCarryIs(s.pre, form, Xo(s.insn) >= 512, RecordBit(s.insn), Rt(s.insn), Ra(s.insn), Rb(s.insn));
    OverflowTests(OperandA(s), OperandB(s));
    OverflowTests(OperandB(s), OperandA(s));
  }

  lemma SignedSplit(steps: seq<LimbStep>, read: LimbStep -> u32)
    requires |steps| > 0
    ensures SignedLimbs(steps, read)
         == Limbs(steps[..|steps| - 1], read) + Signed32(read(steps[|steps| - 1])) * Base(|steps| - 1)
  {
    var m := |steps| - 1;
    var top := read(steps[m]);
    hide Limbs;
    Difference(0x1_0000_0000, top, Base(m));
  }

  /** The signed sum of whole chains is the sum of the top limbs over the low part of the result. */
  lemma SignedSum(cfg: Config, steps: seq<LimbStep>, first: CarryForm, rest: CarryForm)
    requires |steps| > 0 && Chain(cfg, steps, first, rest) && (AddForms(first, rest) || SubForms(first, rest))
    ensures var m := |steps| - 1;
            var top := Signed32(Addend(first)(steps[m])) + Signed32(OperandB(steps[m])) + ChainCarryIn(steps, first);
            SignedLimbs(steps, Addend(first)) + SignedLimbs(steps, OperandB) + One(first == SubFC)
            == top * Base(m) + Limbs(steps[..m], Result)
  {
    hide Chain, Execute, Signed32, Limbs, SignedLimbs;
    var m := |steps| - 1;
    SignedSplit(steps, Addend(first));
    SignedSplit(steps, OperandB);
    LowSum(cfg, steps, first, rest);
    var x, y, cin := Signed32(Addend(first)(steps[m])), Signed32(OperandB(steps[m])), ChainCarryIn(steps, first);
    hide Base, ChainCarryIn, Addend, OperandB, Result, One;
    Distributes(x, y, cin, Base(m));
  }

  /** The carry into the last limb. */
  function ChainCarryIn(steps: seq<LimbStep>, first: CarryForm): nat
    requires |steps| > 0
  {
    if |steps| == 1 then One(first == SubFC) else One(Ca(steps[|steps| - 2].post.xer))
  }

  lemma LowSum(cfg: Config, steps: seq<LimbStep>, first: CarryForm, rest: CarryForm)
    requires |steps| > 0 && Chain(cfg, steps, first, rest) && (AddForms(first, rest) || SubForms(first, rest))
    ensures var low := steps[..|steps| - 1];
            Limbs(low, Addend(first)) + Limbs(low, OperandB) + One(first == SubFC)
            == Limbs(low, Result) + Base(|low|) * ChainCarryIn(steps, first)
  {
    hide Execute;
    if |steps| > 1 {
      ChainPrefix(cfg, steps, first, rest);
      hide Chain;
      ChainSums(cfg, steps[..|steps| - 1], first, rest);
    }
  }

  lemma ChainOverflow(cfg: Config, steps: seq<LimbStep>, first: CarryForm, rest: CarryForm)
    requires |steps| > 0 && Chain(cfg, steps, first, rest) && (AddForms(first, rest) || SubForms(first, rest))
    requires var last := steps[|steps| - 1].insn; Xo(last) >= 512 && Rt(last) != Ra(last) && Rt(last) != Rb(last)
    ensures Ov(steps[|steps| - 1].post.xer)
       <==> !FitsLimbs(SignedLimbs(steps, Addend(first)) + SignedLimbs(steps, OperandB) + One(first == SubFC), |steps|)
  {
    hide Execute, Limbs, SignedLimbs, Bit, Xo, Rt, Ra, Rb, Signed32;
    var m := |steps| - 1;
    var s := steps[m];
    var form := if m == 0 then first else rest;
    LastOverflow(cfg, s, form);
    SignedSum(cfg, steps, first, rest);
    assert CarryIn(s.pre, form) == ChainCarryIn(steps, first);
    assert FirstAddend(s.pre, form, Ra(s.insn)) == Addend(first)(s);
    TopDecidesFit(Signed32(Addend(first)(s)) + Signed32(OperandB(s)) + ChainCarryIn(steps, first),
        Limbs(steps[..m], Result), Base(m));
  }

  /** A final addeo (addco for one limb) sets OV exactly when the signed sum does not fit. */
  lemma MultiWordSumOverflow(cfg: Config, steps: seq<LimbStep>)
    requires |steps| > 0 && Chain(cfg, steps, AddC, AddE)
    requires var last := steps[|steps| - 1].insn; Xo(last) >= 512 && Rt(last) != Ra(last) && Rt(last) != Rb(last)
    ensures Ov(steps[|steps| - 1].post.xer)
       <==> !FitsLimbs(SignedLimbs(steps, OperandA) + SignedLimbs(steps, OperandB), |steps|)
  {
    hide Execute, Chain;
    ChainOverflow(cfg, steps, AddC, AddE);
  }

  /** A final subfeo (subfco for one limb) sets OV exactly when the signed difference does not fit. */
  lemma MultiWordDifferenceOverflow(cfg: Config, steps: seq<LimbStep>)
    requires |steps| > 0 && Chain(cfg, steps, SubFC, SubFE)
    requires var last := steps[|steps| - 1].insn; Xo(last) >= 512 && Rt(last) != Ra(last) && Rt(last) != Rb(last)
    ensures Ov(steps[|steps| - 1].post.xer)
       <==> !FitsLimbs(SignedLimbs(steps, OperandB) - SignedLimbs(steps, OperandA), |steps|)
  {
    hide Execute, Chain;
    ChainOverflow(cfg, steps, SubFC, SubFE);
    ComplementLimbs(steps);
    var top := steps[|steps| - 1];
    assert Negative(NotOperandA(top)) == !Negative(OperandA(top));
  }
}
