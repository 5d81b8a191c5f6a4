/**
  Sums, products, quotients, rotations, comparisons and branches as numbers
  and bits of the registers (src/BuiltinInterpreter.cpp).
 */
module RegisterNumbers {
  import opened Words
  import opened Numbers
  import opened MemoryModel
  import opened CpuModel
  import opened Interpreter
  import opened Accesses
  import opened Registers
  import SignedDivision
  import ElfCode

  /** The 16 low bits of an instruction as a signed number. */
  function SignedImmediate(insn: u32): int {
    var low := insn % 0x1_0000;
    if low < 0x8000 then low else low - 0x1_0000
  }

  /** The register, or zero for register 0. */
  function OrZero(c: CpuState, ra: Reg): u32 { if ra == 0 then 0 else c.gpr[ra] }

  // ----- sums -----

  const SumXos := {40, 104, 266, 552, 616, 778}

  /** add, subf or neg, by the extended opcode without its overflow bit. */
  function Sum(xo: nat, a: int, b: int): int {
    if xo % 512 == 266 then a + b else if xo % 512 == 40 then b - a else -a
  }

  /** subf, neg and add, and their forms that record overflow. */
  lemma SumInstruction(cfg: Config, c: CpuState, mem: Regions, pc: u32, insn: u32, xo: nat)
    requires IsX(insn, xo) && xo in SumXos
    ensures var r, a, b := Execute(cfg, c, mem, pc, insn), c.gpr[FieldA(insn)], c.gpr[FieldB(insn)];
            && r.Running?
            && var v := r.c.gpr[FieldT(insn)];
               && Gives(r, c, mem, FieldT(insn), v, insn % 2 == 1)
               && v == Sum(xo, a, b) % 0x1_0000_0000
               && XerKept(c.xer, r.c.xer, xo >= 512, Ov(r.c.xer))
  {
    hide Execute, Gives, XerKept, Ov;
    var d, record := FieldT(insn), insn % 2 == 1;
    var v, overflow := SumIs(cfg, c, insn, xo);
    var xer := if xo >= 512 then WithOverflow(c.xer, overflow) else c.xer;
    SumExecutes(cfg, c, mem, pc, insn, xo);
    OverflowShows(c.xer, xo >= 512, overflow);
    Given(c, mem, d, v, record, xer);
    hide RecordIf;
    GivenIs(Execute(cfg, c, mem, pc, insn), c, mem, d, v, record);
  }

  lemma OverflowShows(xer: u32, oe: bool, overflow: bool)
    ensures var xer' := if oe then WithOverflow(xer, overflow) else xer; XerKept(xer, xer', oe, Ov(xer'))
  {
    hide Bit, WithOverflow;
    XerAfter(xer, oe, overflow);
  }

  lemma SumExecutes(cfg: Config, c: CpuState, mem: Regions, pc: u32, insn: u32, xo: nat)
    requires IsX(insn, xo) && xo in SumXos && PlainArith(c, insn).Some?
    ensures Execute(cfg, c, mem, pc, insn) == Running(PlainArith(c, insn).value, mem)
  {
    hide PlainArith, Op31Plain, PlainXo, Execute;
    SumXosArePlain(xo);
    PlainArithFirst(cfg, c, insn);
    PlainExecutes(cfg, c, mem, pc, insn);
  }

  lemma SumXosArePlain(xo: nat)
    requires xo in SumXos
    ensures PlainXo(xo)
  {
  }

  lemma PlainArithFirst(cfg: Config, c: CpuState, insn: u32)
    requires PlainArith(c, insn).Some?
    ensures Op31Plain(cfg, c, insn) == Done(PlainArith(c, insn).value)
  {
    hide PlainArith, LogicResult, ProductResult, TrapCondition, CompareInto, CopyFields, SprOp, MoveXerToCr;
    hide ShiftWordAlgebraic, ShiftRightAlgebraic, RecordIf, WithOverflow, PutGpr, Xo, Rt, Ra, Rb, Bf, RecordBit;
  }

  lemma SumIs(cfg: Config, c: CpuState, insn: u32, xo: nat) returns (v: u32, overflow: bool)
    requires IsX(insn, xo) && xo in SumXos
    ensures var a, b := c.gpr[FieldA(insn)], c.gpr[FieldB(insn)];
            v == Sum(xo, a, b) % 0x1_0000_0000
    ensures PlainArith(c, insn)
         == Some(RecordIf(PutGpr(c, FieldT(insn), v).(xer := if xo >= 512 then WithOverflow(c.xer, overflow)
                else c.xer), insn % 2 == 1, v))
  {
    hide RecordIf, WithOverflow, SubOverflow, AddOverflow;
    var a, b, d := c.gpr[FieldA(insn)], c.gpr[FieldB(insn)], FieldT(insn);
    v := Wrap32(Sum(xo, a, b));
    var c1 := PutGpr(c, d, v);
    overflow := if xo % 512 == 40 then SubOverflow(c1.gpr[FieldB(insn)], c1.gpr[FieldA(insn)], v)
                else if xo % 512 == 266 then AddOverflow(c1.gpr[FieldA(insn)], c1.gpr[FieldB(insn)], v)
                else c1.gpr[FieldA(insn)] == 0x8000_0000;
    assert c1.xer == c.xer && c1.gpr[d] == v;
    SameXer(c, d, v);
  }

  // ----- products and quotients -----

  const ProductXos := {11, 75, 235, 459, 491, 747, 971, 1003}

  /**
    mulhwu and mulhw: the high word, which with the low word makes the product.
    mullw: the low word. divwu and divw: the quotient, truncated; 0 where there is none.
   */
  predicate ProductIs(v: u32, xo: nat, a: u32, b: u32) {
    var sa, sb, sv := Signed32(a), Signed32(b), Signed32(v);
    if xo == 11 then v * 0x1_0000_0000 + a * b % 0x1_0000_0000 == a * b
    else if xo == 75 then sv * 0x1_0000_0000 + sa * sb % 0x1_0000_0000 == sa * sb
    else if xo % 512 == 235 then v == sa * sb % 0x1_0000_0000
    else if xo % 512 == 459 then if b == 0 then v == 0 else v * b <= a < v * b + b
    else if Undivided(a, b) then v == 0 else Truncates(sa, sb, sv)
  }

  /** divw has no quotient by 0, nor of the least number by -1. */
  predicate Undivided(a: u32, b: u32) { b == 0 || (a == 0x8000_0000 && b == 0xFFFF_FFFF) }

  /** The remainder is smaller than the divisor and has the sign of the dividend. */
  predicate Truncates(x: int, y: int, q: int) {
    var r := x - q * y;
    Abs(r) < Abs(y) && (x >= 0 ==> r >= 0) && (x <= 0 ==> r <= 0)
  }

  /** What OV becomes, where it is recorded. */
  predicate ProductOverflows(xo: nat, a: u32, b: u32) {
    if xo == 747 then !(-0x8000_0000 <= Signed32(a) * Signed32(b) < 0x8000_0000)
    else if xo == 971 then b == 0 else Undivided(a, b)
  }

  lemma HighWord(p: int, bound: nat)
    requires -(bound as int) * 0x1_0000_0000 <= p < bound * 0x1_0000_0000 && bound <= 0x1_0000_0000
    ensures -(bound as int) <= p / 0x1_0000_0000 < bound
    ensures p / 0x1_0000_0000 * 0x1_0000_0000 + p % 0x1_0000_0000 == p
  {
  }

  lemma UnsignedProduct(a: u32, b: u32)
    ensures 0 <= a * b < 0x1_0000_0000 * 0x1_0000_0000
  {
    Scaled(b, 0xFFFF_FFFF, a);
    Scaled(a, 0xFFFF_FFFF, 0xFFFF_FFFF);
    Product(a, b);
  }

  lemma SignedProduct(a: int, b: int)
    requires FitsInt32(a) && FitsInt32(b)
    ensures -0x8000_0000 * 0x1_0000_0000 <= a * b < 0x8000_0000 * 0x1_0000_0000
  {
    var m := 0x8000_0000;
    var x, y := Abs(a), Abs(b);
    Scaled(y, m, x);
    Scaled(x, m, m);
    Product(x, y);
    Signs(a, b);
  }

  lemma Signs(a: int, b: int)
    ensures a * b == Abs(a) * Abs(b) || a * b == -(Abs(a) * Abs(b))
  {
    if a >= 0 && b < 0 { assert a * b == -(a * (-b)); }
    if a < 0 && b >= 0 { assert a * b == -((-a) * b); }
    if a < 0 && b < 0 { assert a * b == (-a) * (-b); }
  }

  lemma TruncatedQuotient(x: int, y: int)
    requires y != 0
    ensures Truncates(x, y, TruncDiv(x, y))
  {
    var a, b := Abs(x), Abs(y);
    var q, r := a / b, a % b;
    var p := b * q;
    assert a == p + r;
    Signed(b, q, y);
    hide Truncates;
    TruncatesFrom(x, y, TruncDiv(x, y), p, r);
  }

  lemma TruncatesFrom(x: int, y: int, q: int, p: nat, r: nat)
    requires q * y == (if x < 0 then -(p as int) else p) && Abs(x) == p + r && r < Abs(y)
    ensures Truncates(x, y, q)
  {
  }

  lemma Signed(b: nat, q: nat, y: int)
    requires y == b || y == -(b as int)
    ensures q * y == (if y == b then b * q else -(b as int * q)) && -(q as int) * y == if y == b then -(b as int * q)
            else b * q
  {
  }

  lemma ProductAgrees(xo: nat, a: u32, b: u32)
    requires xo in ProductXos
    ensures ProductResult(xo, a, b).Some?
    ensures ProductIs(ProductResult(xo, a, b).value.0, xo, a, b)
    ensures xo >= 512 ==> ProductResult(xo, a, b).value.1 == ProductOverflows(xo, a, b)
  {
    if xo == 11 {
      UnsignedProduct(a, b);
      HighUnsigned(a * b);
    } else if xo == 75 {
      HighSigned(a, b);
    } else if xo % 512 == 235 {
      LowWord(xo, a, b);
    } else if xo % 512 == 459 {
      UnsignedQuotient(xo, a, b);
    } else {
      SignedQuotient(xo, a, b);
    }
  }

  lemma HighSigned(a: u32, b: u32)
    ensures ProductResult(75, a, b).Some? && ProductIs(ProductResult(75, a, b).value.0, 75, a, b)
  {
    var p := Signed32(a) * Signed32(b);
    SignedProduct(Signed32(a), Signed32(b));
    HighWord(p, 0x8000_0000);
    SignedDivision.SignedOfWrapped(p / 0x1_0000_0000);
  }

  lemma HighUnsigned(p: nat)
    requires p < 0x1_0000_0000 * 0x1_0000_0000
    ensures Wrap32(p / 0x1_0000_0000) * 0x1_0000_0000 + p % 0x1_0000_0000 == p
  {
    HighWord(p, 0x1_0000_0000);
  }

  lemma LowWord(xo: nat, a: u32, b: u32)
    requires xo == 235 || xo == 747
    ensures var r := ProductResult(xo, a, b);
            && r.Some? && ProductIs(r.value.0, xo, a, b)
            && (xo == 747 ==> r.value.1 == ProductOverflows(xo, a, b))
  {
    hide Signed32;
  }

  lemma UnsignedQuotient(xo: nat, a: u32, b: u32)
    requires xo == 459 || xo == 971
    ensures var r := ProductResult(xo, a, b);
            && r.Some? && ProductIs(r.value.0, xo, a, b)
            && (xo == 971 ==> r.value.1 == ProductOverflows(xo, a, b))
  {
    hide Signed32, TruncDiv;
    if b > 0 {
      var q, r := a / b, a % b;
      assert a == b * q + r && b * q == q * b;
      SmallQuotient(a, b);
    }
  }

  lemma SmallQuotient(a: nat, b: nat)
    requires b >= 1
    ensures 0 <= a / b <= a
  {
    var q := a / b;
    Scaled(1, b, q);
    assert a == b * q + a % b;
  }

  lemma QuotientFits(x: int, y: int)
    requires FitsInt32(x) && FitsInt32(y) && y != 0 && !(x == -0x8000_0000 && y == -1)
    ensures FitsInt32(TruncDiv(x, y))
  {
    SmallQuotient(Abs(x), Abs(y));
    if x == -0x8000_0000 && y < -1 { HalvedAtMost(Abs(x), Abs(y)); }
  }

  lemma HalvedAtMost(a: nat, b: nat)
    requires b >= 2
    ensures 2 * (a / b) <= a
  {
    var q := a / b;
    Scaled(2, b, q);
    assert a == b * q + a % b;
  }

  lemma SignedQuotient(xo: nat, a: u32, b: u32)
    requires xo == 491 || xo == 1003
    ensures var r := ProductResult(xo, a, b);
            && r.Some? && ProductIs(r.value.0, xo, a, b)
            && (xo == 1003 ==> r.value.1 == ProductOverflows(xo, a, b))
  {
    var sa, sb := Signed32(a), Signed32(b);
    hide Truncates, TruncDiv;
    if !Undivided(a, b) {
      QuotientFits(sa, sb);
      TruncatedQuotient(sa, sb);
      SignedDivision.SignedOfWrapped(TruncDiv(sa, sb));
    }
  }

  /** Products and quotients reach rT, with OV as they say where it is recorded. */
  lemma ProductInstruction(cfg: Config, c: CpuState, mem: Regions, pc: u32, insn: u32, xo: nat)
    requires IsX(insn, xo) && xo in ProductXos
    ensures var r, a, b := Execute(cfg, c, mem, pc, insn), c.gpr[FieldA(insn)], c.gpr[FieldB(insn)];
            && r.Running?
            && var v := r.c.gpr[FieldT(insn)];
               && Gives(r, c, mem, FieldT(insn), v, insn % 2 == 1) && ProductIs(v, xo, a, b)
               && XerKept(c.xer, r.c.xer, xo >= 512, ProductOverflows(xo, a, b))
  {
    hide Execute, Gives, XerKept, ProductIs, ProductResult, RecordIf, Op31Plain, PlainXo, ProductOverflows, ProductXos;
    var d, record, a, b := FieldT(insn), insn % 2 == 1, c.gpr[FieldA(insn)], c.gpr[FieldB(insn)];
    ProductAgrees(xo, a, b);
    ProductXosArePlain(xo, c, insn, b);
    var (v, overflow) := ProductResult(xo, a, b).value;
    var xer := if xo >= 512 then WithOverflow(c.xer, overflow) else c.xer;
    ProductExecutes(cfg, c, insn, v, overflow);
    PlainExecutes(cfg, c, mem, pc, insn);
    XerAfter(c.xer, xo >= 512, overflow);
    SameXer(c, d, v);
    Given(c, mem, d, v, record, xer);
    GivenIs(Execute(cfg, c, mem, pc, insn), c, mem, d, v, record);
    if xo < 512 { XerWithout(c.xer, overflow, ProductOverflows(xo, a, b)); }
  }

  lemma XerWithout(xer: u32, overflow: bool, other: bool)
    requires XerKept(xer, xer, false, overflow)
    ensures XerKept(xer, xer, false, other)
  {
    hide Bit;
  }

  lemma ProductXosArePlain(xo: nat, c: CpuState, insn: u32, b: u32)
    requires xo in ProductXos
    ensures PlainXo(xo) && (Xo(insn) == xo ==> PlainArith(c, insn).None?)
            && LogicResult(xo, c.gpr[FieldT(insn)], b).None?
  {
    hide PlainArith, Xo, Bit, And32, Or32, Xor32, Not32, Shl32, Shr32, CountLeadingZeros32, SignExtend16, SignExtend8;
    if Xo(insn) == xo { NotPlainArith(c, insn); }
  }

  lemma ProductExecutes(cfg: Config, c: CpuState, insn: u32, v: u32, overflow: bool)
    requires PlainArith(c, insn).None? && LogicResult(Xo(insn), c.gpr[Rt(insn)], c.gpr[Rb(insn)]).None?
    requires ProductResult(Xo(insn), c.gpr[Ra(insn)], c.gpr[Rb(insn)]) == Some((v, overflow))
    ensures var c1 := PutGpr(c, Rt(insn), v);
            Op31Plain(cfg, c, insn)
            == Done(RecordIf(if Xo(insn) >= 512 then c1.(xer := WithOverflow(c.xer, overflow)) else c1,
                    RecordBit(insn), v))
  {
    hide LogicResult, PlainArith, ProductResult, TrapCondition, CompareInto, CopyFields, SprOp, MoveXerToCr, RecordIf;
    hide ShiftWordAlgebraic, ShiftRightAlgebraic, Xo, Rt, Ra, Rb, Bf, RecordBit, CacheHint, Signed32, WithOverflow;
  }

  // ----- immediates -----

  /** mulli, addi and addis. */
  lemma ImmediateSum(cfg: Config, c: CpuState, mem: Regions, pc: u32, insn: u32)
    requires insn / 0x400_0000 in {7, 14, 15}
    ensures var op, i, base := insn / 0x400_0000, SignedImmediate(insn), OrZero(c, FieldA(insn));
            var v := (if op == 7 then Signed32(c.gpr[FieldA(insn)]) * i else if op == 14 then base + i
                      else base + i * 0x1_0000) % 0x1_0000_0000;
            Execute(cfg, c, mem, pc, insn) == Running(c.(gpr := c.gpr[FieldT(insn) := v]), mem)
  {
    ImmediateSumIs(cfg, c, insn);
    hide RegisterOp, Execute, SignedImmediate, OrZero, Signed32;
    OtherExecutes(cfg, c, mem, pc, insn);
  }

  lemma ImmediateSumIs(cfg: Config, c: CpuState, insn: u32)
    requires Opcode(insn) in {7, 14, 15}
    ensures var i, base := SignedImmediate(insn), OrZero(c, Ra(insn));
            RegisterOp(cfg, c, insn)
            == Done(PutGpr(c, Rt(insn), Wrap32(if Opcode(insn) == 7 then Signed32(c.gpr[Ra(insn)]) * i
                                               else if Opcode(insn) == 14 then base + i else base + i * 0x1_0000)))
  {
    hide TrapCondition, AddWithCarry, CompareInto, Op31, CrOp, FpOp, SystemCallOp, Signed32, Wrap32;
  }

  /** i - a as i plus the complement of a plus one, or a + i, not reduced; i is the immediate modulo 2^32. */
  function WholeSum(insn: u32, a: u32): int {
    var i := SignedImmediate(insn) % 0x1_0000_0000;
    if insn / 0x400_0000 == 8 then i + (0xFFFF_FFFF - a) + 1 else a + i
  }

  /** Only CA changes: the result and CA together are the whole sum. */
  ghost predicate Carries(v: u32, xer: u32, xer': u32, sum: int) {
    && v + (if Ca(xer') then 0x1_0000_0000 else 0) == sum
    && forall j: nat :: j < 32 && j != 29 ==> Bit(xer', j) == Bit(xer, j)
  }

  /** subfic, addic and addic. */
  lemma ImmediateCarry(cfg: Config, c: CpuState, mem: Regions, pc: u32, insn: u32)
    requires insn / 0x400_0000 in {8, 12, 13}
    ensures var r := Execute(cfg, c, mem, pc, insn);
            && r.Running?
            && Gives(r, c, mem, FieldT(insn), r.c.gpr[FieldT(insn)], insn / 0x400_0000 == 13)
            && Carries(r.c.gpr[FieldT(insn)], c.xer, r.c.xer, WholeSum(insn, c.gpr[FieldA(insn)]))
  {
    hide *;
    var record, d, sum := Opcode(insn) == 13, FieldT(insn), WholeSum(insn, c.gpr[FieldA(insn)]);
    var v, xer := Wrap32(sum), WithCarry(c.xer, sum >= 0x1_0000_0000);
    SameFields(insn);
    CarryImmediateIs(cfg, c, insn);
    ImmediateExecutes(cfg, c, mem, pc, insn);
    CarriesWhole(c.xer, insn, c.gpr[FieldA(insn)]);
    Given(c, mem, d, v, record, xer);
    GivenIs(Execute(cfg, c, mem, pc, insn), c, mem, d, v, record);
  }

  lemma SameFields(insn: u32)
    ensures Rt(insn) == FieldT(insn) && Ra(insn) == FieldA(insn) && Rb(insn) == FieldB(insn)
    ensures Opcode(insn) == insn / 0x400_0000
  {
  }

  lemma CarriesWhole(xer: u32, insn: u32, a: u32)
    ensures var sum := WholeSum(insn, a); Carries(Wrap32(sum), xer, WithCarry(xer, sum >= 0x1_0000_0000), sum)
  {
    var sum := WholeSum(insn, a);
    SumRange(insn, a);
    WrappedOnce(sum);
    hide Bit, WholeSum, Wrap32;
    forall j: nat | j < 32 && j != 29 ensures Bit(WithCarry(xer, sum >= 0x1_0000_0000), j) == Bit(xer, j) {
      WithCarryBits(xer, sum >= 0x1_0000_0000, j);
    }
  }

  lemma WrappedOnce(sum: int)
    requires 0 <= sum < 0x2_0000_0000
    ensures Wrap32(sum) == if sum >= 0x1_0000_0000 then sum - 0x1_0000_0000 else sum
  {
  }

  lemma SumRange(insn: u32, a: u32)
    ensures 0 <= WholeSum(insn, a) < 0x2_0000_0000
  {
    hide SignedImmediate;
  }

  lemma ImmediateExecutes(cfg: Config, c: CpuState, mem: Regions, pc: u32, insn: u32)
    requires insn / 0x400_0000 in {8, 12, 13} && ImmediateOp(cfg, c, insn).Done?
    ensures Execute(cfg, c, mem, pc, insn) == Running(ImmediateOp(cfg, c, insn).c, mem)
  {
    hide ImmediateOp, AccessOp, MultipleOp, ReservedOp, BranchRegister, BranchDirect, Op31, CrOp, FpOp, SystemCallOp;
  }

  lemma CarryImmediateIs(cfg: Config, c: CpuState, insn: u32)
    requires Opcode(insn) in {8, 12, 13}
    ensures var sum := WholeSum(insn, c.gpr[Ra(insn)]);
            var v, xer := Wrap32(sum), WithCarry(c.xer, sum >= 0x1_0000_0000);
            ImmediateOp(cfg, c, insn) == Done(RecordIf(PutGpr(c, Rt(insn), v).(xer := xer), Opcode(insn) == 13, v))
  {
    hide TrapCondition, CompareInto, WithCarry, RecordCr0;
  }

  // ----- rotations -----

  /** The bits from mb to me, around the end if me comes first; bit 0 is the most significant. */
  predicate Within(mb: nat, me: nat, p: nat) {
    if mb <= me then mb <= p && p <= me else p >= mb || p <= me
  }

  /** Where the mask is set the rotated source shows; elsewhere the old target for rlwimi, and zero for the others. */
  ghost predicate RotatesTo(v: u32, source: u32, n: nat, mb: nat, me: nat, was: u32, insert: bool) {
    forall p: nat :: p < 32 ==>
      CrBit(v, p) == if Within(mb, me, p) then CrBit(source, (p + n) % 32) else insert && CrBit(was, p)
  }

  lemma RotatedValue(source: u32, n: nat, mb: nat, me: nat, was: u32, insert: bool)
    requires n < 32
    ensures var kept := And32(Rotl32(source, n), PpcMask(mb, me));
            RotatesTo(if insert then Or32(And32(was, Not32(PpcMask(mb, me))), kept) else kept,
                source, n, mb, me, was, insert)
  {
    hide Bit, And32, Or32, Not32, Rotl32, PpcMask;
    var mask, turned := PpcMask(mb, me), Rotl32(source, n);
    var kept := And32(turned, mask);
    var v := if insert then Or32(And32(was, Not32(mask)), kept) else kept;
    forall p: nat | p < 32
      ensures CrBit(v, p) == if Within(mb, me, p) then CrBit(source, (p + n) % 32) else insert && CrBit(was, p)
    {
      PpcMaskBits(mb, me, p);
      RotatedBits(source, n, p);
      NotBits(mask, 31 - p);
      OrAndBits(turned, mask, 31 - p);
      OrAndBits(was, Not32(mask), 31 - p);
      OrAndBits(And32(was, Not32(mask)), kept, 31 - p);
    }
  }

  /** The first and the last bit of the mask. */
  function MaskBegin(insn: u32): nat { insn / 0x40 % 32 }
  function MaskEnd(insn: u32): nat { insn / 2 % 32 }

  /** The distance is in the instruction, or in the low five bits of rB for rlwnm. */
  function Distance(c: CpuState, insn: u32): (n: nat)
    ensures n < 32
  {
    if insn / 0x400_0000 == 23 then c.gpr[FieldB(insn)] % 32 else FieldB(insn)
  }

  /** rlwimi, rlwinm and rlwnm. */
  lemma RotateInstruction(cfg: Config, c: CpuState, mem: Regions, pc: u32, insn: u32)
    requires insn / 0x400_0000 in {20, 21, 23}
    ensures var r, d, op := Execute(cfg, c, mem, pc, insn), FieldA(insn), insn / 0x400_0000;
            && r.Running? && Gives(r, c, mem, d, r.c.gpr[d], insn % 2 == 1) && r.c.xer == c.xer
            && RotatesTo(r.c.gpr[d], c.gpr[FieldT(insn)], Distance(c, insn), MaskBegin(insn), MaskEnd(insn), c.gpr[d],
                op == 20)
  {
    var v := RotationOf(cfg, c, insn);
    hide *;
    RotateGives(cfg, c, mem, pc, insn, FieldA(insn), v);
  }

  lemma RotationOf(cfg: Config, c: CpuState, insn: u32) returns (v: u32)
    requires insn / 0x400_0000 in {20, 21, 23}
    ensures RotatesTo(v, c.gpr[FieldT(insn)], Distance(c, insn), MaskBegin(insn), MaskEnd(insn), c.gpr[FieldA(insn)],
                insn / 0x400_0000 == 20)
    ensures RegisterOp(cfg, c, insn) == Done(RecordIf(PutGpr(c, FieldA(insn), v), insn % 2 == 1, v))
  {
    hide *;
    var insert, d, s := insn / 0x400_0000 == 20, FieldA(insn), c.gpr[FieldT(insn)];
    var n, mask := Distance(c, insn), PpcMask(MaskBegin(insn), MaskEnd(insn));
    var kept := And32(Rotl32(s, n), mask);
    v := if insert then Or32(And32(c.gpr[d], Not32(mask)), kept) else kept;
    RotatedIs(cfg, c, insn, mask, v);
    RotatedValue(s, n, MaskBegin(insn), MaskEnd(insn), c.gpr[d], insert);
  }

  lemma RotateGives(cfg: Config, c: CpuState, mem: Regions, pc: u32, insn: u32, d: Reg, v: u32)
    requires insn / 0x400_0000 in {20, 21, 23}
    requires RegisterOp(cfg, c, insn) == Done(RecordIf(PutGpr(c, d, v), insn % 2 == 1, v))
    ensures var r := Execute(cfg, c, mem, pc, insn);
            Gives(r, c, mem, d, v, insn % 2 == 1) && r.c.xer == c.xer && r.c.gpr[d] == v
  {
    hide *;
    SameFields(insn);
    OtherExecutes(cfg, c, mem, pc, insn);
    Given(c, mem, d, v, insn % 2 == 1, c.xer);
    SameXer(c, d, v);
    GivenIs(Execute(cfg, c, mem, pc, insn), c, mem, d, v, insn % 2 == 1);
  }

  lemma RotatedIs(cfg: Config, c: CpuState, insn: u32, mask: u32, v: u32)
    requires insn / 0x400_0000 in {20, 21, 23} && mask == PpcMask(MaskBegin(insn), MaskEnd(insn))
    requires var kept := And32(Rotl32(c.gpr[FieldT(insn)], Distance(c, insn)), mask);
             v == if insn / 0x400_0000 == 20 then Or32(And32(c.gpr[FieldA(insn)], Not32(mask)), kept) else kept
    ensures RegisterOp(cfg, c, insn) == Done(RecordIf(PutGpr(c, FieldA(insn), v), insn % 2 == 1, v))
  {
    hide RecordIf, And32, Or32, Not32, Rotl32, PpcMask, Op31, CrOp, FpOp, ImmediateOp, SystemCallOp;
  }

  // ----- comparisons and condition bits -----

  /** A field of CR has less, greater, equal and SO; every other bit and register is as before. */
  ghost predicate Compares(r: StepResult, c: CpuState, mem: Regions, field: nat, a: int, b: int) {
    && r.Running? && r.mem == mem && r.c == c.(cr := r.c.cr)
    && forall bi: nat :: bi < 32 ==> ComparedBit(c, r.c.cr, field, a, b, bi)
  }

  predicate ComparedBit(c: CpuState, cr: u32, field: nat, a: int, b: int, bi: nat) {
    CrBit(cr, bi)
    == if bi / 4 != field then CrBit(c.cr, bi) else if bi % 4 == 0 then a < b else if bi % 4 == 1 then a > b
       else if bi % 4 == 2 then a == b else So(c.xer)
  }

  lemma ComparesInto(c: CpuState, mem: Regions, field: nat, a: int, b: int)
    requires field < 8
    ensures Compares(Running(CompareInto(c, field, a, b), mem), c, mem, field, a, b)
  {
    hide CrBit, Bit, PutCrField, CrNibble;
    forall bi: nat | bi < 32 ensures ComparedBit(c, CompareInto(c, field, a, b).cr, field, a, b, bi) {
      CrFieldReadsBack(c.cr, field, a < b, a > b, a == b, So(c.xer), bi);
    }
  }

  /** cmp and cmpl on registers, cmpi and cmpli on an immediate: signed, or as they are. */
  lemma CompareInstruction(cfg: Config, c: CpuState, mem: Regions, pc: u32, insn: u32)
    requires IsX(insn, 0) || IsX(insn, 32) || insn / 0x400_0000 in {10, 11}
    ensures var r, field, a := Execute(cfg, c, mem, pc, insn), insn / 0x80_0000 % 8, c.gpr[FieldA(insn)];
            if IsX(insn, 0) then Compares(r, c, mem, field, Signed32(a), Signed32(c.gpr[FieldB(insn)]))
            else if IsX(insn, 32) then Compares(r, c, mem, field, a, c.gpr[FieldB(insn)])
            else if insn / 0x400_0000 == 11 then Compares(r, c, mem, field, Signed32(a), SignedImmediate(insn))
            else Compares(r, c, mem, field, a, insn % 0x1_0000)
  {
    hide Execute, Compares, CompareInto, Signed32, SignedImmediate, Op31Plain, PlainXo, RegisterOp;
    var field, a, b := insn / 0x80_0000 % 8, c.gpr[FieldA(insn)], c.gpr[FieldB(insn)];
    if IsX(insn, 0) || IsX(insn, 32) {
      CompareIs(cfg, c, insn);
      PlainExecutes(cfg, c, mem, pc, insn);
      ComparesInto(c, mem, field, Signed32(a), Signed32(b));
      ComparesInto(c, mem, field, a, b);
    } else {
      CompareImmediateIs(cfg, c, insn);
      OtherExecutes(cfg, c, mem, pc, insn);
      ComparesInto(c, mem, field, Signed32(a), SignedImmediate(insn));
      ComparesInto(c, mem, field, a, insn % 0x1_0000);
    }
  }

  /** Extended opcodes of the plain group that are neither sums, nor logic, nor products. */
  lemma NoResult(c: CpuState, insn: u32)
    requires Xo(insn) in {0, 32, 339, 467, 792, 824}
    ensures PlainXo(Xo(insn)) && PlainArith(c, insn).None?
    ensures LogicResult(Xo(insn), c.gpr[Rt(insn)], c.gpr[Rb(insn)]).None?
    ensures ProductResult(Xo(insn), c.gpr[Ra(insn)], c.gpr[Rb(insn)]).None?
  {
    NotPlainArith(c, insn);
    OtherXos(Xo(insn), c.gpr[Rt(insn)], c.gpr[Ra(insn)], c.gpr[Rb(insn)]);
    hide PlainArith, PlainXo, LogicResult, ProductResult;
  }

  lemma OtherXos(xo: nat, s: u32, a: u32, b: u32)
    requires xo in {0, 32, 339, 467, 792, 824}
    ensures PlainXo(xo) && LogicResult(xo, s, b).None? && ProductResult(xo, a, b).None?
  {
    hide And32, Or32, Xor32, Not32, Shl32, Shr32, CountLeadingZeros32, SignExtend16, SignExtend8, Bit, Signed32;
    hide TruncDiv;
  }

  lemma CompareIs(cfg: Config, c: CpuState, insn: u32)
    requires Opcode(insn) == 31 && (Xo(insn) == 0 || Xo(insn) == 32)
    ensures PlainXo(Xo(insn))
    ensures var a, b := c.gpr[Ra(insn)], c.gpr[Rb(insn)];
            Op31Plain(cfg, c, insn)
            == Done(if Xo(insn) == 0 then CompareInto(c, Bf(insn), Signed32(a), Signed32(b))
                    else CompareInto(c, Bf(insn), a, b))
  {
    NoResult(c, insn);
    hide PlainXo, CompareInto, Signed32, PlainArith, LogicResult, ProductResult, RecordIf, PutGpr, TrapCondition;
    hide CopyFields, SprOp, MoveXerToCr, ShiftWordAlgebraic, ShiftRightAlgebraic;
  }

  lemma CompareImmediateIs(cfg: Config, c: CpuState, insn: u32)
    requires Opcode(insn) == 10 || Opcode(insn) == 11
    ensures var a := c.gpr[Ra(insn)];
            RegisterOp(cfg, c, insn)
            == Done(if Opcode(insn) == 11 then CompareInto(c, Bf(insn), Signed32(a), SignedImmediate(insn))
                    else CompareInto(c, Bf(insn), a, insn % 0x1_0000))
  {
    hide CompareInto, Signed32, Op31, CrOp, FpOp, SystemCallOp, TrapCondition, AddWithCarry;
  }

  /** crnor, crandc, crxor, crnand, crand, creqv, crorc and cror, by extended opcode. */
  predicate CrCombined(xo: nat, a: bool, b: bool) {
    if xo == 33 then !a && !b else if xo == 129 then a && !b else if xo == 193 then a != b
    else if xo == 225 then !a || !b else if xo == 257 then a && b else if xo == 289 then a == b
    else if xo == 417 then a || !b else a || b
  }

  predicate CombinedBit(cr: u32, cr': u32, xo: nat, target: nat, a: nat, b: nat, bi: nat) {
    CrBit(cr', bi) == if bi == target then CrCombined(xo, CrBit(cr, a), CrBit(cr, b)) else CrBit(cr, bi)
  }

  /** One bit of CR becomes a combination of two, and everything else is kept. */
  lemma ConditionLogic(cfg: Config, c: CpuState, mem: Regions, pc: u32, insn: u32, xo: nat)
    requires insn / 0x400_0000 == 19 && insn / 2 % 1024 == xo && xo in {33, 129, 193, 225, 257, 289, 417, 449}
    ensures var r := Execute(cfg, c, mem, pc, insn);
            && r.Running? && r.mem == mem && r.c == c.(cr := r.c.cr)
            && forall bi: nat :: bi < 32 ==>
                 CombinedBit(c.cr, r.c.cr, xo, FieldT(insn), FieldA(insn), FieldB(insn), bi)
  {
    var t, a, b := FieldT(insn), FieldA(insn), FieldB(insn);
    hide Execute, CrBit, SetCrBitTo, CrCombined;
    CrLogicIs(c, insn, xo);
    hide CrOp;
    CrExecutes(cfg, c, mem, pc, insn);
    forall bi: nat | bi < 32
      ensures CombinedBit(c.cr, SetCrBitTo(c.cr, t, CrCombined(xo, CrBit(c.cr, a), CrBit(c.cr, b))), xo, t, a, b, bi)
    {
      CrBitReadsBack(c.cr, t, CrCombined(xo, CrBit(c.cr, a), CrBit(c.cr, b)), bi);
    }
  }

  lemma CrLogicIs(c: CpuState, insn: u32, xo: nat)
    requires Xo(insn) == xo && xo in {33, 129, 193, 225, 257, 289, 417, 449}
    ensures CrOp(c, insn)
         == Done(c.(cr := SetCrBitTo(c.cr, Rt(insn), CrCombined(xo, CrBit(c.cr, Ra(insn)), CrBit(c.cr, Rb(insn))))))
  {
    hide CrBit, SetCrBitTo, Xo, Rt, Ra, Rb, Bf, PutCrField, GetCrField;
  }

  lemma CrBitReadsBack(cr: u32, t: nat, v: bool, bi: nat)
    requires t < 32 && bi < 32
    ensures CrBit(SetCrBitTo(cr, t, v), bi) == if bi == t then v else CrBit(cr, bi)
  {
    Pow2Of32();
    SetBitBits(cr, 31 - t, v, 32, 31 - bi);
    hide Bit, SetBit;
  }

  lemma CrExecutes(cfg: Config, c: CpuState, mem: Regions, pc: u32, insn: u32)
    requires Opcode(insn) == 19 && Xo(insn) !in {16, 528} && CrOp(c, insn).Done?
    ensures Execute(cfg, c, mem, pc, insn) == Running(CrOp(c, insn).c, mem)
  {
    hide CrOp, AccessOp, MultipleOp, ReservedOp, BranchRegister, BranchDirect, Op31, FpOp, ImmediateOp, SystemCallOp;
  }

  // ----- branches -----

  /** CTR after the instruction: one less, unless the third bit of BO keeps it. */
  function CountAfter(c: CpuState, insn: u32): u32 {
    if insn / 0x80_0000 % 2 == 1 then c.ctr else if c.ctr == 0 then 0xFFFF_FFFF else c.ctr - 1
  }

  /** BO says whether CTR must be zero or not zero, or does not matter, and the bit BI of CR likewise. */
  predicate Taken(c: CpuState, insn: u32) {
    var bo := insn / 0x20_0000 % 32;
    && (bo / 4 % 2 == 1 || (CountAfter(c, insn) == 0) == (bo / 2 % 2 == 1))
    && (bo / 16 == 1 || CrBit(c.cr, insn / 0x1_0000 % 32) == (bo / 8 % 2 == 1))
  }

  lemma BranchAgrees(c: CpuState, insn: u32)
    ensures CtrAfter(c, Rt(insn)) == CountAfter(c, insn) && (BranchTaken(c, Rt(insn), Ra(insn)) <==> Taken(c, insn))
  {
    var bo := Rt(insn);
    LowBits(bo);
    BitFourUp(bo, 0);
    CountBit(insn);
    hide CrBit, Bit;
  }

  lemma CountBit(insn: u32)
    ensures insn / 0x20_0000 % 32 / 4 % 2 == insn / 0x80_0000 % 2
  {
    var x := insn / 0x20_0000;
    Divided(insn, 0x20_0000, 4);
    var q, r := x / 32, x % 32;
    DivUnique(x, 4, 8 * q + r / 4, r % 4);
  }

  /** A displacement field, whose two low bits are flags, as a signed number. */
  function Displacement(insn: u32, values: nat): int
    requires values > 0
  {
    var field := insn % values - insn % 4;
    if 2 * field < values then field else field - values
  }

  lemma DisplacementAgrees(insn: u32)
    ensures Li(insn) == Displacement(insn, 0x400_0000) && Bd(insn) == Displacement(insn, 0x1_0000)
  {
    FlagsOfRest(insn, 0x400_0000);
    FlagsOfRest(insn, 0x1_0000);
  }

  /** b: LR has the next address if LK is set, and execution goes on at the target, from here or from 0. */
  lemma BranchInstruction(cfg: Config, c: CpuState, mem: Regions, pc: u32, insn: u32)
    requires insn / 0x400_0000 == 18
    ensures Execute(cfg, c, mem, pc, insn)
         == Running(c.(lr := if insn % 2 == 1 then c.pc else c.lr,
                       pc := ((if insn / 2 % 2 == 1 then 0 else pc)
                           + Displacement(insn, 0x400_0000)) % 0x1_0000_0000), mem)
  {
    hide Execute, Li, Bd, Displacement;
    DisplacementAgrees(insn);
    ElfCode.ExecuteB(cfg, c, mem, pc, insn);
  }

  /** bc: the count and the condition decide; LR is set whether or not the branch is taken. */
  lemma ConditionalBranch(cfg: Config, c: CpuState, mem: Regions, pc: u32, insn: u32)
    requires insn / 0x400_0000 == 16
    ensures var target := ((if insn / 2 % 2 == 1 then 0 else pc) + Displacement(insn, 0x1_0000)) % 0x1_0000_0000;
            Execute(cfg, c, mem, pc, insn)
            == Running(c.(lr := if insn % 2 == 1 then c.pc else c.lr, ctr := CountAfter(c, insn),
                          pc := if Taken(c, insn) then target else c.pc), mem)
  {
    hide Execute, BranchTaken, Taken, CtrAfter, CountAfter, Li, Bd, Displacement;
    DisplacementAgrees(insn);
    BranchAgrees(c, insn);
    ElfCode.ExecuteBc(cfg, c, mem, pc, insn);
  }

  /** bclr and bcctr, unless bcctr to 0 stands for an import: to LR or CTR as they were, aligned. */
  lemma RegisterBranch(cfg: Config, c: CpuState, mem: Regions, pc: u32, insn: u32, xo: nat)
    requires insn / 0x400_0000 == 19 && insn / 2 % 1024 == xo && (xo == 16 || xo == 528)
    requires !(xo == 528 && c.ctr < 4 && InImports(cfg, c.gpr[12]))
    ensures var target := if xo == 528 then c.ctr - c.ctr % 4 else c.lr - c.lr % 4;
            Execute(cfg, c, mem, pc, insn)
            == Running(c.(ctr := CountAfter(c, insn), lr := if Taken(c, insn) && insn % 2 == 1 then c.pc else c.lr,
                          pc := if Taken(c, insn) then target else c.pc), mem)
  {
    hide Execute, BranchRegister, BranchTaken, Taken, CtrAfter, CountAfter, InImports;
    RegisterBranchExecutes(cfg, c, mem, pc, insn);
    BranchAgrees(c, insn);
    FollowsRegister(cfg, c, mem, insn);
    AlignedDown(c.ctr);
    AlignedDown(c.lr);
    var source := if xo == 528 then c.ctr else c.lr;
    assert Xo(insn) == xo && source / 4 * 4 == source - source % 4;
    assert BranchTaken(c, Rt(insn), Ra(insn)) == Taken(c, insn);
    assert RecordBit(insn) == (insn % 2 == 1);
  }

  lemma AlignedDown(a: u32)
    ensures a / 4 * 4 == a - a % 4 && (a / 4 * 4 == 0 <==> a < 4)
  {
  }

  lemma RegisterBranchExecutes(cfg: Config, c: CpuState, mem: Regions, pc: u32, insn: u32)
    requires Opcode(insn) == 19 && (Xo(insn) == 16 || Xo(insn) == 528)
    ensures Execute(cfg, c, mem, pc, insn) == BranchRegister(cfg, c, mem, insn)
  {
    hide RegisterOp, AccessOp, MultipleOp, ReservedOp, BranchDirect, BranchRegister;
  }

  lemma FollowsRegister(cfg: Config, c: CpuState, mem: Regions, insn: u32)
    requires !(Xo(insn) == 528 && c.ctr / 4 * 4 == 0 && InImports(cfg, c.gpr[12]))
    ensures var taken := BranchTaken(c, Rt(insn), Ra(insn));
            BranchRegister(cfg, c, mem, insn)
            == Running(c.(ctr := CtrAfter(c, Rt(insn)), lr := if taken && RecordBit(insn) then c.pc else c.lr,
                          pc := if taken then (if Xo(insn) == 528 then c.ctr else c.lr) / 4 * 4 else c.pc), mem)
  {
    hide BranchTaken, CtrAfter, InImports, StubMemory, StubCpu, FindStub, Xo, Rt, Ra, RecordBit;
  }

  // ----- algebraic shifts -----

  /** The signed source divided by a power of two, rounded down; CA is set if it is negative and not divisible. */
  ghost predicate ShiftsDown(v: u32, xer: u32, xer': u32, source: int, n: nat) {
    && Signed32(v) == source / Pow2(n)
    && (Ca(xer') <==> source < 0 && source % Pow2(n) != 0)
    && forall j: nat :: j < 32 && j != 29 ==> Bit(xer', j) == Bit(xer, j)
  }

  lemma WideShift(source: int, n: nat)
    requires FitsInt32(source) && n >= 32
    ensures source / Pow2(n) == (if source < 0 then -1 else 0)
    ensures source < 0 ==> source % Pow2(n) != 0
  {
    PowersGrow(32, n);
    Pow2Of32();
    hide Pow2;
    var p := Pow2(n);
    DivUnique(source, p, if source < 0 then -1 else 0, if source < 0 then p + source else source);
  }

  lemma OnlyCarry(xer: u32, carry: bool)
    ensures Ca(WithCarry(xer, carry)) == carry
    ensures forall j: nat :: j < 32 && j != 29 ==> Bit(WithCarry(xer, carry), j) == Bit(xer, j)
  {
    hide Bit;
    forall j: nat | j < 32 && j != 29 ensures Bit(WithCarry(xer, carry), j) == Bit(xer, j) {
      WithCarryBits(xer, carry, j);
    }
  }

  /** The value and the carry of a shift by any distance. */
  function Shifted(s: u32, n: nat): (u32, bool) {
    if n >= 32 then (if Signed32(s) < 0 then 0xFFFF_FFFF else 0, Signed32(s) < 0)
    else (Wrap32(Asr(Signed32(s), n)), Signed32(s) < 0 && s % Pow2(n) != 0)
  }

  lemma ShiftedDown(xer: u32, s: u32, n: nat)
    ensures ShiftsDown(Shifted(s, n).0, xer, WithCarry(xer, Shifted(s, n).1), Signed32(s), n)
  {
    hide Pow2, Asr, Bit, Ca, WithCarry;
    OnlyCarry(xer, Shifted(s, n).1);
    if n >= 32 {
      WideShift(Signed32(s), n);
    } else {
      SignedDivision.AsrIsFloor(Signed32(s), n);
      SignedDivision.LostBits(s, n);
      SignedDivision.QuotientRange(Signed32(s), Pow2(n));
      SignedDivision.SignedOfWrapped(Signed32(s) / Pow2(n));
    }
  }

  /** sraw by the low six bits of rB, and srawi by the distance in the instruction. */
  lemma AlgebraicShift(cfg: Config, c: CpuState, mem: Regions, pc: u32, insn: u32)
    requires IsX(insn, 792) || IsX(insn, 824)
    ensures var r, d := Execute(cfg, c, mem, pc, insn), FieldA(insn);
            var n := if IsX(insn, 792) then c.gpr[FieldB(insn)] % 64 else FieldB(insn);
            && r.Running? && Gives(r, c, mem, d, r.c.gpr[d], insn % 2 == 1)
            && ShiftsDown(r.c.gpr[d], c.xer, r.c.xer, Signed32(c.gpr[FieldT(insn)]), n)
  {
    var d, s := FieldA(insn), c.gpr[FieldT(insn)];
    var n: nat := if IsX(insn, 792) then c.gpr[FieldB(insn)] % 64 else FieldB(insn);
    hide Execute, Gives, ShiftsDown, Shifted, RecordIf, WithCarry;
    var (v, carry) := Shifted(s, n);
    ShiftExecutes(cfg, c, insn, n);
    ShiftXosArePlain();
    hide PlainXo, Op31Plain;
    PlainExecutes(cfg, c, mem, pc, insn);
    ShiftedDown(c.xer, s, n);
    Given(c, mem, d, v, insn % 2 == 1, WithCarry(c.xer, carry));
    GivenIs(Execute(cfg, c, mem, pc, insn), c, mem, d, v, insn % 2 == 1);
  }

  lemma ShiftXosArePlain()
    ensures PlainXo(792) && PlainXo(824)
  {
  }

  lemma ShiftExecutes(cfg: Config, c: CpuState, insn: u32, n: nat)
    requires Xo(insn) == 792 || Xo(insn) == 824
    requires n == if Xo(insn) == 792 then c.gpr[Rb(insn)] % 64 else Rb(insn)
    ensures var (v, carry) := Shifted(c.gpr[Rt(insn)], n);
            Op31Plain(cfg, c, insn)
            == Done(RecordIf(PutGpr(c, Ra(insn), v).(xer := WithCarry(c.xer, carry)), RecordBit(insn), v))
  {
    NoResult(c, insn);
    ShiftedIs(c, insn, n);
    hide Shifted, PlainXo, LogicResult, ProductResult, PlainArith, RecordIf, WithCarry, Rt, Ra, Rb, Bf, RecordBit, Xo;
    hide TrapCondition, CopyFields, SprOp, MoveXerToCr, CompareInto, ShiftWordAlgebraic, ShiftRightAlgebraic;
  }

  predicate ShiftedAs(c: CpuState, insn: u32, n: nat) {
    var (v, carry) := Shifted(c.gpr[Rt(insn)], n);
    (if Xo(insn) == 792 then ShiftWordAlgebraic(c, insn) else ShiftRightAlgebraic(c, insn, Rb(insn)))
    == RecordIf(PutGpr(c, Ra(insn), v).(xer := WithCarry(c.xer, carry)), RecordBit(insn), v)
  }

  lemma ShiftedIs(c: CpuState, insn: u32, n: nat)
    requires Xo(insn) == 792 || Xo(insn) == 824
    requires n == if Xo(insn) == 792 then c.gpr[Rb(insn)] % 64 else Rb(insn)
    ensures ShiftedAs(c, insn, n)
  {
    hide RecordIf, WithCarry, Asr, Pow2, Signed32, Rt, Ra, RecordBit;
  }

  // ----- special registers -----

  /** mfspr and mtspr for XER (1), LR (8) and CTR (9); any other number is refused. */
  lemma SpecialRegister(cfg: Config, c: CpuState, mem: Regions, pc: u32, insn: u32)
    requires IsX(insn, 339) || IsX(insn, 467)
    ensures var r, t := Execute(cfg, c, mem, pc, insn), FieldT(insn);
            var number := FieldA(insn) + 32 * FieldB(insn);
            if number !in {1, 8, 9} then r == Stopped(c, mem, UnsupportedInstruction, 0, pc, insn)
            else if IsX(insn, 339) then
              r == Running(c.(gpr := c.gpr[t := if number == 1 then c.xer else if number == 8 then c.lr else c.ctr]),
                  mem)
            else
              r == Running(if number == 1 then c.(xer := c.gpr[t]) else if number == 8 then c.(lr := c.gpr[t])
                           else c.(ctr := c.gpr[t]), mem)
  {
    SprXos(cfg, c, mem, pc, insn);
    hide Execute;
  }

  lemma SprXos(cfg: Config, c: CpuState, mem: Regions, pc: u32, insn: u32)
    requires Opcode(insn) == 31 && (Xo(insn) == 339 || Xo(insn) == 467)
    ensures Execute(cfg, c, mem, pc, insn)
         == match SprOp(c, insn)
            case Done(c') => Running(c', mem)
            case Refused(reason) => FaultAt(c, mem, reason, pc, insn)
  {
    NoResult(c, insn);
    SprFirst(cfg, c, insn);
    hide *;
    PlainOutcome(cfg, c, mem, pc, insn);
  }

  lemma SprFirst(cfg: Config, c: CpuState, insn: u32)
    requires Xo(insn) == 339 || Xo(insn) == 467
    ensures Op31Plain(cfg, c, insn) == SprOp(c, insn)
  {
    NoResult(c, insn);
    hide SprOp, PlainXo, LogicResult, ProductResult, PlainArith, RecordIf, WithOverflow, TrapCondition, CopyFields;
    hide MoveXerToCr, CompareInto, ShiftWordAlgebraic, ShiftRightAlgebraic;
  }
}
