/**
  What one instruction does to the processor and the memory, and what a run
  of instructions does (src/BuiltinInterpreter.cpp, src/ImportStubs.cpp).
 */
module Interpreter {
  import opened Words
  import opened MemoryModel
  import opened CpuModel

  datatype StopReason =
    | Returned | InstructionLimit | UnsupportedInstruction | MemoryFault | ImportTrap | Trap | SystemCall

  datatype StubKind =
    | Pow | Cos | Sqrt | Sin | Exp | Fabs | Floor | Ceil
    | BlockMoveData | Memcpy | Memmove | Memset | Bzero

  datatype FpOrder = FpLess | FpGreater | FpEqual | FpUnordered

  /** The host's floating-point unit: total functions of which nothing else is known. */
  datatype Host = Host(
    widen: u32 -> u64, narrow: u64 -> u32,
    arith: (nat, nat, u64, u64, u64, u32) -> u64,
    compare: (u64, u64) -> FpOrder,
    libm: (StubKind, u64, u64) -> u64)

  datatype StubBinding = StubBinding(address: u32, kind: StubKind)
  datatype SystemCallBinding = SystemCallBinding(number: u32, returnValue: u32)

  datatype Config = Config(
    returnAddress: u32, importBase: u32, importSize: u32, ignoreTraps: bool,
    importStubs: seq<StubBinding>, systemCallStubs: seq<SystemCallBinding>,
    defaultSystemCallReturn: Option<u32>, host: Host)

  predicate InImports(cfg: Config, a: u32) {
    cfg.importBase <= a < cfg.importBase as int + cfg.importSize
  }

  // ----- instruction fields -----

  function Opcode(insn: u32): nat { insn / 0x400_0000 }
  function Rt(insn: u32): Reg { insn / 0x20_0000 % 32 }
  function Ra(insn: u32): Reg { insn / 0x1_0000 % 32 }
  function Rb(insn: u32): Reg { insn / 0x800 % 32 }
  function Rc(insn: u32): Reg { insn / 0x40 % 32 }
  function Bf(insn: u32): nat { insn / 0x80_0000 % 8 }
  function Xo(insn: u32): nat { insn / 2 % 1024 }
  function Xo5(insn: u32): nat { insn / 2 % 32 }
  function Me(insn: u32): nat { insn / 2 % 32 }
  function Uimm(insn: u32): u32 { insn % 0x1_0000 }
  function Spr(insn: u32): nat { insn / 0x1_0000 % 32 + insn / 0x800 % 32 * 32 }
  predicate RecordBit(insn: u32) { insn % 2 == 1 }
  predicate Absolute(insn: u32) { insn / 2 % 2 == 1 }

  /** Branch displacements: the low two bits of the field are flags, not distance. */
  function Bd(insn: u32): int { SignExtend16(insn % 0x1_0000 / 4 * 4) }
  function Li(insn: u32): int {
    var v := insn % 0x400_0000 / 4 * 4;
    if v < 0x200_0000 then v else v - 0x400_0000
  }

  function EaD(c: CpuState, ra: Reg, d: int): u32 { Wrap32((if ra == 0 then 0 else c.gpr[ra]) + d) }
  function EaX(c: CpuState, ra: Reg, rb: Reg): u32 { Wrap32((if ra == 0 then 0 else c.gpr[ra] as int) + c.gpr[rb]) }

  // ----- carrying arithmetic -----

  datatype CarryForm = SubFC | AddC | SubFE | AddE | SubFME | AddME | SubFZE | AddZE

  function CarryFormOf(xo: nat): Option<CarryForm> {
    var base := if xo >= 512 then xo - 512 else xo;
    if base == 8 then Some(SubFC) else if base == 10 then Some(AddC)
    else if base == 136 then Some(SubFE) else if base == 138 then Some(AddE)
    else if base == 232 then Some(SubFME) else if base == 234 then Some(AddME)
    else if base == 200 then Some(SubFZE) else if base == 202 then Some(AddZE)
    else None
  }

  function FirstAddend(c: CpuState, form: CarryForm, ra: Reg): u32 {
    if form.SubFC? || form.SubFE? || form.SubFME? || form.SubFZE? then Not32(c.gpr[ra]) else c.gpr[ra]
  }

  function SecondAddend(c: CpuState, form: CarryForm, rb: Reg): u32 {
    if form.SubFC? || form.AddC? || form.SubFE? || form.AddE? then c.gpr[rb]
    else if form.SubFME? || form.AddME? then 0xFFFF_FFFF
    else 0
  }

  function CarryIn(c: CpuState, form: CarryForm): (n: nat)
    ensures n <= 1
  {
    if form.SubFC? then 1 else if form.AddC? then 0 else if Ca(c.xer) then 1 else 0
  }

  function AddWithCarry(c: CpuState, rt: Reg, x: u32, y: u32, carryIn: nat): CpuState {
    var wide := x as int + y + carryIn;
    PutGpr(c, rt, Wrap32(wide)).(xer := WithCarry(c.xer, wide >= 0x1_0000_0000))
  }

  /** The overflow test reads the registers again, after the result was written. */
  predicate OverflowAfter(c: CpuState, form: CarryForm, carryIn: nat, rt: Reg, ra: Reg, rb: Reg) {
    var a, b := Signed32(c.gpr[ra]), Signed32(c.gpr[rb]);
    match form
    case SubFC => SubOverflow(c.gpr[rb], c.gpr[ra], c.gpr[rt])
    case AddC => AddOverflow(c.gpr[ra], c.gpr[rb], c.gpr[rt])
    case SubFE => !FitsInt32(b - a + carryIn - 1)
    case AddE => !FitsInt32(a + b + carryIn)
    case SubFME => !FitsInt32(-a + carryIn - 2)
    case AddME => !FitsInt32(a + carryIn - 1)
    case SubFZE => !FitsInt32(-a + carryIn - 1)
    case AddZE => !FitsInt32(a + carryIn)
  }

  function CarryArith(c: CpuState, form: CarryForm, oe: bool, rc: bool, rt: Reg, ra: Reg, rb: Reg): CpuState {
    var carryIn := CarryIn(c, form);
    var c1 := AddWithCarry(c, rt, FirstAddend(c, form, ra), SecondAddend(c, form, rb), carryIn);
    var c2 := if oe then c1.(xer := WithOverflow(c1.xer, OverflowAfter(c1, form, carryIn, rt, ra, rb))) else c1;
    RecordIf(c2, rc, c2.gpr[rt])
  }

  // ----- other register instructions -----

  datatype RegOutcome = Done(c: CpuState) | Refused(reason: StopReason)

  function FindSystemCall(bindings: seq<SystemCallBinding>, number: u32): Option<u32> {
    if |bindings| == 0 then None
    else if bindings[0].number == number then Some(bindings[0].returnValue)
    else FindSystemCall(bindings[1..], number)
  }

  /** sc: a bound number returns its value in r3, then the default, else the run stops. */
  function SystemCallOp(cfg: Config, c: CpuState): RegOutcome {
    var bound := FindSystemCall(cfg.systemCallStubs, c.gpr[0]);
    if bound.Some? then Done(PutGpr(c, 3, bound.value))
    else if cfg.defaultSystemCallReturn.Some? then Done(PutGpr(c, 3, cfg.defaultSystemCallReturn.value))
    else Refused(SystemCall)
  }

  function CrLogic(xo: nat, a: bool, b: bool): Option<bool> {
    if xo == 33 then Some(!(a || b)) else if xo == 129 then Some(a && !b)
    else if xo == 193 then Some(a != b) else if xo == 225 then Some(!(a && b))
    else if xo == 257 then Some(a && b) else if xo == 289 then Some(a == b)
    else if xo == 417 then Some(a || !b) else if xo == 449 then Some(a || b)
    else None
  }

  function CrOp(c: CpuState, insn: u32): RegOutcome {
    var xo := Xo(insn);
    var logic := CrLogic(xo, CrBit(c.cr, Ra(insn)), CrBit(c.cr, Rb(insn)));
    if xo == 0 then Done(c.(cr := PutCrField(c.cr, Bf(insn), GetCrField(c.cr, insn / 0x4_0000 % 8))))
    else if logic.Some? then Done(c.(cr := SetCrBitTo(c.cr, Rt(insn), logic.value)))
    else if xo == 150 then Done(c)
    else Refused(UnsupportedInstruction)
  }

  function Rotated(c: CpuState, insn: u32, mask: u32): CpuState {
    var op, rt, ra := Opcode(insn), Rt(insn), Ra(insn);
    var amount := if op == 23 then c.gpr[Rb(insn)] % 32 else Rb(insn);
    var kept := And32(Rotl32(c.gpr[rt], amount), mask);
    var v := if op == 20 then Or32(And32(c.gpr[ra], Not32(mask)), kept) else kept;
    RecordIf(PutGpr(c, ra, v), RecordBit(insn), v)
  }

  /** mtcrf: the fields named by FXM, from the given one on, are copied from the register. */
  function CopyFields(cr: u32, from: u32, fxm: nat, field: nat): u32
    requires field <= 8
    decreases 8 - field
  {
    if field == 8 then cr
    else CopyFields(if Bit(fxm, 7 - field) then PutCrField(cr, field, GetCrField(from, field))
        else cr, from, fxm, field + 1)
  }

  /** Each field from the given one on is the register's if FXM selects it, and the old one if not. */
  lemma {:induction false} CopiedFields(cr: u32, from: u32, fxm: nat, field: nat, f: nat)
    requires field <= 8 && f < 8
    ensures GetCrField(CopyFields(cr, from, fxm, field), f)
         == if f >= field && Bit(fxm, 7 - f) then GetCrField(from, f) else GetCrField(cr, f)
    decreases 8 - field
  {
    hide GetCrField, PutCrField, Bit;
    if field < 8 {
      PutCrFieldGets(cr, field, GetCrField(from, field), f);
      var next := if Bit(fxm, 7 - field) then PutCrField(cr, field, GetCrField(from, field)) else cr;
      CopiedFields(next, from, fxm, field + 1, f);
    }
  }

  /** Results of the two-operand logical and shift instructions of primary opcode 31, which write RA. */
  function LogicResult(xo: nat, s: u32, b: u32): Option<u32> {
    if xo == 24 then Some(if Bit(b, 5) then 0 else Shl32(s, b % 32))
    else if xo == 26 then Some(CountLeadingZeros32(s))
    else if xo == 28 then Some(And32(s, b))
    else if xo == 60 then Some(And32(s, Not32(b)))
    else if xo == 124 then Some(Not32(Or32(s, b)))
    else if xo == 284 then Some(Not32(Xor32(s, b)))
    else if xo == 316 then Some(Xor32(s, b))
    else if xo == 412 then Some(Or32(s, Not32(b)))
    else if xo == 444 then Some(Or32(s, b))
    else if xo == 476 then Some(Not32(And32(s, b)))
    else if xo == 536 then Some(if b % 64 >= 32 then 0 else Shr32(s, b % 64))
    else if xo == 922 then Some(Wrap32(SignExtend16(s)))
    else if xo == 954 then Some(Wrap32(SignExtend8(s)))
    else None
  }

  function CountLeadingZeros32(x: u32): u32 {
    if x == 0 then 32 else CountLeadingZeros(x) % 32
  }

  /** The product and quotient instructions, and neg, which write RT: result and overflow. */
  function ProductResult(xo: nat, a: u32, b: u32): Option<(u32, bool)> {
    var product := Signed32(a) * Signed32(b);
    if xo == 11 then Some((Wrap32(a * b / 0x1_0000_0000), false))
    else if xo == 75 then Some((Wrap32(product / 0x1_0000_0000), false))
    else if xo == 235 || xo == 747 then Some((Wrap32(product), !FitsInt32(product)))
    else if xo == 459 || xo == 971 then Some((if b == 0 then 0 else Wrap32(a / b), b == 0))
    else if xo == 491 || xo == 1003 then
      var invalid := b == 0 || (a == 0x8000_0000 && b == 0xFFFF_FFFF);
      Some((if invalid then 0 else Wrap32(TruncDiv(Signed32(a), Signed32(b))), invalid))
    else None
  }

  function ShiftRightAlgebraic(c: CpuState, insn: u32, sh: nat): CpuState {
    var rt, ra := Rt(insn), Ra(insn);
    var source := Signed32(c.gpr[rt]);
    var v := Wrap32(Asr(source, sh));
    var lost := c.gpr[rt] % Pow2(sh) != 0;
    var c1 := PutGpr(c, ra, v).(xer := WithCarry(c.xer, source < 0 && lost));
    RecordIf(c1, RecordBit(insn), v)
  }

  function ShiftWordAlgebraic(c: CpuState, insn: u32): CpuState {
    var sh := c.gpr[Rb(insn)] % 64;
    if sh >= 32 then
      var negative := Signed32(c.gpr[Rt(insn)]) < 0;
      var v := if negative then 0xFFFF_FFFF else 0;
      RecordIf(PutGpr(c, Ra(insn), v).(xer := WithCarry(c.xer, negative)), RecordBit(insn), v)
    else ShiftRightAlgebraic(c, insn, sh)
  }

  /** add/subf/neg with their overflow-recording forms; again the test reads the registers after the write. */
  function PlainArith(c: CpuState, insn: u32): Option<CpuState> {
    var xo, rt, ra, rb := Xo(insn), Rt(insn), Ra(insn), Rb(insn);
    var oe := xo >= 512;
    var base := if oe then xo - 512 else xo;
    if base != 40 && base != 266 && base != 104 then None
    else
      var v := if base == 40 then Wrap32(c.gpr[rb] as int - c.gpr[ra])
               else if base == 266 then Wrap32(c.gpr[ra] as int + c.gpr[rb])
               else Wrap32(-(c.gpr[ra] as int));
      var c1 := PutGpr(c, rt, v);
      var overflow := if base == 40 then SubOverflow(c1.gpr[rb], c1.gpr[ra], c1.gpr[rt])
                      else if base == 266 then AddOverflow(c1.gpr[ra], c1.gpr[rb], c1.gpr[rt])
                      else c1.gpr[ra] == 0x8000_0000;
      Some(RecordIf(if oe then c1.(xer := WithOverflow(c1.xer, overflow)) else c1, RecordBit(insn), v))
  }

  function SprOp(c: CpuState, insn: u32): RegOutcome {
    var spr, rt := Spr(insn), Rt(insn);
    if Xo(insn) == 339 then
      if spr == 1 then Done(PutGpr(c, rt, c.xer)) else if spr == 8 then Done(PutGpr(c, rt, c.lr))
      else if spr == 9 then Done(PutGpr(c, rt, c.ctr)) else Refused(UnsupportedInstruction)
    else
      if spr == 1 then Done(c.(xer := c.gpr[rt])) else if spr == 8 then Done(c.(lr := c.gpr[rt]))
      else if spr == 9 then Done(c.(ctr := c.gpr[rt])) else Refused(UnsupportedInstruction)
  }

  function MoveXerToCr(c: CpuState, insn: u32): CpuState {
    c.(cr := PutCrField(c.cr, Bf(insn), CrNibble(So(c.xer), Ov(c.xer), Ca(c.xer), false)), xer := c.xer % 0x2000_0000)
  }

  predicate CacheHint(xo: nat) {
    xo == 54 || xo == 86 || xo == 246 || xo == 278 || xo == 598 || xo == 854 || xo == 982
  }

  function Op31(cfg: Config, c: CpuState, insn: u32): RegOutcome {
    var xo, rt, ra, rb := Xo(insn), Rt(insn), Ra(insn), Rb(insn);
    var carry := CarryFormOf(xo);
    if carry.Some? then Done(CarryArith(c, carry.value, xo >= 512, RecordBit(insn), rt, ra, rb))
    else Op31Plain(cfg, c, insn)
  }

  function Op31Plain(cfg: Config, c: CpuState, insn: u32): RegOutcome {
    var xo, rt, ra, rb := Xo(insn), Rt(insn), Ra(insn), Rb(insn);
    var plain := PlainArith(c, insn);
    var logic := LogicResult(xo, c.gpr[rt], c.gpr[rb]);
    var product := ProductResult(xo, c.gpr[ra], c.gpr[rb]);
    if plain.Some? then Done(plain.value)
    else if logic.Some? then Done(RecordIf(PutGpr(c, ra, logic.value), RecordBit(insn), logic.value))
    else if product.Some? then
      var c1 := PutGpr(c, rt, product.value.0);
      Done(RecordIf(if xo >= 512 then c1.(xer := WithOverflow(c1.xer, product.value.1))
          else c1, RecordBit(insn), product.value.0))
    else if xo == 0 then Done(CompareInto(c, Bf(insn), Signed32(c.gpr[ra]), Signed32(c.gpr[rb])))
    else if xo == 32 then Done(CompareInto(c, Bf(insn), c.gpr[ra], c.gpr[rb]))
    else if xo == 4 then (if TrapCondition(rt, c.gpr[ra], c.gpr[rb]) && !cfg.ignoreTraps then Refused(Trap)
        else Done(c))
    else if xo == 19 then Done(PutGpr(c, rt, c.cr))
    else if xo == 144 then Done(c.(cr := CopyFields(c.cr, c.gpr[rt], insn / 0x1000 % 256, 0)))
    else if xo == 339 || xo == 467 then SprOp(c, insn)
    else if xo == 512 then Done(MoveXerToCr(c, insn))
    else if xo == 792 then Done(ShiftWordAlgebraic(c, insn))
    else if xo == 824 then Done(ShiftRightAlgebraic(c, insn, rb))
    else if CacheHint(xo) then Done(c)
    else Refused(UnsupportedInstruction)
  }

  // ----- floating point, up to the host's arithmetic -----

  function RecordCr1(c: CpuState, rc: bool): CpuState {
    if rc then c.(cr := PutCrField(c.cr, 1, c.fpscr / 0x1000_0000)) else c
  }

  predicate FpTernary(xo5: nat) {
    xo5 == 22 || xo5 == 25 || 28 <= xo5 <= 31
  }

  function FpResult(cfg: Config, c: CpuState, insn: u32, op: nat, xo: nat): RegOutcome {
    var v := cfg.host.arith(op, xo, c.fpr[Ra(insn)], c.fpr[Rb(insn)], c.fpr[Rc(insn)], c.fpscr);
    Done(RecordCr1(c.(fpr := c.fpr[Rt(insn) := v]), RecordBit(insn)))
  }

  function FpOp(cfg: Config, c: CpuState, insn: u32): RegOutcome {
    var op, xo5, xo := Opcode(insn), Xo5(insn), Xo(insn);
    if op == 59 then
      if FpTernary(xo5) || xo5 == 18 || xo5 == 20 || xo5 == 21 || xo5 == 24 then FpResult(cfg, c, insn, op, xo5)
      else Refused(UnsupportedInstruction)
    else if FpTernary(xo5) || xo5 == 23 || xo5 == 26 then FpResult(cfg, c, insn, op, xo5)
    else if xo == 0 || xo == 32 then
      var o := cfg.host.compare(c.fpr[Ra(insn)], c.fpr[Rb(insn)]);
      Done(c.(cr := PutCrField(c.cr, Bf(insn), CrNibble(o.FpLess?, o.FpGreater?, o.FpEqual?, o.FpUnordered?))))
    else if xo == 12 || xo == 14 || xo == 15 || xo == 18 || xo == 20 || xo == 21 || xo == 40 || xo == 72
         || xo == 136 || xo == 264 || xo == 583 then FpResult(cfg, c, insn, op, xo)
    else Refused(UnsupportedInstruction)
  }

  // ----- instructions that touch registers only -----

  function ImmediateOp(cfg: Config, c: CpuState, insn: u32): RegOutcome {
    var op, rt, ra := Opcode(insn), Rt(insn), Ra(insn);
    var simm := SignExtend16(insn);
    var high := Uimm(insn) * 0x1_0000;
    var base := if ra == 0 then 0 else c.gpr[ra];
    if op == 3 then (if TrapCondition(rt, c.gpr[ra], Wrap32(simm)) && !cfg.ignoreTraps then Refused(Trap) else Done(c))
    else if op == 7 then Done(PutGpr(c, rt, Wrap32(Signed32(c.gpr[ra]) * simm)))
    else if op == 8 then Done(AddWithCarry(c, rt, Wrap32(simm), Not32(c.gpr[ra]), 1))
    else if op == 10 then Done(CompareInto(c, Bf(insn), c.gpr[ra], Uimm(insn)))
    else if op == 11 then Done(CompareInto(c, Bf(insn), Signed32(c.gpr[ra]), simm))
    else if op == 12 || op == 13 then
      var c1 := AddWithCarry(c, rt, c.gpr[ra], Wrap32(simm), 0);
      Done(RecordIf(c1, op == 13, c1.gpr[rt]))
    else if op == 14 then Done(PutGpr(c, rt, Wrap32(base + simm)))
    else if op == 15 then Done(PutGpr(c, rt, Wrap32(base + simm * 0x1_0000)))
    else if op == 24 then Done(PutGpr(c, ra, Or32(c.gpr[rt], Uimm(insn))))
    else if op == 25 then Done(PutGpr(c, ra, Or32(c.gpr[rt], high)))
    else if op == 26 then Done(PutGpr(c, ra, Xor32(c.gpr[rt], Uimm(insn))))
    else if op == 27 then Done(PutGpr(c, ra, Xor32(c.gpr[rt], high)))
    else if op == 28 || op == 29 then
      var v := And32(c.gpr[rt], if op == 28 then Uimm(insn) else high);
      Done(RecordCr0(PutGpr(c, ra, v), v))
    else Refused(UnsupportedInstruction)
  }

  function RegisterOp(cfg: Config, c: CpuState, insn: u32): RegOutcome {
    var op := Opcode(insn);
    if op == 31 then Op31(cfg, c, insn)
    else if op == 17 then SystemCallOp(cfg, c)
    else if op == 19 then CrOp(c, insn)
    else if op == 20 || op == 21 || op == 23 then Done(Rotated(c, insn, PpcMask(Rc(insn), Me(insn))))
    else if op == 59 || op == 63 then FpOp(cfg, c, insn)
    else ImmediateOp(cfg, c, insn)
  }

  /** Register instructions are refused as unsupported, by a trap or by a system call, and for no other reason. */
  predicate RefusedProperly(r: RegOutcome) {
    r.Refused? ==> r.reason == UnsupportedInstruction || r.reason == Trap || r.reason == SystemCall
  }

  lemma Op31Refuses(cfg: Config, c: CpuState, insn: u32)
    ensures RefusedProperly(Op31(cfg, c, insn))
  {
    hide CarryFormOf, CarryArith, PlainArith, LogicResult, ProductResult, TrapCondition, CopyFields, CompareInto;
    hide CacheHint;
    hide MoveXerToCr, ShiftWordAlgebraic, ShiftRightAlgebraic, RecordIf, WithOverflow, PutGpr, Spr, Xo, Rt, Ra, Rb, Bf;
  }

  lemma OthersRefuse(cfg: Config, c: CpuState, insn: u32)
    ensures RefusedProperly(SystemCallOp(cfg, c)) && RefusedProperly(CrOp(c, insn))
    ensures RefusedProperly(FpOp(cfg, c, insn)) && RefusedProperly(ImmediateOp(cfg, c, insn))
  {
    hide TrapCondition, CompareInto, PutCrField, CrNibble, GetCrField, CrLogic, SetCrBitTo, RecordIf, RecordCr0;
    hide RecordCr1;
    hide And32, Or32, Xor32, Not32, AddWithCarry, PutGpr, SignExtend16, FindSystemCall, Xo, Xo5, Rt, Ra, Rb, Rc, Bf;
    hide Uimm;
  }

  lemma RegisterOpRefuses(cfg: Config, c: CpuState, insn: u32)
    ensures RefusedProperly(RegisterOp(cfg, c, insn))
  {
    hide Op31, SystemCallOp, CrOp, FpOp, ImmediateOp, Rotated, PpcMask;
    Op31Refuses(cfg, c, insn);
    OthersRefuse(cfg, c, insn);
  }

  // ----- loads and stores -----

  datatype LoadKind = Lbz | Lhz | Lha | Lwz | Lhbrx | Lwbrx | Lfs | Lfd
  datatype StoreKind = Stb | Sth | Stw | Sthbrx | Stwbrx | Stfs | Stfd | Stfiw
  datatype Access = Load(load: LoadKind, update: bool) | Store(store: StoreKind, update: bool)

  function DFormAccess(op: nat): Option<Access> {
    var u := op % 2 == 1;
    if op == 32 || op == 33 then Some(Load(Lwz, u)) else if op == 34 || op == 35 then Some(Load(Lbz, u))
    else if op == 36 || op == 37 then Some(Store(Stw, u)) else if op == 38 || op == 39 then Some(Store(Stb, u))
    else if op == 40 || op == 41 then Some(Load(Lhz, u)) else if op == 42 || op == 43 then Some(Load(Lha, u))
    else if op == 44 || op == 45 then Some(Store(Sth, u)) else if op == 48 || op == 49 then Some(Load(Lfs, u))
    else if op == 50 || op == 51 then Some(Load(Lfd, u)) else if op == 52 || op == 53 then Some(Store(Stfs, u))
    else if op == 54 || op == 55 then Some(Store(Stfd, u))
    else None
  }

  function XFormAccess(xo: nat): Option<Access> {
    if xo == 23 || xo == 55 then Some(Load(Lwz, xo == 55)) else if xo == 87 || xo == 119 then Some(Load(Lbz, xo == 119))
    else if xo == 151 || xo == 183 then Some(Store(Stw, xo == 183)) else if xo == 215 || xo == 247
        then Some(Store(Stb, xo == 247))
    else if xo == 279 || xo == 331 then Some(Load(Lhz, xo == 331)) else if xo == 343 || xo == 375
        then Some(Load(Lha, xo == 375))
    else if xo == 407 || xo == 439 then Some(Store(Sth, xo == 439))
    else if xo == 534 then Some(Load(Lwbrx, false)) else if xo == 662 then Some(Store(Stwbrx, false))
    else if xo == 790 then Some(Load(Lhbrx, false)) else if xo == 918 then Some(Store(Sthbrx, false))
    else if xo == 535 || xo == 567 then Some(Load(Lfs, xo == 567)) else if xo == 599 || xo == 631
        then Some(Load(Lfd, xo == 631))
    else if xo == 663 || xo == 695 then Some(Store(Stfs, xo == 695)) else if xo == 727 || xo == 759
        then Some(Store(Stfd, xo == 759))
    else if xo == 983 then Some(Store(Stfiw, false))
    else None
  }

  function AccessOf(insn: u32): Option<Access> {
    if Opcode(insn) == 31 then XFormAccess(Xo(insn)) else DFormAccess(Opcode(insn))
  }

  function AccessAddress(c: CpuState, insn: u32): u32 {
    if Opcode(insn) == 31 then EaX(c, Ra(insn), Rb(insn)) else EaD(c, Ra(insn), SignExtend16(insn))
  }

  function LoadSize(k: LoadKind): nat {
    match k
    case Lbz => 1
    case Lhz | Lha | Lhbrx => 2
    case Lwz | Lwbrx | Lfs => 4
    case Lfd => 8
  }

  function Loaded(cfg: Config, c: CpuState, k: LoadKind, rt: Reg, b: seq<u8>): CpuState
    requires |b| == LoadSize(k)
  {
    match k
    case Lbz => PutGpr(c, rt, b[0])
    case Lhz => PutGpr(c, rt, Half(b))
    case Lha => PutGpr(c, rt, Wrap32(SignExtend16(Half(b))))
    case Lhbrx => PutGpr(c, rt, ByteSwap16(Half(b)))
    case Lwz => PutGpr(c, rt, Word(b))
    case Lwbrx => PutGpr(c, rt, ByteSwap32(Word(b)))
    case Lfs => c.(fpr := c.fpr[rt := cfg.host.widen(Word(b))])
    case Lfd => c.(fpr := c.fpr[rt := Double(b)])
  }

  function StoreData(cfg: Config, c: CpuState, k: StoreKind, rt: Reg): (b: seq<u8>)
    ensures |b| >= 1
  {
    match k
    case Stb => [c.gpr[rt] % 0x100]
    case Sth => HalfBytes(c.gpr[rt] % 0x1_0000)
    case Sthbrx => HalfBytes(ByteSwap16(c.gpr[rt] % 0x1_0000))
    case Stw => WordBytes(c.gpr[rt])
    case Stwbrx => WordBytes(ByteSwap32(c.gpr[rt]))
    case Stfs => WordBytes(cfg.host.narrow(c.fpr[rt]))
    case Stfd => DoubleBytes(c.fpr[rt])
    case Stfiw => WordBytes(c.fpr[rt] % 0x1_0000_0000)
  }

  function Updated(c: CpuState, update: bool, ra: Reg, ea: u32): CpuState {
    if update then PutGpr(c, ra, ea) else c
  }

  /** What an instruction leaves behind, or where and why the run stops. */
  datatype StepResult =
    | Running(c: CpuState, mem: Regions)
    | Stopped(c: CpuState, mem: Regions, reason: StopReason, extra: nat, pc: u32, instruction: u32)

  function FaultAt(c: CpuState, mem: Regions, reason: StopReason, pc: u32, insn: u32): StepResult {
    Stopped(c, mem, reason, 0, pc, insn)
  }

  function AccessOp(cfg: Config, c: CpuState, mem: Regions, pc: u32, insn: u32, a: Access): StepResult {
    var ea, rt, ra := AccessAddress(c, insn), Rt(insn), Ra(insn);
    match a
    case Load(k, u) =>
      var b := ReadBytes(mem, ea, LoadSize(k));
      if b.None? then FaultAt(c, mem, MemoryFault, pc, insn)
      else Running(Updated(Loaded(cfg, c, k, rt, b.value), u, ra, ea), mem)
    case Store(k, u) =>
      var m := WriteBytes(mem, ea, StoreData(cfg, c, k, rt));
      if m.None? then FaultAt(c, mem, MemoryFault, pc, insn)
      else Running(Updated(c, u, ra, ea), m.value)
  }

  /** lmw: registers are loaded in turn, and those loaded before a fault keep their new values. */
  function LoadMultiple(c: CpuState, mem: Regions, ea: u32, reg: nat): (CpuState, bool)
    requires reg <= 32
    decreases 32 - reg
  {
    if reg == 32 then (c, true)
    else
      var b := ReadBytes(mem, ea, 4);
      if b.None? then (c, false) else LoadMultiple(PutGpr(c, reg, Word(b.value)), mem, Wrap32(ea + 4), reg + 1)
  }

  function StoreMultiple(gpr: Gprs, mem: Regions, ea: u32, reg: nat): (Regions, bool)
    requires reg <= 32
    decreases 32 - reg
  {
    if reg == 32 then (mem, true)
    else
      var m := WriteBytes(mem, ea, WordBytes(gpr[reg]));
      if m.None? then (mem, false) else StoreMultiple(gpr, m.value, Wrap32(ea + 4), reg + 1)
  }

  function MultipleOp(c: CpuState, mem: Regions, pc: u32, insn: u32): StepResult {
    var ea := EaD(c, Ra(insn), SignExtend16(insn));
    if Opcode(insn) == 46 then
      var r := LoadMultiple(c, mem, ea, Rt(insn));
      if r.1 then Running(r.0, mem) else FaultAt(r.0, mem, MemoryFault, pc, insn)
    else
      var r := StoreMultiple(c.gpr, mem, ea, Rt(insn));
      if r.1 then Running(c, r.0) else FaultAt(c, r.0, MemoryFault, pc, insn)
  }

  predicate IsReserved(insn: u32) { Opcode(insn) == 31 && (Xo(insn) == 20 || Xo(insn) == 150 || Xo(insn) == 1014) }

  /** lwarx, stwcx. and dcbz. */
  function ReservedOp(c: CpuState, mem: Regions, pc: u32, insn: u32): StepResult {
    var ea, rt := EaX(c, Ra(insn), Rb(insn)), Rt(insn);
    if Xo(insn) == 1014 then
      var m := WriteBytes(mem, ea - ea % 32, seq(32, _ => 0));
      if m.None? then FaultAt(c, mem, MemoryFault, pc, insn) else Running(c, m.value)
    else if ea % 4 != 0 then FaultAt(c, mem, MemoryFault, pc, insn)
    else if Xo(insn) == 20 then
      var b := ReadBytes(mem, ea, 4);
      if b.None? then FaultAt(c, mem, MemoryFault, pc, insn)
      else Running(PutGpr(c, rt, Word(b.value)).(reservationAddress := ea, reservationValid := true), mem)
    else
      var success := c.reservationValid && c.reservationAddress == ea;
      var m := WriteBytes(mem, ea, WordBytes(c.gpr[rt]));
      if success && m.None? then FaultAt(c, mem, MemoryFault, pc, insn)
      else Running(c.(reservationValid := false, cr := PutCrField(c.cr, 0, CrNibble(false, false, success, So(c.xer)))),
                   if success then m.value else mem)
  }

  // ----- import stubs -----

  function FindStub(bindings: seq<StubBinding>, address: u32): Option<StubKind> {
    if |bindings| == 0 then None
    else if bindings[0].address == address then Some(bindings[0].kind)
    else FindStub(bindings[1..], address)
  }

  const MAX_STUB_COUNT: int := 0x0100_0000

  /** Copy a block through a buffer: an empty one touches no memory, an overlong one is refused. */
  function CopyBlock(mem: Regions, destination: u32, source: u32, count: u32): Option<Regions> {
    if count > MAX_STUB_COUNT then None
    else if count == 0 then Some(mem)
    else
      var b := ReadBytes(mem, source, count);
      if b.None? then None else WriteBytes(mem, destination, b.value)
  }

  function FillBlock(mem: Regions, destination: u32, value: u8, count: u32): Option<Regions> {
    if count > MAX_STUB_COUNT then None
    else if count == 0 then Some(mem)
    else WriteBytes(mem, destination, seq(count, _ => value))
  }

  function StubMemory(c: CpuState, mem: Regions, kind: StubKind): Option<Regions> {
    match kind
    case BlockMoveData => CopyBlock(mem, c.gpr[4], c.gpr[3], c.gpr[5])
    case Memcpy | Memmove => CopyBlock(mem, c.gpr[3], c.gpr[4], c.gpr[5])
    case Memset => FillBlock(mem, c.gpr[3], c.gpr[4] % 0x100, c.gpr[5])
    case Bzero => FillBlock(mem, c.gpr[3], 0, c.gpr[4])
    case _ => Some(mem)
  }

  function StubCpu(cfg: Config, c: CpuState, kind: StubKind): CpuState {
    match kind
    case BlockMoveData | Memcpy | Memmove | Memset | Bzero => c
    case _ => c.(fpr := c.fpr[1 := cfg.host.libm(kind, c.fpr[1], c.fpr[2])])
  }

  // ----- branches -----

  predicate IsBranch(insn: u32) {
    Opcode(insn) == 16 || Opcode(insn) == 18 || (Opcode(insn) == 19 && (Xo(insn) == 16 || Xo(insn) == 528))
  }

  /** bclr and bcctr, with the classification of indirect import calls by r12. */
  function BranchRegister(cfg: Config, c: CpuState, mem: Regions, insn: u32): StepResult {
    var bo, bi := Rt(insn), Ra(insn);
    var viaCtr := Xo(insn) == 528;
    var source := if viaCtr then c.ctr else c.lr;
    var target := source / 4 * 4;
    var c1 := c.(ctr := CtrAfter(c, bo));
    if !BranchTaken(c, bo, bi) then Running(c1, mem)
    else if viaCtr && target == 0 && InImports(cfg, c1.gpr[12]) then
      var stub := FindStub(cfg.importStubs, c1.gpr[12]);
      if stub.None? then Stopped(c1, mem, ImportTrap, 1, c1.gpr[12], insn)
      else
        var m := StubMemory(c1, mem, stub.value);
        if m.None? then Stopped(c1, mem, MemoryFault, 1, c1.gpr[12], insn)
        else Running(StubCpu(cfg, c1, stub.value).(pc := c1.lr), m.value)
    else Running(c1.(lr := if RecordBit(insn) then c1.pc else c1.lr, pc := target), mem)
  }

  /** b and bc: bc sets LR whether or not it is taken. */
  function BranchDirect(c: CpuState, mem: Regions, pc: u32, insn: u32): StepResult {
    var c1 := if RecordBit(insn) then c.(lr := c.pc) else c;
    var displacement := if Opcode(insn) == 18 then Li(insn) else Bd(insn);
    var target := Wrap32(if Absolute(insn) then displacement else pc + displacement);
    if Opcode(insn) == 18 then Running(c1.(pc := target), mem)
    else
      var c2 := c1.(ctr := CtrAfter(c1, Rt(insn)));
      Running(if BranchTaken(c1, Rt(insn), Ra(insn)) then c2.(pc := target) else c2, mem)
  }

  // ----- one step, and runs -----

  /** The instruction at pc, executed with the program counter already past it. */
  function Execute(cfg: Config, c: CpuState, mem: Regions, pc: u32, insn: u32): StepResult {
    var op := Opcode(insn);
    if IsBranch(insn) then
      if op == 19 then BranchRegister(cfg, c, mem, insn) else BranchDirect(c, mem, pc, insn)
    else if AccessOf(insn).Some? then AccessOp(cfg, c, mem, pc, insn, AccessOf(insn).value)
    else if op == 46 || op == 47 then MultipleOp(c, mem, pc, insn)
    else if IsReserved(insn) then ReservedOp(c, mem, pc, insn)
    else
      match RegisterOp(cfg, c, insn)
      case Done(c') => Running(c', mem)
      case Refused(reason) => FaultAt(c, mem, reason, pc, insn)
  }

  function Fetch(mem: Regions, pc: u32): Option<u32> {
    var b := ReadBytes(mem, pc, 4);
    if !Executable(mem, pc, 4) || b.None? then None else Some(Word(b.value))
  }

  function Step(cfg: Config, c: CpuState, mem: Regions): StepResult {
    if c.pc == cfg.returnAddress then FaultAt(c, mem, Returned, c.pc, 0)
    else if InImports(cfg, c.pc) then FaultAt(c, mem, ImportTrap, c.pc, 0)
    else
      var insn := Fetch(mem, c.pc);
      if insn.None? then FaultAt(c, mem, MemoryFault, c.pc, 0)
      else Execute(cfg, c.(pc := Wrap32(c.pc + 4)), mem, c.pc, insn.value)
  }

  datatype RunResult = RunResult(
    reason: StopReason, instructions: nat, pc: u32, instruction: u32, c: CpuState, mem: Regions)

  /** The rest of a run that has executed count instructions of the limit. */
  function Run(cfg: Config, c: CpuState, mem: Regions, count: nat, limit: nat): RunResult
    decreases limit - count, 1
  {
    if count >= limit then RunResult(InstructionLimit, limit, c.pc, 0, c, mem)
    else Proceed(cfg, Step(cfg, c, mem), count, limit)
  }

  function Proceed(cfg: Config, s: StepResult, count: nat, limit: nat): RunResult
    requires count < limit
    decreases limit - count, 0
  {
    match s
    case Running(c, mem) => Run(cfg, c, mem, count + 1, limit)
    case Stopped(c, mem, reason, extra, pc, insn) => RunResult(reason, count + extra, pc, insn, c, mem)
  }
}
