/**
  The processor state and the register-level arithmetic of the interpreter
  (include/ppclab/ppc/Cpu.hpp, the helpers of src/BuiltinInterpreter.cpp).
 */
module CpuModel {
  import opened Words

  type Gprs = r: seq<u32> | |r| == 32 witness seq(32, _ => 0)
  /** Floating-point registers as their 64-bit patterns. */
  type Fprs = r: seq<u64> | |r| == 32 witness seq(32, _ => 0)
  type Reg = r: nat | r < 32

  datatype CpuState = CpuState(
    gpr: Gprs, fpr: Fprs, pc: u32, lr: u32, ctr: u32, cr: u32, xer: u32, fpscr: u32,
    reservationAddress: u32, reservationValid: bool)

  // ----- condition register -----

  predicate CrBit(cr: u32, bi: nat) {
    bi < 32 && Bit(cr, 31 - bi)
  }

  function CrNibble(less: bool, greater: bool, equal: bool, so: bool): (n: nat)
    ensures n < 16
  {
    (if less then 8 else 0) + (if greater then 4 else 0) + (if equal then 2 else 0) + (if so then 1 else 0)
  }

  /** Replace a 4-bit field of the condition register; field 0 is the most significant. */
  function PutCrField(cr: u32, field: nat, nibble: nat): u32
    requires nibble < 16
  {
    if field >= 8 then cr
    else
      Pow2Of32();
      SetNibble(cr, 7 - field, nibble, 8)
  }

  function GetCrField(cr: u32, field: nat): (n: nat)
    requires field < 8
    ensures n < 16
  {
    Nibble(cr, 7 - field)
  }

  lemma NoSuchField(cr: u32, field: nat, nibble: nat)
    requires nibble < 16 && field >= 8
    ensures PutCrField(cr, field, nibble) == cr
  {
  }

  /** A field reads back as put, and the others are kept. */
  lemma PutCrFieldGets(cr: u32, field: nat, nibble: nat, other: nat)
    requires field < 8 && other < 8 && nibble < 16
    ensures GetCrField(PutCrField(cr, field, nibble), other) == if other == field then nibble else GetCrField(cr, other)
  {
    Pow2Of32();
    hide Nibble;
    SetNibbleGets(cr, 7 - field, nibble, 8, 7 - other);
  }

  lemma CrNibbleBits(less: bool, greater: bool, equal: bool, so: bool)
    ensures var n := CrNibble(less, greater, equal, so);
            Bit(n, 3) == less && Bit(n, 2) == greater && Bit(n, 1) == equal && Bit(n, 0) == so
  {
    LowBits(CrNibble(less, greater, equal, so));
  }

  /** A recorded comparison is what a branch on that field's bits reads back, and other fields keep theirs. */
  lemma {:induction false} CrFieldReadsBack(cr: u32, field: nat, less: bool, greater: bool, equal: bool, so: bool,
      bi: nat)
    requires field < 8 && bi < 32
    ensures CrBit(PutCrField(cr, field, CrNibble(less, greater, equal, so)), bi)
        <==> if bi / 4 != field then CrBit(cr, bi)
             else if bi % 4 == 0 then less else if bi % 4 == 1 then greater else if bi % 4 == 2 then equal else so
  {
    hide CrNibble, Bit, Nibble;
    var n := CrNibble(less, greater, equal, so);
    var cr' := PutCrField(cr, field, n);
    var k, b := 7 - bi / 4, 3 - bi % 4;
    assert 31 - bi == 4 * k + b;
    BitOfNibble(cr, k, b);
    BitOfNibble(cr', k, b);
    Pow2Of32();
    SetNibbleGets(cr, 7 - field, n, 8, k);
    CrNibbleBits(less, greater, equal, so);
  }

  /** Bit 4 * (7 - field) + b belongs to the field, every other bit to another field. */
  lemma PutCrFieldBits(cr: u32, field: nat, nibble: nat, j: nat)
    requires field < 8 && nibble < 16 && j < 32
    ensures Bit(PutCrField(cr, field, nibble), j)
         == if j / 4 == 7 - field then Bit(nibble, j % 4) else Bit(cr, j)
  {
    hide Bit, Nibble;
    var k, b := j / 4, j % 4;
    assert j == 4 * k + b;
    BitOfNibble(cr, k, b);
    BitOfNibble(PutCrField(cr, field, nibble), k, b);
    Pow2Of32();
    SetNibbleGets(cr, 7 - field, nibble, 8, k);
  }

  /** The shifted masks of the setter. */
  lemma CrFieldMask(cr: u32, field: nat, nibble: nat)
    requires field < 8 && nibble < 16
    ensures PutCrField(cr, field, nibble)
         == Or32(And32(cr, Not32(Shl32(0xF, 28 - 4 * field))), Shl32(nibble, 28 - 4 * field))
  {
    var shift := 28 - 4 * field;
    var mask, moved := Shl32(0xF, shift), Shl32(nibble, shift);
    var masked := Or32(And32(cr, Not32(mask)), moved);
    hide PutCrField, And32, Or32, Not32, Shl32, Bit;
    forall j: nat | j < 32 ensures Bit(PutCrField(cr, field, nibble), j) == Bit(masked, j) {
      PutCrFieldBits(cr, field, nibble, j);
      ShiftedBits(0xF, shift, j);
      ShiftedBits(nibble, shift, j);
      NotBits(mask, j);
      OrAndBits(cr, Not32(mask), j);
      OrAndBits(And32(cr, Not32(mask)), moved, j);
      if j >= shift + 4 {
        NibbleBits(nibble, j - shift);
        NibbleBits(0xF, j - shift);
      } else if j >= shift {
        FullNibble(j - shift);
      }
    }
    SameWord(PutCrField(cr, field, nibble), masked);
  }

  lemma FullNibble(b: nat)
    requires b < 4
    ensures Bit(0xF, b)
  {
    LowBits(0xF);
  }

  function SetCrBitTo(cr: u32, bi: nat, v: bool): u32 {
    if bi >= 32 then cr
    else
      Pow2Of32();
      SetBit(cr, 31 - bi, v, 32)
  }

  // ----- fixed-point exception register -----

  predicate Ca(xer: u32) { Bit(xer, 29) }
  predicate Ov(xer: u32) { Bit(xer, 30) }
  predicate So(xer: u32) { Bit(xer, 31) }

  function WithCarry(xer: u32, carry: bool): (r: u32)
    ensures Ca(r) == carry && Ov(r) == Ov(xer) && So(r) == So(xer)
  {
    Pow2Of32();
    SetBitBits(xer, 29, carry, 32, 29);
    SetBitBits(xer, 29, carry, 32, 30);
    SetBitBits(xer, 29, carry, 32, 31);
    SetBit(xer, 29, carry, 32)
  }

  function WithOv(xer: u32, overflow: bool): (r: u32)
    ensures Ca(r) == Ca(xer) && Ov(r) == overflow && So(r) == So(xer)
  {
    Pow2Of32();
    SetBitBits(xer, 30, overflow, 32, 29);
    SetBitBits(xer, 30, overflow, 32, 30);
    SetBitBits(xer, 30, overflow, 32, 31);
    SetBit(xer, 30, overflow, 32)
  }

  function WithSo(xer: u32): (r: u32)
    ensures Ca(r) == Ca(xer) && Ov(r) == Ov(xer) && So(r)
  {
    Pow2Of32();
    SetBitBits(xer, 31, true, 32, 29);
    SetBitBits(xer, 31, true, 32, 30);
    SetBitBits(xer, 31, true, 32, 31);
    SetBit(xer, 31, true, 32)
  }

  /** OV follows the last operation; SO is sticky. */
  function WithOverflow(xer: u32, overflow: bool): (r: u32)
    ensures Ov(r) == overflow && So(r) == (So(xer) || overflow) && Ca(r) == Ca(xer)
  {
    if overflow then WithSo(WithOv(xer, true)) else WithOv(xer, false)
  }

  /** Only CA changes. */
  lemma WithCarryBits(xer: u32, carry: bool, j: nat)
    ensures Bit(WithCarry(xer, carry), j) == if j == 29 then carry else Bit(xer, j)
  {
    Pow2Of32();
    SetBitBits(xer, 29, carry, 32, j);
  }

  /** Only OV changes, and SO if there was overflow. */
  lemma WithOverflowBits(xer: u32, overflow: bool, j: nat)
    ensures Bit(WithOverflow(xer, overflow), j)
         == if j == 30 then overflow else if j == 31 then overflow || Bit(xer, 31) else Bit(xer, j)
  {
    Pow2Of32();
    SetBitBits(xer, 30, overflow, 32, j);
    SetBitBits(WithOv(xer, overflow), 31, true, 32, j);
  }

  // ----- the masks the setters use -----

  lemma OrAndBits(a: u32, b: u32, k: nat)
    requires k < 32
    ensures Bit(Or32(a, b), k) == (Bit(a, k) || Bit(b, k)) && Bit(And32(a, b), k) == (Bit(a, k) && Bit(b, k))
  {
    hide Bit;
  }

  /** Masking with one bit sets or clears that bit only. */
  lemma OneBitMask(x: u32, n: nat, k: nat)
    requires n < 32 && k < 32 && Pow2(n) < 0x1_0000_0000
    ensures Bit(Or32(x, Pow2(n)), k) == (k == n || Bit(x, k))
    ensures Bit(And32(x, Not32(Pow2(n))), k) == (k != n && Bit(x, k))
  {
    hide *;
    PowerBits(n, k);
    NotBits(Pow2(n), k);
    OrAndBits(x, Pow2(n), k);
    OrAndBits(x, Not32(Pow2(n)), k);
  }

  lemma CarryMask(xer: u32, carry: bool)
    ensures WithCarry(xer, carry) == if carry then Or32(xer, 0x2000_0000) else And32(xer, Not32(0x2000_0000))
  {
    hide *;
    var masked := if carry then Or32(xer, 0x2000_0000) else And32(xer, Not32(0x2000_0000));
    HighPowers();
    forall k: nat | k < 32 ensures Bit(WithCarry(xer, carry), k) == Bit(masked, k) {
      WithCarryBits(xer, carry, k);
      OneBitMask(xer, 29, k);
    }
    SameWord(WithCarry(xer, carry), masked);
  }

  lemma OverflowMask(xer: u32, overflow: bool)
    ensures WithOverflow(xer, overflow)
         == if overflow then Or32(xer, Or32(0x8000_0000, 0x4000_0000)) else And32(xer, Not32(0x4000_0000))
  {
    hide *;
    var both := Or32(0x8000_0000, 0x4000_0000);
    var masked := if overflow then Or32(xer, both) else And32(xer, Not32(0x4000_0000));
    HighPowers();
    forall k: nat | k < 32 ensures Bit(WithOverflow(xer, overflow), k) == Bit(masked, k) {
      WithOverflowBits(xer, overflow, k);
      OneBitMask(xer, 30, k);
      OneBitMask(0x8000_0000, 30, k);
      PowerBits(31, k);
      OrAndBits(xer, both, k);
    }
    SameWord(WithOverflow(xer, overflow), masked);
  }

  predicate Negative(x: u32) { x >= 0x8000_0000 }

  /** The sign-bit tests of addOverflow and subOverflow. */
  predicate AddOverflow(a: u32, b: u32, result: u32) {
    Negative(a) == Negative(b) && Negative(a) != Negative(result)
  }

  predicate SubOverflow(minuend: u32, subtrahend: u32, result: u32) {
    Negative(minuend) != Negative(subtrahend) && Negative(minuend) != Negative(result)
  }

  predicate FitsInt32(v: int) { -0x8000_0000 <= v <= 0x7FFF_FFFF }

  /** The bit tests decide exactly whether the signed result left the 32-bit range. */
  lemma OverflowTests(a: u32, b: u32)
    ensures AddOverflow(a, b, Wrap32(a + b)) <==> !FitsInt32(Signed32(a) + Signed32(b))
    ensures SubOverflow(a, b, Wrap32(a - b)) <==> !FitsInt32(Signed32(a) - Signed32(b))
  {
  }

  // ----- shifts, rotates, masks -----

  function Rotl32(x: u32, n: nat): u32 {
    var k := n % 32;
    if k == 0 then x else Or32(Shl32(x, k), Shr32(x, 32 - k))
  }

  predicate MaskSelects(mb: nat, me: nat, p: nat) {
    if mb <= me then mb <= p <= me else p >= mb || p <= me
  }

  /** The first k positions of the mask read as a number; position 0 is the most significant bit. */
  function MaskPrefix(mb: nat, me: nat, k: nat): (m: nat)
    ensures m < Pow2(k)
  {
    if k == 0 then 0 else 2 * MaskPrefix(mb, me, k - 1) + (if MaskSelects(mb, me, k - 1) then 1 else 0)
  }

  function PpcMask(mb: nat, me: nat): u32 {
    Pow2Of32();
    MaskPrefix(mb, me, 32)
  }

  lemma {:induction false} MaskPrefixBits(mb: nat, me: nat, k: nat, p: nat)
    requires p < k
    ensures Bit(MaskPrefix(mb, me, k), k - 1 - p) <==> MaskSelects(mb, me, p)
  {
    if p < k - 1 {
      MaskPrefixBits(mb, me, k - 1, p);
      assert MaskPrefix(mb, me, k) / 2 == MaskPrefix(mb, me, k - 1);
    }
  }

  /** The mask selects exactly the named positions, wrapping past bit 31 when MB > ME. */
  lemma PpcMaskBits(mb: nat, me: nat, p: nat)
    requires p < 32
    ensures CrBit(PpcMask(mb, me), p) <==> MaskSelects(mb, me, p)
  {
    MaskPrefixBits(mb, me, 32, p);
  }

  lemma Doubled(a: nat, b: nat, unit: nat)
    ensures (2 * a + b) * unit == a * (2 * unit) + b * unit
  {
  }

  lemma MaskStep(mb: nat, me: nat, p: nat)
    requires p < 32
    ensures MaskPrefix(mb, me, p + 1) * Pow2(32 - (p + 1))
         == MaskPrefix(mb, me, p) * Pow2(32 - p) + (if MaskSelects(mb, me, p) then Pow2(31 - p) else 0)
  {
    hide MaskSelects;
    Doubled(MaskPrefix(mb, me, p), if MaskSelects(mb, me, p) then 1 else 0, Pow2(31 - p));
    assert Pow2(32 - p) == 2 * Pow2(31 - p);
  }

  lemma Pow2Small()
    ensures Pow2(0) == 1
  {
  }

  method BuildMask(mb: nat, me: nat) returns (mask: u32)
    ensures mask == PpcMask(mb, me)
  {
    hide Pow2;
    assert Pow2(0) == 1 by { Pow2Small(); }
    var m: nat := 0;
    for p := 0 to 32
      invariant m == MaskPrefix(mb, me, p) * Pow2(32 - p)
    {
      MaskStep(mb, me, p);
      var selected := if mb <= me then p >= mb && p <= me else p >= mb || p <= me;
      if selected { m := m + Pow2(31 - p); }
    }
    assert m == PpcMask(mb, me);
    return m;
  }

  function CountLeadingZeros(x: u32): nat
    decreases 0x1_0000_0000 - x
  {
    if x == 0 then 32 else if x >= 0x8000_0000 then 0 else 1 + CountLeadingZeros(2 * x)
  }

  function ByteSwap16(v: u16): u16 { Half([HalfBytes(v)[1], HalfBytes(v)[0]]) }

  function ByteSwap32(v: u32): u32 {
    var b := WordBytes(v);
    Word([b[3], b[2], b[1], b[0]])
  }

  /** C++ integer division: truncation towards zero. */
  function TruncDiv(a: int, b: int): int
    requires b != 0
  {
    var q := Abs(a) / Abs(b);
    if (a < 0) == (b < 0) then q else -q
  }

  function Abs(a: int): nat { if a < 0 then -a else a }

  predicate TrapCondition(to: nat, a: u32, b: u32) {
    || (Bit(to, 4) && Signed32(a) < Signed32(b))
    || (Bit(to, 3) && Signed32(a) > Signed32(b))
    || (Bit(to, 2) && a == b)
    || (Bit(to, 1) && a < b)
    || (Bit(to, 0) && a > b)
  }

  // ----- updates of the state -----

  function PutGpr(c: CpuState, r: Reg, v: u32): CpuState {
    c.(gpr := c.gpr[r := v])
  }

  function RecordCr0(c: CpuState, v: u32): CpuState {
    c.(cr := PutCrField(c.cr, 0, CrNibble(Signed32(v) < 0, Signed32(v) > 0, Signed32(v) == 0, So(c.xer))))
  }

  function RecordIf(c: CpuState, rc: bool, v: u32): CpuState {
    if rc then RecordCr0(c, v) else c
  }

  function CompareInto(c: CpuState, field: nat, a: int, b: int): CpuState {
    c.(cr := PutCrField(c.cr, field, CrNibble(a < b, a > b, a == b, So(c.xer))))
  }

  // ----- branch conditions -----

  /** CTR is decremented, before it is tested, unless BO says to ignore it. */
  function CtrAfter(c: CpuState, bo: nat): u32 {
    if Bit(bo, 2) then c.ctr else Wrap32(c.ctr - 1)
  }

  predicate BranchTaken(c: CpuState, bo: nat, bi: nat) {
    var ctrOk := Bit(bo, 2) || ((CtrAfter(c, bo) != 0) != Bit(bo, 1));
    var condOk := Bit(bo, 4) || CrBit(c.cr, bi) == Bit(bo, 3);
    ctrOk && condOk
  }
}
