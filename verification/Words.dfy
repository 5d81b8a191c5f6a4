/**
  Fixed-width words as ranges of the integers, with the bit operations of the
  C++ sources written as arithmetic on those ranges.
 */
module Words {

  type u8 = x: int | 0 <= x < 0x100
  type u16 = x: int | 0 <= x < 0x1_0000
  type u32 = x: int | 0 <= x < 0x1_0000_0000
  type u64 = x: int | 0 <= x < 0x1_0000_0000_0000_0000

  datatype Option<+T> = None | Some(value: T)

  /** Truncation to 32 bits, which is also what unsigned overflow does. */
  function Wrap32(x: int): u32 {
    x % 0x1_0000_0000
  }

  /** The two's-complement reading of a 32-bit word. */
  function Signed32(x: u32): int {
    if x < 0x8000_0000 then x else x - 0x1_0000_0000
  }

  function SignExtend16(x: u32): int {
    var h := x % 0x1_0000;
    if h < 0x8000 then h else h - 0x1_0000
  }

  function SignExtend8(x: u32): int {
    var b := x % 0x100;
    if b < 0x80 then b else b - 0x100
  }

  function Pow2(n: nat): (p: nat)
    ensures p >= 1
  {
    if n == 0 then 1 else 2 * Pow2(n - 1)
  }

  /** Bit k of x, counted from the least significant bit. */
  predicate Bit(x: nat, k: nat) {
    if k == 0 then x % 2 == 1 else Bit(x / 2, k - 1)
  }

  /** The low n bits of a and b combined bit by bit. */
  function Bitwise(op: (bool, bool) -> bool, a: nat, b: nat, n: nat): (r: nat)
    ensures r < Pow2(n)
    ensures forall k: nat :: k < n ==> (Bit(r, k) <==> op(Bit(a, k), Bit(b, k)))
    decreases n
  {
    if n == 0 then 0
    else
      var low := if op(a % 2 == 1, b % 2 == 1) then 1 else 0;
      var r := 2 * Bitwise(op, a / 2, b / 2, n - 1) + low;
      assert forall k: nat :: 0 < k < n ==> (Bit(r, k) <==> Bit(r / 2, k - 1));
      r
  }

  lemma Pow2Of32()
    ensures Pow2(32) == 0x1_0000_0000
  {
    assert Pow2(8) == 0x100;
    assert Pow2(16) == 0x1_0000;
    assert Pow2(24) == 0x100_0000;
  }

  function Bitwise32(op: (bool, bool) -> bool, a: u32, b: u32): (r: u32)
    ensures forall k: nat :: k < 32 ==> (Bit(r, k) <==> op(Bit(a, k), Bit(b, k)))
  {
    Pow2Of32();
    Bitwise(op, a, b, 32)
  }

  function And32(a: u32, b: u32): u32 { Bitwise32((x, y) => x && y, a, b) }
  function Or32(a: u32, b: u32): u32 { Bitwise32((x, y) => x || y, a, b) }
  function Xor32(a: u32, b: u32): u32 { Bitwise32((x, y) => x != y, a, b) }
  function Not32(a: u32): u32 { 0xFFFF_FFFF - a }

  /** Logical shifts, one place at a time. */
  function Shl32(x: u32, n: nat): u32
    decreases n
  {
    if n == 0 then x else Shl32(Wrap32(2 * x), n - 1)
  }

  function Shr32(x: u32, n: nat): u32
    decreases n
  {
    if n == 0 then x else Shr32(x / 2, n - 1)
  }

  /** Arithmetic right shift of a signed value: it rounds towards minus infinity. */
  function Asr(x: int, n: nat): int
    decreases n
  {
    if n == 0 then x else Asr(x / 2, n - 1)
  }

  // ----- byte strings, most significant byte first -----

  function Word(b: seq<u8>): u32
    requires |b| == 4
  {
    b[0] as int * 0x100_0000 + b[1] as int * 0x1_0000 + b[2] as int * 0x100 + b[3]
  }

  function WordBytes(v: u32): (b: seq<u8>)
    ensures |b| == 4 && Word(b) == v
  {
    [v / 0x100 / 0x100 / 0x100, v / 0x100 / 0x100 % 0x100, v / 0x100 % 0x100, v % 0x100]
  }

  function Half(b: seq<u8>): u16
    requires |b| == 2
  {
    b[0] as int * 0x100 + b[1]
  }

  function HalfBytes(v: u16): (b: seq<u8>)
    ensures |b| == 2 && Half(b) == v
  {
    [v / 0x100, v % 0x100]
  }

  function Double(b: seq<u8>): u64
    requires |b| == 8
  {
    Word(b[..4]) as int * 0x1_0000_0000 + Word(b[4..])
  }

  function DoubleBytes(v: u64): (b: seq<u8>)
    ensures |b| == 8
  {
    WordBytes(v / 0x1_0000_0000) + WordBytes(v % 0x1_0000_0000)
  }

  // ----- single bits and nibbles of a wider value -----

  /** x with bit k set to v. */
  function SetBit(x: nat, k: nat, v: bool, n: nat): (r: nat)
    requires k < n && x < Pow2(n)
    ensures r < Pow2(n)
    decreases k
  {
    if k == 0 then x - x % 2 + (if v then 1 else 0)
    else 2 * SetBit(x / 2, k - 1, v, n - 1) + x % 2
  }

  lemma {:induction false} SetBitBits(x: nat, k: nat, v: bool, n: nat, j: nat)
    requires k < n && x < Pow2(n)
    ensures Bit(SetBit(x, k, v, n), j) <==> if j == k then v else Bit(x, j)
    decreases k
  {
    if k > 0 && j > 0 {
      SetBitBits(x / 2, k - 1, v, n - 1, j - 1);
      assert SetBit(x, k, v, n) / 2 == SetBit(x / 2, k - 1, v, n - 1);
    }
  }

  lemma Pow2OfNibbles(n: nat)
    requires n >= 1
    ensures Pow2(4 * n) == 16 * Pow2(4 * (n - 1))
  {
    assert Pow2(4 * n) == 2 * Pow2(4 * n - 1) == 4 * Pow2(4 * n - 2) == 8 * Pow2(4 * n - 3);
  }

  lemma PairFits(high: nat, low: nat, x: nat, n: nat)
    requires n >= 1 && low < 16 && x == 16 * high + low
    ensures x < Pow2(4 * n) <==> high < Pow2(4 * (n - 1))
  {
    Pow2OfNibbles(n);
    hide Pow2;
  }

  lemma NibbleOfPair(high: nat, low: nat, j: nat)
    requires low < 16
    ensures Nibble(16 * high + low, j) == if j == 0 then low else Nibble(high, j - 1)
  {
    assert (16 * high + low) / 16 == high && (16 * high + low) % 16 == low;
  }

  /** x with its k-th group of four bits, counted from the least significant, set to v. */
  function SetNibble(x: nat, k: nat, v: nat, n: nat): (r: nat)
    requires k < n && x < Pow2(4 * n) && v < 16
    ensures r < Pow2(4 * n)
    decreases k
  {
    PairFits(x / 16, x % 16, x, n);
    var high := if k == 0 then x / 16 else SetNibble(x / 16, k - 1, v, n - 1);
    var low := if k == 0 then v else x % 16;
    PairFits(high, low, 16 * high + low, n);
    16 * high + low
  }

  lemma {:induction false} SetNibbleGets(x: nat, k: nat, v: nat, n: nat, j: nat)
    requires k < n && x < Pow2(4 * n) && v < 16
    ensures Nibble(SetNibble(x, k, v, n), j) == if j == k then v else Nibble(x, j)
    decreases k
  {
    PairFits(x / 16, x % 16, x, n);
    if k == 0 {
      NibbleOfPair(x / 16, v, j);
    } else {
      NibbleOfPair(SetNibble(x / 16, k - 1, v, n - 1), x % 16, j);
      if j > 0 { SetNibbleGets(x / 16, k - 1, v, n - 1, j - 1); }
    }
  }

  function Nibble(x: nat, k: nat): (v: nat)
    ensures v < 16
  {
    if k == 0 then x % 16 else Nibble(x / 16, k - 1)
  }

  lemma LowBits(x: nat)
    ensures Bit(x, 0) == (x % 2 == 1)
    ensures Bit(x, 1) == (x / 2 % 2 == 1)
    ensures Bit(x, 2) == (x / 4 % 2 == 1)
    ensures Bit(x, 3) == (x / 8 % 2 == 1)
  {
    assert Bit(x, 2) == Bit(x / 2, 1) == Bit(x / 2 / 2, 0);
    assert Bit(x, 3) == Bit(x / 2, 2) == Bit(x / 2 / 2, 1) == Bit(x / 2 / 2 / 2, 0);
    assert x / 2 / 2 == x / 4 && x / 2 / 2 / 2 == x / 8;
  }

  lemma HalvedBy4(q: nat, r: nat)
    requires r < 4
    ensures (4 * q + r) / 2 == 2 * q + r / 2 && (4 * q + r) % 2 == r % 2
  {
  }

  lemma HalvedMod4(x: nat)
    ensures x % 4 / 2 == x / 2 % 2 && x % 4 % 2 == x % 2
  {
    var q, r := x / 4, x % 4;
    HalvedBy4(q, r);
    assert x == 4 * q + r;
    assert x / 2 == 2 * q + r / 2;
  }

  lemma HalvedBy8(q: nat, r: nat)
    requires r < 8
    ensures (8 * q + r) / 2 == 4 * q + r / 2 && (8 * q + r) % 2 == r % 2
  {
  }

  lemma HalvedMod8(x: nat)
    ensures x % 8 / 2 == x / 2 % 4 && x % 8 % 2 == x % 2
  {
    var q, r := x / 8, x % 8;
    HalvedBy8(q, r);
    assert x == 8 * q + r;
    assert x / 2 == 4 * q + r / 2;
  }

  lemma HalvedBy16(q: nat, r: nat)
    requires r < 16
    ensures (16 * q + r) / 2 == 8 * q + r / 2 && (16 * q + r) % 2 == r % 2
  {
  }

  lemma HalvedMod16(x: nat)
    ensures x % 16 / 2 == x / 2 % 8 && x % 16 % 2 == x % 2
  {
    var q, r := x / 16, x % 16;
    HalvedBy16(q, r);
    assert x == 16 * q + r;
    assert x / 2 == 8 * q + r / 2;
  }

  /** The bits of a nibble, one halving at a time. */
  lemma BitsOfNibble(x: nat)
    ensures Bit(x % 16, 0) == Bit(x, 0) && Bit(x % 16, 1) == Bit(x, 1)
    ensures Bit(x % 16, 2) == Bit(x, 2) && Bit(x % 16, 3) == Bit(x, 3)
  {
    HalvedMod16(x);
    HalvedMod8(x / 2);
    HalvedMod4(x / 2 / 2);
    assert Bit(x, 2) == Bit(x / 2, 1) == Bit(x / 2 / 2, 0);
    assert Bit(x, 3) == Bit(x / 2, 2) == Bit(x / 2 / 2, 1) == Bit(x / 2 / 2 / 2, 0);
    assert Bit(x % 16, 1) == Bit(x / 2 % 8, 0);
    assert Bit(x % 16, 2) == Bit(x / 2 % 8, 1) == Bit(x / 2 / 2 % 4, 0);
    assert Bit(x % 16, 3) == Bit(x / 2 % 8, 2) == Bit(x / 2 / 2 % 4, 1) == Bit(x / 2 / 2 / 2 % 2, 0);
  }

  lemma BitOfLowNibble(x: nat, b: nat)
    requires b < 4
    ensures Bit(x, b) == Bit(x % 16, b)
  {
    BitsOfNibble(x);
  }

  lemma BitFourUp(x: nat, m: nat)
    ensures Bit(x, 4 + m) == Bit(x / 16, m)
  {
    assert Bit(x, 4 + m) == Bit(x / 2, 3 + m) == Bit(x / 2 / 2, 2 + m) == Bit(x / 2 / 2 / 2, 1 + m)
        == Bit(x / 2 / 2 / 2 / 2, m);
    assert x / 2 / 2 / 2 / 2 == x / 16;
  }

  /** A bit is the matching bit of its nibble. */
  lemma {:induction false} BitOfNibble(x: nat, k: nat, b: nat)
    requires b < 4
    ensures Bit(x, 4 * k + b) == Bit(Nibble(x, k), b)
    decreases k
  {
    if k == 0 {
      BitOfLowNibble(x, b);
    } else {
      BitFourUp(x, 4 * (k - 1) + b);
      BitOfNibble(x / 16, k - 1, b);
    }
  }

  // ----- words told apart by their bits -----

  /** Two numbers of n bits that agree in every bit are the same. */
  lemma {:induction false} SameBits(a: nat, b: nat, n: nat)
    requires a < Pow2(n) && b < Pow2(n)
    requires forall k: nat :: k < n ==> Bit(a, k) == Bit(b, k)
    ensures a == b
    decreases n
  {
    if n > 0 {
      assert Bit(a, 0) == Bit(b, 0);
      forall k: nat | k < n - 1 ensures Bit(a / 2, k) == Bit(b / 2, k) {
        assert Bit(a, k + 1) == Bit(b, k + 1);
      }
      SameBits(a / 2, b / 2, n - 1);
    }
  }

  lemma SameWord(a: u32, b: u32)
    requires forall k: nat :: k < 32 ==> Bit(a, k) == Bit(b, k)
    ensures a == b
  {
    Pow2Of32();
    SameBits(a, b, 32);
  }

  lemma {:induction false} ComplementBits(a: nat, n: nat, k: nat)
    requires a < Pow2(n) && k < n
    ensures Bit(Pow2(n) - 1 - a, k) == !Bit(a, k)
    decreases n
  {
    var c, high, low := Pow2(n - 1) - 1 - a / 2, a / 2, a % 2;
    assert Pow2(n) == 2 * Pow2(n - 1) && a == 2 * high + low;
    var x := Pow2(n) - 1 - a;
    assert x == 2 * c + (1 - low);
    hide Pow2;
    assert x / 2 == c && x % 2 == 1 - low;
    if k > 0 { ComplementBits(high, n - 1, k - 1); }
  }

  lemma NotBits(a: u32, k: nat)
    requires k < 32
    ensures Bit(Not32(a), k) == !Bit(a, k)
  {
    Pow2Of32();
    ComplementBits(a, 32, k);
  }

  lemma {:induction false} PowerBits(n: nat, k: nat)
    ensures Bit(Pow2(n), k) == (k == n)
    decreases k
  {
    if k == 0 {
      if n > 0 { assert Pow2(n) == 2 * Pow2(n - 1); }
    } else if n == 0 {
      ZeroBits(k - 1);
    } else {
      assert Pow2(n) / 2 == Pow2(n - 1);
      PowerBits(n - 1, k - 1);
    }
  }

  lemma {:induction false} ZeroBits(k: nat)
    ensures !Bit(0, k)
    decreases k
  {
    if k > 0 { ZeroBits(k - 1); }
  }

  lemma DoubledBits(x: u32, k: nat)
    requires k < 32
    ensures Bit(Wrap32(2 * x), k) == (k > 0 && Bit(x, k - 1))
  {
    var low: nat := if x < 0x8000_0000 then x else x - 0x8000_0000;
    assert Wrap32(2 * x) == 2 * low;
    HighPowers();
    hide Pow2;
    EvenBits(low, k);
    if x >= 0x8000_0000 && k > 0 { TopBitOff(x, 31, k - 1); }
  }

  lemma EvenBits(x: nat, k: nat)
    ensures Bit(2 * x, k) == (k > 0 && Bit(x, k - 1))
  {
    assert 2 * x / 2 == x;
  }

  lemma HighPowers()
    ensures Pow2(29) == 0x2000_0000 && Pow2(30) == 0x4000_0000 && Pow2(31) == 0x8000_0000 && Pow2(32) == 0x1_0000_0000
  {
    assert Pow2(8) == 0x100;
    assert Pow2(16) == 0x1_0000;
    assert Pow2(24) == 0x100_0000;
    assert Pow2(28) == 0x1000_0000;
  }

  lemma {:induction false} TopBitOff(x: nat, n: nat, k: nat)
    requires Pow2(n) <= x && k < n
    ensures Bit(x - Pow2(n), k) == Bit(x, k)
    decreases n
  {
    assert Pow2(n) == 2 * Pow2(n - 1);
    if k > 0 {
      assert (x - Pow2(n)) / 2 == x / 2 - Pow2(n - 1);
      TopBitOff(x / 2, n - 1, k - 1);
    }
  }

  lemma {:induction false} ShiftedBits(x: u32, n: nat, k: nat)
    requires k < 32
    ensures Bit(Shl32(x, n), k) == (k >= n && Bit(x, k - n))
    decreases n
  {
    if n > 0 {
      ShiftedBits(Wrap32(2 * x), n - 1, k);
      if k >= n - 1 { DoubledBits(x, k - (n - 1)); }
    }
  }

  /** A nibble has no bits above its fourth. */
  lemma NibbleBits(v: nat, k: nat)
    requires v < 16 && k >= 4
    ensures !Bit(v, k)
  {
    BitFourUp(v, k - 4);
    ZeroBits(k - 4);
  }
}
