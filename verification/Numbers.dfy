/** Division and remainder of the integers by a positive number, beyond what the verifier knows. */
module Numbers {
  import opened Words

  lemma MultipleIsFar(d: nat, k: int)
    ensures k >= 1 ==> d * k >= d
    ensures k <= -1 ==> d * k + d <= 0
  {
    if k >= 1 {
      assert d * (k - 1) >= 0;
    } else if k <= -1 {
      assert d * (-k - 1) >= 0;
    }
  }

  lemma Difference(x: int, y: int, w: int)
    ensures (y - x) * w == y * w - x * w
  {
  }

  lemma Distributes(x: int, y: int, z: int, w: int)
    ensures (x + y + z) * w == x * w + y * w + w * z
  {
  }

  lemma Product(a: nat, b: nat)
    ensures a * b >= 0 && (a >= 1 && b >= 1 ==> a * b >= 1)
  {
  }

  /** Scaling by a natural number keeps an order. */
  lemma Scaled(x: int, y: int, w: nat)
    requires x <= y
    ensures x * w <= y * w
  {
    Difference(x, y, w);
    Product(y - x, w);
  }

  lemma StrictlyScaled(x: int, y: int, w: nat)
    requires x < y && w >= 1
    ensures x * w < y * w
  {
    Difference(x, y, w);
    Product(y - x, w);
  }

  lemma SameMultiple(d: nat, q: int, r: nat, q': int, r': nat)
    requires d * q + r == d * q' + r' && r < d && r' < d
    ensures q == q' && r == r'
  {
    assert d * (q - q') == d * q - d * q';
    MultipleIsFar(d, q - q');
  }

  lemma DivUnique(x: int, d: nat, q: int, r: nat)
    requires x == d * q + r && r < d
    ensures x / d == q && x % d == r
  {
    SameMultiple(d, q, r, x / d, x % d);
  }

  /** Dividing twice is dividing by the product. */
  lemma Divided(x: nat, a: nat, b: nat)
    requires a >= 1 && b >= 1
    ensures a * b >= 1 && x / a / b == x / (a * b)
  {
    Product(a, b);
    var q, r := x / a, x % a;
    var p, s := q / b, q % b;
    Nested(a, b, p, s);
    RemainderFits(a, b, s, r);
    DivUnique(x, a * b, p, a * s + r);
  }

  lemma RemainderFits(a: nat, b: nat, s: nat, r: nat)
    requires s < b && r < a
    ensures 0 <= a * s + r < a * b
  {
    Product(a, s);
    Scaled(s, b - 1, a);
    Swapped(a, b, s);
  }

  lemma Nested(a: int, b: int, p: int, s: int)
    ensures a * (b * p + s) == (a * b) * p + a * s
  {
  }

  lemma Swapped(a: int, b: int, s: int)
    ensures s * a == a * s && (b - 1) * a == a * b - a
  {
  }

  lemma {:induction false} Pow2Adds(a: nat, b: nat)
    ensures Pow2(a + b) == Pow2(a) * Pow2(b)
  {
    if a > 0 {
      Pow2Adds(a - 1, b);
      var p, q := Pow2(a - 1), Pow2(b);
      assert 2 * (p * q) == (2 * p) * q;
    }
  }

  lemma ModShift(x: int, p: nat, k: int)
    requires p >= 1
    ensures (x - p * k) % p == x % p
  {
    assert p * (x / p - k) == p * (x / p) - p * k;
    DivUnique(x - p * k, p, x / p - k, x % p);
  }

  /** The least multiple of a not below v. */
  function RoundUp(v: int, a: nat): int
    requires a >= 1
  {
    (v + a - 1) / a * a
  }

  lemma RoundUpBounds(v: int, a: nat)
    requires a >= 1
    ensures v <= RoundUp(v, a) < v + a
  {
    var x := v + a - 1;
    assert x == a * (x / a) + x % a;
  }

  /** Rounding commutes with a shift by a multiple. */
  lemma RoundUpShift(v: int, a: nat, d: int)
    requires a >= 1 && d % a == 0
    ensures RoundUp(v + d, a) == RoundUp(v, a) + d
  {
    var x, k := v + a - 1, d / a;
    assert d == a * k;
    var q, r := x / a, x % a;
    assert x == a * q + r;
    assert a * (q + k) == a * q + a * k;
    DivUnique(x + d, a, q + k, r);
    assert (q + k) * a == q * a + k * a;
  }

  /** The last two bits of a field's remainder are those of the word. */
  lemma FlagsOfRest(w: int, m: int)
    requires m == 0x400_0000 || m == 0x1_0000
    ensures w % m % 4 == w % 4
  {
    var k := if m == 0x1_0000 then 0x4000 else 0x100_0000;
    hide *;
    var q, r := w / m, w % m;
    assert w == 4 * (k * q + r / 4) + r % 4;
    DivUnique(w, 4, k * q + r / 4, r % 4);
  }
}
