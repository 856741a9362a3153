/**
 * Integer powers and remainders: the arithmetic that the SRP formulas rest on.
 */
module ModArith {

  function Pow(b: int, e: nat): int {
    if e == 0 then 1 else b * Pow(b, e - 1)
  }

  /** JavaScript's `%` on BigInt: the remainder takes the sign of the dividend. */
  function JsRem(a: int, m: int): (r: int)
    requires m > 0
    ensures -m < r < m
    ensures r == a % m || r == a % m - m
    ensures (a >= 0 ==> r >= 0) && (a <= 0 ==> r <= 0)
  {
    if a >= 0 then a % m else
      NegativeRemainder(a, m);
      -((-a) % m)
  }

  lemma NegativeRemainder(a: int, m: int)
    requires m > 0
    ensures -((-a) % m) == a % m || -((-a) % m) == a % m - m
  {
    var q, r := (-a) / m, (-a) % m;
    assert a == (-q) * m - r;
    if r == 0 {
      QuotientUnique(a, m, -q, 0);
    } else {
      assert a == (-q - 1) * m + (m - r);
      QuotientUnique(a, m, -q - 1, m - r);
    }
  }

  lemma QuotientUnique(n: int, m: int, q: int, r: int)
    requires m > 0 && 0 <= r < m && n == q * m + r
    ensures n / m == q && n % m == r
  {
    SameQuotient(m, q, r, n / m, n % m);
  }

  lemma SameQuotient(m: int, q: int, r: int, q': int, r': int)
    requires 0 <= r < m && 0 <= r' < m && q * m + r == q' * m + r'
    ensures q == q' && r == r'
  {
    MulDistributes(q, -q', m);
    if q > q' {
      MulAtLeast(q - q', m);
    } else if q < q' {
      MulDistributes(q', -q, m);
      MulAtLeast(q' - q, m);
    }
  }

  lemma MulAtLeast(d: int, m: int)
    requires d >= 1 && m > 0
    ensures d * m >= m
  {
  }

  lemma MulDistributes(a: int, b: int, m: int)
    ensures (a + b) * m == a * m + b * m
  {
  }

  /** Adding a multiple of the modulus leaves the remainder alone. */
  lemma ModShift(x: int, k: int, m: int)
    requires m > 0
    ensures (x + k * m) % m == x % m
  {
    assert x + k * m == (x / m + k) * m + x % m;
    QuotientUnique(x + k * m, m, x / m + k, x % m);
  }

  /** Equal remainders differ by a multiple of the modulus. */
  lemma SameRemainder(a: int, a': int, m: int) returns (k: int)
    requires m > 0 && a % m == a' % m
    ensures a == a' + k * m
  {
    k := a / m - a' / m;
    MulDistributes(a / m, -(a' / m), m);
  }

  /** Congruences multiply. */
  lemma ModMul(a: int, a': int, b: int, b': int, m: int)
    requires m > 0 && a % m == a' % m && b % m == b' % m
    ensures (a * b) % m == (a' * b') % m
  {
    var i := SameRemainder(a, a', m);
    var j := SameRemainder(b, b', m);
    ShiftedProduct(a, a', b, b', i, j, m);
    ModShift(a' * b', a' * j + i * b' + i * j * m, m);
  }

  lemma ShiftedProduct(a: int, a': int, b: int, b': int, i: int, j: int, m: int)
    requires a == a' + i * m && b == b' + j * m
    ensures a * b == a' * b' + (a' * j + i * b' + i * j * m) * m
  {
    var s, t := i * m, j * m;
    assert a * b == a' * b' + a' * t + s * b' + s * t;
    assert a' * t == (a' * j) * m;
    assert s * b' == (i * b') * m;
    assert s * t == (i * j * m) * m;
    MulDistributes(a' * j + i * b', i * j * m, m);
    MulDistributes(a' * j, i * b', m);
  }

  /** Congruences add. */
  lemma ModAdd(a: int, a': int, b: int, b': int, m: int)
    requires m > 0 && a % m == a' % m && b % m == b' % m
    ensures (a + b) % m == (a' + b') % m
  {
    var i := SameRemainder(a, a', m);
    var j := SameRemainder(b, b', m);
    MulDistributes(i, j, m);
    assert a + b == (a' + b') + (i + j) * m;
    ModShift(a' + b', i + j, m);
  }

  /** Congruences subtract. */
  lemma ModSub(a: int, a': int, b: int, b': int, m: int)
    requires m > 0 && a % m == a' % m && b % m == b' % m
    ensures (a - b) % m == (a' - b') % m
  {
    var j := SameRemainder(b, b', m);
    assert -b == -b' + (-j) * m;
    ModShift(-b', -j, m);
    ModAdd(a, a', -b, -b', m);
  }

  lemma {:induction false} PowCongruent(a: int, b: int, e: nat, m: int)
    requires m > 0 && a % m == b % m
    ensures Pow(a, e) % m == Pow(b, e) % m
  {
    if e > 0 {
      PowCongruent(a, b, e - 1, m);
      ModMul(a, b, Pow(a, e - 1), Pow(b, e - 1), m);
    }
  }

  lemma {:induction false} PowAdd(b: int, x: nat, y: nat)
    ensures Pow(b, x + y) == Pow(b, x) * Pow(b, y)
  {
    if x > 0 {
      PowAdd(b, x - 1, y);
      assert Pow(b, x + y) == b * Pow(b, x - 1 + y);
      assert b * (Pow(b, x - 1) * Pow(b, y)) == (b * Pow(b, x - 1)) * Pow(b, y);
    }
  }

  lemma {:induction false} PowBase(a: int, b: int, e: nat)
    ensures Pow(a * b, e) == Pow(a, e) * Pow(b, e)
  {
    if e > 0 {
      PowBase(a, b, e - 1);
      MulSwap(a, b, Pow(a, e - 1), Pow(b, e - 1));
    }
  }

  lemma MulSwap(a: int, b: int, p: int, q: int)
    ensures (a * b) * (p * q) == (a * p) * (b * q)
  {
    assert (a * b) * (p * q) == a * (b * (p * q));
    assert b * (p * q) == p * (b * q);
    assert a * (p * (b * q)) == (a * p) * (b * q);
  }

  lemma {:induction false} PowPow(b: int, x: nat, y: nat)
    ensures 0 <= x * y && Pow(Pow(b, x), y) == Pow(b, x * y)
  {
    if y == 0 {
      assert x * y == 0;
    } else {
      PowPow(b, x, y - 1);
      assert x * y == x + x * (y - 1);
      PowAdd(b, x, x * (y - 1));
    }
  }

  /** An odd number above 1 divides no power of two, so 2^e is never 0 modulo it. */
  lemma {:induction false} OddNeverDividesPowerOfTwo(m: int, e: nat)
    requires m > 1 && m % 2 == 1
    ensures Pow(2, e) % m != 0
  {
    if e > 0 {
      OddNeverDividesPowerOfTwo(m, e - 1);
      var p := Pow(2, e - 1);
      if (2 * p) % m == 0 {
        HalveMultiple(p, m);
      }
    }
  }

  lemma HalveMultiple(p: int, m: int)
    requires m > 1 && m % 2 == 1 && (2 * p) % m == 0
    ensures p % m == 0
  {
    var q := SameRemainder(2 * p, 0, m);
    OddProduct(q, m);
    HalfProduct(q, m, p);
    QuotientUnique(p, m, q / 2, 0);
  }

  lemma OddProduct(q: int, m: int)
    requires m % 2 == 1
    ensures (q * m) % 2 == q % 2
  {
    ModMul(q, q, m, 1, 2);
  }

  lemma HalfProduct(q: int, m: int, p: int)
    requires q % 2 == 0 && 2 * p == q * m
    ensures p == (q / 2) * m
  {
    var h := q / 2;
    assert q == 2 * h;
    assert q * m == 2 * (h * m);
  }
}
