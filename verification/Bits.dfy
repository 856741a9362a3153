/** Bitwise operators on natural numbers, described by what they do to each bit. */
module Bits {
  import Hex
  import ModArith

  type Byte = Hex.Byte

  /** Bit j, 0 the least significant. */
  predicate Bit(n: nat, j: nat) {
    if j == 0 then n % 2 == 1 else Bit(n / 2, j - 1)
  }

  function Unit(b: bool): nat {
    if b then 1 else 0
  }

  function Xor(m: nat, n: nat): nat
    decreases m + n
  {
    if m == 0 && n == 0 then 0 else Unit(m % 2 != n % 2) + 2 * Xor(m / 2, n / 2)
  }

  function Or(m: nat, n: nat): nat
    decreases m + n
  {
    if m == 0 && n == 0 then 0 else Unit(m % 2 == 1 || n % 2 == 1) + 2 * Or(m / 2, n / 2)
  }

  function FromBits(p: seq<bool>): nat {
    if p == [] then 0 else Unit(p[0]) + 2 * FromBits(p[1..])
  }

  function Pow2(k: nat): nat {
    if k == 0 then 1 else 2 * Pow2(k - 1)
  }

  lemma {:induction false} ZeroBit(j: nat)
    ensures !Bit(0, j)
  {
    if j > 0 {
      ZeroBit(j - 1);
    }
  }

  lemma {:induction false} XorBit(m: nat, n: nat, j: nat)
    ensures Bit(Xor(m, n), j) == (Bit(m, j) != Bit(n, j))
    decreases j
  {
    if m == 0 && n == 0 {
      ZeroBit(j);
    } else if j > 0 {
      XorBit(m / 2, n / 2, j - 1);
      assert Xor(m, n) / 2 == Xor(m / 2, n / 2);
    }
  }

  lemma {:induction false} XorSymmetric(m: nat, n: nat)
    ensures Xor(m, n) == Xor(n, m)
    decreases m + n
  {
    if m != 0 || n != 0 {
      XorSymmetric(m / 2, n / 2);
    }
  }

  lemma {:induction false} OrBit(m: nat, n: nat, j: nat)
    ensures Bit(Or(m, n), j) == (Bit(m, j) || Bit(n, j))
    decreases j
  {
    if m == 0 && n == 0 {
      ZeroBit(j);
    } else if j > 0 {
      OrBit(m / 2, n / 2, j - 1);
      assert Or(m, n) / 2 == Or(m / 2, n / 2);
    }
  }

  lemma {:induction false} OperatorBounds(m: nat, n: nat, k: nat)
    requires m < Pow2(k) && n < Pow2(k)
    ensures Xor(m, n) < Pow2(k) && Or(m, n) < Pow2(k)
    decreases k
  {
    if k > 0 {
      OperatorBounds(m / 2, n / 2, k - 1);
    }
  }

  lemma {:induction false} FromBitsBit(p: seq<bool>, j: nat)
    ensures Bit(FromBits(p), j) == (j < |p| && p[j])
    decreases j
  {
    if p == [] {
      ZeroBit(j);
    } else if j > 0 {
      FromBitsBit(p[1..], j - 1);
      assert FromBits(p) / 2 == FromBits(p[1..]);
    }
  }

  lemma {:induction false} FromBitsBound(p: seq<bool>)
    ensures FromBits(p) < Pow2(|p|)
  {
    if p != [] {
      FromBitsBound(p[1..]);
    }
  }

  /** A number below 2^k is determined by its k low bits. */
  lemma {:induction false} SameBits(m: nat, n: nat, k: nat)
    requires m < Pow2(k) && n < Pow2(k) && forall j :: 0 <= j < k ==> Bit(m, j) == Bit(n, j)
    ensures m == n
  {
    if k > 0 {
      assert Bit(m, 0) == Bit(n, 0);
      forall j | 0 <= j < k - 1 ensures Bit(m / 2, j) == Bit(n / 2, j) {
        assert Bit(m, j + 1) == Bit(n, j + 1);
      }
      SameBits(m / 2, n / 2, k - 1);
    }
  }

  /** (n << 1) & 0xff */
  function ShiftLeft(n: Byte): Byte {
    n as int * 2 % 256
  }

  /** n >>> 7 */
  function TopBit(n: Byte): nat {
    n / 128
  }

  /** (n << 1) & 0xff moves every bit up by one and drops the top one. */
  lemma ShiftLeftBit(n: Byte, j: nat)
    requires j < 8
    ensures Bit(ShiftLeft(n), j) == (j > 0 && Bit(n, j - 1))
  {
    if j > 0 {
      assert ShiftLeft(n) / 2 == n % 128;
      LowBits(n, 7, j - 1);
    }
  }

  lemma {:induction false} LowBits(n: nat, k: nat, j: nat)
    requires j < k
    ensures Pow2(k) > 0 && Bit(n % Pow2(k), j) == Bit(n, j)
    decreases j
  {
    Halve(n, k);
    if j > 0 {
      LowBits(n / 2, k - 1, j - 1);
    }
  }

  lemma Halve(n: nat, k: nat)
    requires k > 0
    ensures Pow2(k) > 0 && Pow2(k - 1) > 0
    ensures n % Pow2(k) % 2 == n % 2 && n % Pow2(k) / 2 == n / 2 % Pow2(k - 1)
  {
    Pow2Positive(k - 1);
    var p := Pow2(k - 1);
    HalveMod(n, p);
  }

  lemma {:induction false} Pow2Positive(k: nat)
    ensures Pow2(k) > 0
  {
    if k > 0 {
      Pow2Positive(k - 1);
    }
  }

  lemma HalveMod(n: nat, p: nat)
    requires p > 0
    ensures n % (2 * p) % 2 == n % 2 && n % (2 * p) / 2 == n / 2 % p
  {
    var q, r := n / 2 / p, n / 2 % p;
    var s := 2 * r + n % 2;
    assert n / 2 == q * p + r;
    assert n == q * (2 * p) + s by { assert q * (2 * p) == 2 * (q * p); }
    ModArith.QuotientUnique(n, 2 * p, q, s);
  }

  lemma ShiftRightSeven(n: Byte)
    ensures Bit(TopBit(n), 0) == Bit(n, 7) && TopBit(n) <= 1
    ensures forall j :: 0 < j < 8 ==> !Bit(TopBit(n), j)
  {
    assert n / 2 / 2 / 2 / 2 / 2 / 2 / 2 == n / 128;
    assert Bit(n, 7) == Bit(n / 2 / 2 / 2 / 2 / 2 / 2 / 2, 0) by {
      assert Bit(n, 7) == Bit(n / 2, 6) == Bit(n / 2 / 2, 5) == Bit(n / 2 / 2 / 2, 4);
      assert Bit(n / 2 / 2 / 2, 4) == Bit(n / 2 / 2 / 2 / 2, 3) == Bit(n / 2 / 2 / 2 / 2 / 2, 2);
    }
    forall j | 0 < j < 8 ensures !Bit(TopBit(n), j) {
      ZeroBit(j - 1);
    }
  }

  lemma Pow2Of8()
    ensures Pow2(8) == 256 && Pow2(7) == 128
  {
    assert Pow2(4) == 16;
  }
}
