/**
 * AES-CMAC (packages/core/src/aes-cmac.js) over an arbitrary 16-byte block cipher, against
 * the algorithms of RFC 4493 sections 2.3 and 2.4.
 */
module AesCmac {
  import opened Wrappers
  import opened Bits

  type Block = b: seq<Byte> | |b| == 16 witness seq(16, _ => 0)

  const ZERO: Block := seq(16, _ => 0)

  // ---- GF(2^128) ----

  /** A polynomial of degree below 128: index d holds the coefficient of x^d. */
  type Poly = p: seq<bool> | |p| == 128 witness seq(128, _ => false)

  /** The block's bits, most significant first, are the coefficients from x^127 down. */
  function ToPoly(b: Block): Poly {
    seq(128, d requires 0 <= d < 128 => Bit(b[15 - d / 8], d % 8))
  }

  function FromPoly(p: Poly): Block {
    seq(16, i requires 0 <= i < 16 => ByteAt(p, 15 - i))
  }

  /** The byte of coefficients 8k to 8k + 7. */
  function ByteAt(p: Poly, k: nat): (x: Byte)
    requires k < 16
    ensures forall j :: 0 <= j < 8 ==> Bit(x, j) == p[8 * k + j]
  {
    var bits := p[8 * k..8 * k + 8];
    Pow2Of8();
    FromBitsBound(bits);
    assert forall j :: 0 <= j < 8 ==> Bit(FromBits(bits), j) == p[8 * k + j] by {
      forall j | 0 <= j < 8 ensures Bit(FromBits(bits), j) == p[8 * k + j] {
        FromBitsBit(bits, j);
      }
    }
    FromBits(bits)
  }

  /** x^128 + x^7 + x^2 + x + 1 */
  predicate InReduction(d: nat) {
    d == 128 || d == 7 || d == 2 || d == 1 || d == 0
  }

  /** x * p, reduced. */
  function TimesX(p: Poly): Poly {
    var q := [false] + p;
    seq(128, d requires 0 <= d < 128 => if q[128] then q[d] != InReduction(d) else q[d])
  }

  function Double(b: Block): Block {
    FromPoly(TimesX(ToPoly(b)))
  }

  lemma Index(k: nat, j: nat)
    requires j < 8
    ensures (8 * k + j) / 8 == k && (8 * k + j) % 8 == j
  {
  }

  /** Bit j of the k-th byte from the end is the coefficient of x^(8k + j). */
  predicate Agrees(b: Block, p: Poly, k: nat, j: nat)
    requires k < 16 && j < 8
  {
    Bit(b[15 - k], j) == p[8 * k + j]
  }

  /** A block is determined by its polynomial. */
  lemma BlockOf(b: Block, p: Poly)
    requires forall k: nat, j: nat :: k < 16 && j < 8 ==> Agrees(b, p, k, j)
    ensures ToPoly(b) == p && FromPoly(p) == b
  {
    forall d | 0 <= d < 128 ensures ToPoly(b)[d] == p[d] {
      assert Agrees(b, p, d / 8, d % 8);
    }
    forall i | 0 <= i < 16 ensures FromPoly(p)[i] == b[i] {
      ByteOf(b, p, 15 - i);
    }
  }

  lemma ByteOf(b: Block, p: Poly, k: nat)
    requires k < 16 && forall j: nat :: j < 8 ==> Agrees(b, p, k, j)
    ensures ByteAt(p, k) == b[15 - k]
  {
    Pow2Of8();
    forall j | 0 <= j < 8 ensures Bit(ByteAt(p, k), j) == Bit(b[15 - k], j) {
      assert Agrees(b, p, k, j);
    }
    SameBits(ByteAt(p, k), b[15 - k], 8);
  }

  /** Blocks and polynomials correspond one to one. */
  lemma PolyRoundTrip(p: Poly, b: Block)
    ensures ToPoly(FromPoly(p)) == p && FromPoly(ToPoly(b)) == b
  {
    var q := FromPoly(p);
    forall k: nat, j: nat | k < 16 && j < 8 ensures Agrees(q, p, k, j) {
      assert q[15 - k] == ByteAt(p, k);
    }
    BlockOf(q, p);
    forall k: nat, j: nat | k < 16 && j < 8 ensures Agrees(b, ToPoly(b), k, j) {
      Index(k, j);
    }
    BlockOf(b, ToPoly(b));
  }

  // The loop.

  /** Byte i of the block shifted left by one bit. */
  function ShiftedByte(b: Block, i: nat): nat
    requires i < 16
  {
    Or(ShiftLeft(b[i]), if i + 1 < 16 then TopBit(b[i + 1]) else 0)
  }

  lemma ShiftedByteBound(b: Block, i: nat)
    requires i < 16
    ensures ShiftedByte(b, i) < 256
  {
    Pow2Of8();
    OperatorBounds(ShiftLeft(b[i]), if i + 1 < 16 then TopBit(b[i + 1]) else 0, 8);
  }

  lemma ShiftedBit(b: Block, k: nat, j: nat)
    requires k < 16 && j < 8
    ensures Bit(ShiftedByte(b, 15 - k), j) == (8 * k + j > 0 && ToPoly(b)[8 * k + j - 1])
  {
    OrBit(ShiftLeft(b[15 - k]), if k > 0 then TopBit(b[16 - k]) else 0, j);
    ShiftLeftBit(b[15 - k], j);
    CarryBit(b, k, j);
    if 8 * k + j > 0 {
      PreviousCoefficient(b, k, j);
    }
  }

  lemma PreviousCoefficient(b: Block, k: nat, j: nat)
    requires k < 16 && j < 8 && 8 * k + j > 0
    ensures ToPoly(b)[8 * k + j - 1] == if j > 0 then Bit(b[15 - k], j - 1) else Bit(b[16 - k], 7)
  {
    if j > 0 {
      Index(k, j - 1);
    } else {
      Index(k - 1, 7);
    }
  }

  lemma CarryBit(b: Block, k: nat, j: nat)
    requires k < 16 && j < 8
    ensures Bit(if k > 0 then TopBit(b[16 - k]) else 0, j) == (k > 0 && j == 0 && Bit(b[16 - k], 7))
  {
    if k > 0 {
      ShiftRightSeven(b[16 - k]);
    } else {
      ZeroBit(j);
    }
  }

  lemma RbBits(j: nat)
    requires j < 8
    ensures Bit(0x87, j) == InReduction(j)
  {
    FromBitsBit([true, true, true, false, false, false, false, true], j);
    var p := [true, true, true, false, false, false, false, true];
    assert p[1..] == [true, true, false, false, false, false, true];
    assert p[2..] == [true, false, false, false, false, true];
    assert p[3..] == [false, false, false, false, true];
    assert p[4..] == [false, false, false, true];
    assert FromBits(p) == 0x87;
  }

  lemma TopCoefficient(b: Block)
    ensures ToPoly(b)[127] <==> TopBit(b[0]) % 2 == 1
  {
    ShiftRightSeven(b[0]);
  }

  /** The shift loop with its conditional last byte is multiplication by x. */
  method Dbl(b: Block) returns (out: array<Byte>)
    ensures fresh(out) && out.Length == 16 && out[..] == Double(b)
  {
    out := new Byte[16](_ => 0);
    for i := 0 to 16
      invariant forall k :: 0 <= k < i ==> out[k] == ShiftedByte(b, k)
    {
      ShiftedByteBound(b, i);
      out[i] := Or(ShiftLeft(b[i]), if i + 1 < 16 then TopBit(b[i + 1]) else 0);
    }
    if TopBit(b[0]) % 2 == 1 {
      Pow2Of8();
      OperatorBounds(out[15], 0x87, 8);
      out[15] := Xor(out[15], 0x87);
    }
    ShiftIsTimesX(b, out[..]);
  }

  lemma ShiftIsTimesX(b: Block, out: Block)
    requires forall i :: 0 <= i < 15 ==> out[i] == ShiftedByte(b, i)
    requires out[15] == if TopBit(b[0]) % 2 == 1 then Xor(ShiftedByte(b, 15), 0x87) else ShiftedByte(b, 15)
    ensures out == Double(b)
  {
    var p := TimesX(ToPoly(b));
    forall k: nat, j: nat | k < 16 && j < 8 ensures Agrees(out, p, k, j) {
      ShiftedBit(b, k, j);
      TopCoefficient(b);
      if k == 0 {
        XorBit(ShiftedByte(b, 15), 0x87, j);
        RbBits(j);
      } else {
        assert !InReduction(8 * k + j);
      }
    }
    BlockOf(out, p);
  }

  // ---- RFC 4493 section 2.4 ----

  function XorBlock(a: Block, b: Block): Block {
    seq(16, i requires 0 <= i < 16 => XorByte(a[i], b[i]))
  }

  function XorByte(x: Byte, y: Byte): Byte {
    Pow2Of8();
    OperatorBounds(x, y, 8);
    Xor(x, y)
  }

  /** M_i, counted from 1. */
  function MessageBlock(msg: seq<Byte>, i: nat): Block
    requires 1 <= i && 16 * i <= |msg|
  {
    msg[16 * (i - 1)..16 * i]
  }

  /** x || 10^i */
  function Padding(x: seq<Byte>): Block
    requires |x| < 16
  {
    x + [0x80] + seq(15 - |x|, _ => 0)
  }

  /** X after i rounds: X_0 = 0, X_i = AES(K, X_(i-1) xor M_i). */
  function Rounds(aes: Block -> Block, msg: seq<Byte>, i: nat): Block
    requires 16 * i <= |msg|
  {
    if i == 0 then ZERO else aes(XorBlock(Rounds(aes, msg, i - 1), MessageBlock(msg, i)))
  }

  /** n = max(1, ceil(len / 16)) */
  function BlockCount(len: nat): (n: nat)
    ensures n >= 1 && 16 * (n - 1) <= len <= 16 * n
    ensures len > 0 && len % 16 == 0 ==> len == 16 * n
    ensures len == 0 || len % 16 != 0 ==> len < 16 * n
  {
    if len == 0 then 1 else (len + 15) / 16
  }

  /** M_last: the last block with K1 when it is complete, padded and with K2 when not. */
  function LastBlock(msg: seq<Byte>, k1: Block, k2: Block): Block {
    var n := BlockCount(|msg|);
    if |msg| > 0 && |msg| % 16 == 0 then XorBlock(MessageBlock(msg, n), k1)
    else XorBlock(Padding(msg[16 * (n - 1)..]), k2)
  }

  /** Steps 1 to 7 of the MAC generation algorithm. */
  function Rfc4493Mac(aes: Block -> Block, msg: seq<Byte>): Block {
    var k1 := Double(aes(ZERO));
    var k2 := Double(k1);
    aes(XorBlock(LastBlock(msg, k1, k2), Rounds(aes, msg, BlockCount(|msg|) - 1)))
  }

  // ---- The implementation ----

  /** AES in CBC mode without padding, over n blocks. */
  function Cbc(aes: Block -> Block, iv: Block, data: seq<Byte>, n: nat): (ct: seq<Byte>)
    requires |data| == 16 * n
    ensures |ct| == |data|
    decreases n
  {
    if n == 0 then [] else
    var c := aes(XorBlock(iv, data[..16]));
    c + Cbc(aes, c, data[16..], n - 1)
  }

  datatype CmacError = BadKeyLength

  method XorInPlace(a: array<Byte>, k: array<Byte>)
    requires a.Length == 16 && k.Length == 16 && a != k
    modifies a
    ensures a[..] == XorBlock(old(a[..]), k[..])
  {
    for i := 0 to 16
      invariant forall j :: 0 <= j < i ==> a[j] == XorByte(old(a[j]), k[j])
      invariant forall j :: i <= j < 16 ==> a[j] == old(a[j])
    {
      a[i] := XorByte(a[i], k[i]);
    }
  }

  method AesCmac(aes: (seq<Byte>, Block) -> Block, key: seq<Byte>, msg: seq<Byte>) returns (r: Result<Block, CmacError>)
    ensures |key| != 16 ==> r == Err(BadKeyLength)
    ensures |key| == 16 ==> r == Ok(Rfc4493Mac(b => aes(key, b), msg))
  {
    if |key| != 16 {
      return Err(BadKeyLength);
    }
    var mac := CbcMac(b => aes(key, b), msg);
    r := Ok(mac);
  }

  method CbcMac(cipher: Block -> Block, msg: seq<Byte>) returns (mac: Block)
    ensures mac == Rfc4493Mac(cipher, msg)
  {
    var k1, k2 := Subkeys(cipher);
    mac := CbcMacWithSubkeys(cipher, msg, k1, k2);
  }

  method CbcMacWithSubkeys(cipher: Block -> Block, msg: seq<Byte>, k1: array<Byte>, k2: array<Byte>)
    returns (mac: Block)
    requires k1.Length == 16 && k2.Length == 16
    ensures mac == cipher(XorBlock(LastBlock(msg, k1[..], k2[..]), Rounds(cipher, msg, BlockCount(|msg|) - 1)))
  {
    var n := BlockCount(|msg|);
    var last := MaskedLastBlock(msg, n, k1, k2);
    var ct := Cbc(cipher, ZERO, msg[..16 * (n - 1)] + last[..], n);
    mac := ct[|ct| - 16..];
    LastCbcBlock(cipher, msg, n - 1, last[..]);
  }

  method Subkeys(cipher: Block -> Block) returns (k1: array<Byte>, k2: array<Byte>)
    ensures k1.Length == 16 && k1[..] == Double(cipher(ZERO))
    ensures k2.Length == 16 && k2[..] == Double(Double(cipher(ZERO)))
  {
    var l := cipher(ZERO);
    k1 := Dbl(l);
    k2 := Dbl(k1[..]);
  }

  /** Copies or pads the last block and masks it in place. */
  method MaskedLastBlock(msg: seq<Byte>, n: nat, k1: array<Byte>, k2: array<Byte>) returns (last: array<Byte>)
    requires n == BlockCount(|msg|) && k1.Length == 16 && k2.Length == 16
    ensures fresh(last) && last.Length == 16 && last[..] == LastBlock(msg, k1[..], k2[..])
  {
    last := new Byte[16](_ => 0);
    if |msg| > 0 && |msg| % 16 == 0 {
      forall i | 0 <= i < 16 {
        last[i] := msg[(n - 1) * 16 + i];
      }
      assert last[..] == MessageBlock(msg, n);
      XorInPlace(last, k1);
    } else {
      var rest := |msg| - (n - 1) * 16;
      forall i | 0 <= i < rest {
        last[i] := msg[(n - 1) * 16 + i];
      }
      last[rest] := 0x80;
      assert last[..] == Padding(msg[16 * (n - 1)..]);
      XorInPlace(last, k2);
    }
  }

  /** The last CBC block over (head || last) is one more round after the rounds over head. */
  lemma LastCbcBlock(aes: Block -> Block, msg: seq<Byte>, m: nat, last: Block)
    requires 16 * m <= |msg|
    ensures var ct := Cbc(aes, ZERO, msg[..16 * m] + last, m + 1);
            ct[|ct| - 16..] == aes(XorBlock(last, Rounds(aes, msg, m)))
  {
    CbcFromRound(aes, msg, 0, m, last);
    assert msg[0..16 * m] == msg[..16 * m];
  }

  /** The last 16 bytes of CBC over whole blocks: with a zero vector, the CBC-MAC. */
  function CbcLast(aes: Block -> Block, iv: Block, data: seq<Byte>): (b: seq<Byte>)
    requires |data| >= 16 && |data| % 16 == 0
    ensures |b| == 16
  {
    Cbc(aes, iv, data, |data| / 16)[|data| - 16..]
  }

  function ZeroBytes(k: nat): (z: seq<Byte>)
    ensures |z| == k && forall i :: 0 <= i < k ==> z[i] == 0
  {
    seq(k, _ => 0)
  }

  /**
   * The message with its last block masked: with x * L when it consists of whole blocks, and
   * otherwise, the empty one included, padded with 0x80 and zeros and masked with x^2 * L.
   */
  function Masked(msg: seq<Byte>, L: Poly): (m: seq<Byte>)
    ensures |m| >= 16 && |m| % 16 == 0
  {
    var r := |msg| % 16;
    if |msg| > 0 && r == 0 then msg[..|msg| - 16] + XorBlock(msg[|msg| - 16..], FromPoly(TimesX(L)))
    else
      msg[..|msg| - r] + XorBlock(msg[|msg| - r..] + [0x80] + ZeroBytes(15 - r), FromPoly(TimesX(TimesX(L))))
  }

  /** The MAC as a field formula: the CBC-MAC of the message masked by L, the encrypted zero block. */
  lemma MacIsMaskedCbc(aes: Block -> Block, msg: seq<Byte>)
    ensures Rfc4493Mac(aes, msg) == CbcLast(aes, ZERO, Masked(msg, ToPoly(aes(ZERO))))
  {
    var L := ToPoly(aes(ZERO));
    var n := BlockCount(|msg|);
    var k1, k2 := FromPoly(TimesX(L)), FromPoly(TimesX(TimesX(L)));
    SubkeysInField(aes(ZERO));
    MacFromSubkeys(aes, msg, k1, k2);
    MaskedBlocks(msg, L);
    CbcOfBlocks(aes, msg, n - 1, LastBlock(msg, k1, k2), Masked(msg, L));
  }

  lemma MacFromSubkeys(aes: Block -> Block, msg: seq<Byte>, k1: Block, k2: Block)
    requires k1 == Double(aes(ZERO)) && k2 == Double(Double(aes(ZERO)))
    ensures Rfc4493Mac(aes, msg) == aes(XorBlock(LastBlock(msg, k1, k2), Rounds(aes, msg, BlockCount(|msg|) - 1)))
  {
  }

  lemma SubkeysInField(b: Block)
    ensures Double(b) == FromPoly(TimesX(ToPoly(b)))
    ensures Double(Double(b)) == FromPoly(TimesX(TimesX(ToPoly(b))))
  {
    PolyRoundTrip(TimesX(ToPoly(b)), b);
  }

  lemma CbcOfBlocks(aes: Block -> Block, msg: seq<Byte>, m: nat, last: Block, data: seq<Byte>)
    requires 16 * m <= |msg| && |data| == 16 * (m + 1) && data == msg[..16 * m] + last
    ensures CbcLast(aes, ZERO, data) == aes(XorBlock(last, Rounds(aes, msg, m)))
  {
    LastCbcBlock(aes, msg, m, last);
  }

  lemma MaskedBlocks(msg: seq<Byte>, L: Poly)
    ensures var n := BlockCount(|msg|);
            var k1, k2 := FromPoly(TimesX(L)), FromPoly(TimesX(TimesX(L)));
            |Masked(msg, L)| == 16 * n && Masked(msg, L) == msg[..16 * (n - 1)] + LastBlock(msg, k1, k2)
  {
    var n := BlockCount(|msg|);
    if |msg| > 0 && |msg| % 16 == 0 {
      assert MessageBlock(msg, n) == msg[|msg| - 16..];
    } else {
      LastStart(|msg|);
      assert Padding(msg[16 * (n - 1)..]) == msg[16 * (n - 1)..] + [0x80] + ZeroBytes(15 - |msg| % 16);
    }
  }

  lemma LastStart(len: nat)
    requires len == 0 || len % 16 != 0
    ensures 16 * (BlockCount(len) - 1) == len - len % 16
  {
  }

  lemma {:induction false} CbcFromRound(aes: Block -> Block, msg: seq<Byte>, i: nat, m: nat, last: Block)
    requires i <= m && 16 * m <= |msg|
    ensures var ct := Cbc(aes, Rounds(aes, msg, i), msg[16 * i..16 * m] + last, m - i + 1);
            ct[|ct| - 16..] == aes(XorBlock(last, Rounds(aes, msg, m)))
    decreases m - i
  {
    var data := msg[16 * i..16 * m] + last;
    var x := Rounds(aes, msg, i);
    if i == m {
      assert data == last && data[..16] == last;
      XorCommutes(x, last);
    } else {
      assert data[..16] == MessageBlock(msg, i + 1);
      assert data[16..] == msg[16 * (i + 1)..16 * m] + last;
      CbcFromRound(aes, msg, i + 1, m, last);
    }
  }

  lemma XorCommutes(a: Block, b: Block)
    ensures XorBlock(a, b) == XorBlock(b, a)
  {
    forall i | 0 <= i < 16 ensures XorByte(a[i], b[i]) == XorByte(b[i], a[i]) {
      XorSymmetric(a[i], b[i]);
    }
  }
}
