/**
 * Cognito device and user SRP-6a (packages/core/src/device-srp.js).
 *
 * SHA-256 and HKDF are arbitrary functions: every statement holds for all of them.
 */
module Srp {
  import opened Wrappers
  import opened ModArith
  import Hex
  import Base64

  type Byte = Hex.Byte

  // ---- padHex ----

  /** One of 8, 9 and a to f, in either case: the top bit of its byte is set. */
  predicate HighDigit(c: char) {
    '8' <= c <= '9' || 'a' <= Hex.Lower(c) <= 'f'
  }

  /** Even-length hex; a set top bit gets a zero byte in front. */
  function PadHex(n: nat): string {
    var hex := Hex.ToString(n);
    if |hex| % 2 == 1 then "0" + hex
    else if HighDigit(hex[0]) then "00" + hex
    else hex
  }

  predicate SignSafe(s: string) {
    s != "" && |s| % 2 == 0 && Hex.IsHex(s) && Hex.DigitValue(s[0]) < 8
  }

  lemma PadHexKeepsValue(n: nat)
    ensures SignSafe(PadHex(n)) && Hex.IsLowerHex(PadHex(n)) && Hex.Value(PadHex(n)) == n
  {
    var hex := Hex.ToString(n);
    var extra := PadHexExtends(n);
    Hex.ToStringValue(n);
    Hex.LeadingZeros(extra, hex);
    Hex.LowerPadded(extra, hex);
    ZerosInFront(extra, hex);
  }

  /** Zeros in front: the length becomes even and the first digit low. */
  lemma ZerosInFront(extra: nat, hex: string)
    requires hex != "" && Hex.IsHex(hex) && Hex.IsHex(Hex.Zeros(extra) + hex)
    requires extra <= 2 && (extra == 1 <==> |hex| % 2 == 1) && (extra == 0 ==> Hex.DigitValue(hex[0]) < 8)
    ensures SignSafe(Hex.Zeros(extra) + hex)
  {
    var s := Hex.Zeros(extra) + hex;
    assert s[0] == if extra > 0 then '0' else hex[0];
    EvenTotal(extra, |hex|);
  }

  lemma EvenTotal(extra: nat, length: nat)
    requires extra <= 2 && (extra == 1 <==> length % 2 == 1)
    ensures (extra + length) % 2 == 0
  {
  }

  /** padHex puts up to two zeros in front: one for parity, two for the sign. */
  lemma PadHexExtends(n: nat) returns (extra: nat)
    ensures PadHex(n) == Hex.Zeros(extra) + Hex.ToString(n)
    ensures extra <= 2 && (extra == 1 <==> |Hex.ToString(n)| % 2 == 1)
    ensures Hex.IsDigit(Hex.ToString(n)[0])
    ensures extra == 0 ==> Hex.DigitValue(Hex.ToString(n)[0]) < 8
    ensures extra == 2 ==> Hex.DigitValue(Hex.ToString(n)[0]) >= 8
  {
    var hex := Hex.ToString(n);
    Hex.ToStringValue(n);
    LeadingDigit(hex[0]);
    extra := if |hex| % 2 == 1 then 1 else if HighDigit(hex[0]) then 2 else 0;
    UpToTwoZeros(hex);
  }

  lemma UpToTwoZeros(hex: string)
    ensures Hex.Zeros(0) + hex == hex && Hex.Zeros(1) + hex == "0" + hex && Hex.Zeros(2) + hex == "00" + hex
  {
    assert Hex.Zeros(1) == "0" && Hex.Zeros(2) == "00";
  }

  lemma LeadingDigit(c: char)
    requires Hex.IsDigit(c)
    ensures HighDigit(c) <==> Hex.DigitValue(c) >= 8
  {
  }

  /**
   * No shorter text of whole bytes with a clear sign bit has this value, and any other one
   * is padHex's with zero bytes in front: the form of Java's BigInteger.toByteArray.
   */
  lemma PadHexIsShortest(s: string)
    requires SignSafe(s)
    ensures |PadHex(Hex.Value(s))| <= |s|
    ensures Hex.LowerAll(s) == Hex.Zeros(|s| - |PadHex(Hex.Value(s))|) + PadHex(Hex.Value(s))
  {
    var n := Hex.Value(s);
    var hex := Hex.ToString(n);
    var extra := PadHexExtends(n);
    Hex.AnyNumeralIsPadded(s);
    RoomForZeros(s, hex, extra);
    SplitZeros(|s| - |hex| - extra, extra, hex);
  }

  /** The sign-safe text already has the zeros that padHex adds. */
  lemma RoomForZeros(s: string, hex: string, extra: nat)
    requires SignSafe(s) && hex != "" && |hex| <= |s| && Hex.IsDigit(hex[0])
    requires Hex.LowerAll(s) == Hex.Zeros(|s| - |hex|) + hex
    requires extra <= 2 && (extra == 1 <==> |hex| % 2 == 1) && (extra == 2 ==> Hex.DigitValue(hex[0]) >= 8)
    ensures |hex| + extra <= |s|
  {
    if |hex| == |s| {
      NoZeros(hex);
      assert Hex.LowerAll(s)[0] == hex[0];
      SameDigitAnyCase(s[0], hex[0]);
    }
  }

  lemma NoZeros(hex: string)
    ensures Hex.Zeros(0) + hex == hex
  {
  }

  lemma SplitZeros(m: nat, extra: nat, hex: string)
    ensures Hex.Zeros(m + extra) + hex == Hex.Zeros(m) + (Hex.Zeros(extra) + hex)
  {
  }

  lemma SameDigitAnyCase(c: char, d: char)
    requires Hex.IsDigit(c) && Hex.IsDigit(d) && Hex.Lower(c) == d
    ensures Hex.DigitValue(c) == Hex.DigitValue(d)
  {
  }

  // ---- Signed bytes ----

  /** The shortest big-endian two's complement of a natural number: BigInteger.toByteArray. */
  function SignedBytes(n: nat): (b: seq<Byte>)
    ensures b != []
  {
    if n < 128 then [n] else SignedBytes(n / 256) + [n % 256]
  }

  lemma {:induction false} SignedBytesShape(n: nat)
    ensures var b := SignedBytes(n);
            && Hex.BytesValue(b) == n && b[0] < 128 && (|b| > 1 && b[0] == 0 ==> b[1] >= 128)
  {
    if n >= 128 {
      var front := SignedBytes(n / 256);
      var b := front + [n % 256];
      SignedBytesShape(n / 256);
      assert b[..|b| - 1] == front && b[0] == front[0];
      if |front| > 1 {
        assert b[1] == front[1];
      } else {
        assert front[..0] == [] && Hex.BytesValue(front) == front[0];
      }
    } else {
      assert [n as Byte][..0] == [];
    }
  }

  /** What padHex writes are these bytes, for every number. */
  lemma PadHexIsSignedBytes(n: nat)
    ensures Hex.Decode(PadHex(n)) == SignedBytes(n)
  {
    var b := SignedBytes(n);
    SignedBytesShape(n);
    SignedBytesAsText(b);
    PadHexKeepsValue(n);
    ShortestText(b, PadHex(n));
    Hex.EncodeDecode(b);
  }

  lemma SignedBytesAsText(b: seq<Byte>)
    requires b != [] && b[0] < 128
    ensures SignSafe(Hex.Encode(b)) && Hex.IsLowerHex(Hex.Encode(b))
    ensures Hex.Value(Hex.Encode(b)) == Hex.BytesValue(b)
  {
    Hex.EncodeDecode(b);
    Hex.DecodeValue(Hex.Encode(b));
    FirstDigits(b);
  }

  lemma FirstDigits(b: seq<Byte>)
    requires b != []
    ensures var t := Hex.Encode(b);
            && |t| >= 2 && t[2..] == Hex.Encode(b[1..]) && Hex.IsDigit(t[0]) && Hex.IsDigit(t[1])
            && Hex.DigitValue(t[0]) == b[0] / 16 && Hex.DigitValue(t[1]) == b[0] % 16
  {
    Hex.DigitRoundTrip(b[0] / 16);
    Hex.DigitRoundTrip(b[0] % 16);
  }

  lemma ShortestText(b: seq<Byte>, p: string)
    requires b != [] && b[0] < 128 && (|b| > 1 && b[0] == 0 ==> b[1] >= 128)
    requires SignSafe(p) && p == PadHex(Hex.BytesValue(b))
    ensures Hex.Encode(b) == p
  {
    SignedBytesAsText(b);
    PadHexIsShortest(Hex.Encode(b));
    NothingInFront(b, Hex.Encode(b), p);
  }

  lemma NothingInFront(b: seq<Byte>, t: string, p: string)
    requires b != [] && (|b| > 1 && b[0] == 0 ==> b[1] >= 128)
    requires t == Hex.Encode(b) && |t| % 2 == 0 && SignSafe(p) && |p| <= |t| && t == Hex.Zeros(|t| - |p|) + p
    ensures t == p
  {
    EvenDifference(|t|, |p|);
    if |t| > |p| {
      NoZeroByteInFront(b, t, |t| - |p|, p);
    } else {
      NoZeros(p);
    }
  }

  lemma EvenDifference(m: nat, n: nat)
    requires m % 2 == 0 && n % 2 == 0
    ensures (m - n) % 2 == 0
  {
  }

  lemma NoZeroByteInFront(b: seq<Byte>, t: string, k: nat, p: string)
    requires b != [] && t == Hex.Encode(b) && t == Hex.Zeros(k) + p && k > 0 && k % 2 == 0 && SignSafe(p)
    ensures b[0] == 0 && |b| > 1 && b[1] < 128
  {
    FirstDigits(b);
    assert t[0] == Hex.Zeros(k)[0] && t[1] == Hex.Zeros(k)[1];
    assert Hex.Encode(b[1..]) == t[2..];
    assert |t[2..]| > 0;
    FirstDigits(b[1..]);
    assert t[2] == if k > 2 then Hex.Zeros(k)[2] else p[0];
  }

  // ---- modPow ----

  /** Square and multiply; a negative base is normalised first. */
  method ModPow(base: int, exp: int, mod: int) returns (result: int)
    requires mod > 0
    ensures exp <= 0 ==> result == 1
    ensures exp > 0 || (exp == 0 && mod > 1) ==> result == Pow(base, exp) % mod
  {
    result := 1;
    var b := JsRem(JsRem(base, mod) + mod, mod);
    var e := exp;
    ghost var target := Pow(base, if exp > 0 then exp else 0) % mod;
    Starts(base, if exp > 0 then exp else 0, mod);
    while e > 0
      invariant e <= exp && (exp <= 0 ==> e == exp && result == 1)
      invariant exp > 0 ==> e >= 0 && Stands(result, b, e, mod, target)
    {
      SquareStep(result, b, e, mod, target);
      if e % 2 == 1 {
        result := JsRem(result * b, mod);
      }
      e := e / 2;
      b := JsRem(b * b, mod);
    }
    if exp > 0 {
      Arrives(result, b, mod, target);
    } else if mod > 1 {
      QuotientUnique(1, mod, 0, 1);
    }
  }

  lemma Starts(base: int, e: nat, mod: int)
    requires mod > 0
    ensures e > 0 ==> Stands(1, JsRem(JsRem(base, mod) + mod, mod), e, mod, Pow(base, e) % mod)
  {
    var b := JsRem(JsRem(base, mod) + mod, mod);
    NormalisedBase(base, mod);
    Reduced(base, mod);
    PowCongruent(b, base, e, mod);
  }

  lemma Arrives(result: int, b: int, mod: int, target: int)
    requires mod > 0 && Stands(result, b, 0, mod, target)
    ensures result == target
  {
    assert result * Pow(b, 0) == result;
    QuotientUnique(result, mod, 0, result);
  }

  /** The loop invariant: result * b^e is the target modulo mod, and all is reduced. */
  predicate Stands(result: int, b: int, e: nat, mod: int, target: int)
    requires mod > 0
  {
    0 <= b < mod && 0 <= result && (result < mod || (result == 1 && e > 0)) && (result * Pow(b, e)) % mod == target
  }

  lemma NormalisedBase(base: int, mod: int)
    requires mod > 0
    ensures JsRem(JsRem(base, mod) + mod, mod) == base % mod
  {
    var r := JsRem(base, mod);
    if r == base % mod {
      QuotientUnique(r + mod, mod, 1, r);
    } else {
      QuotientUnique(r + mod, mod, 0, base % mod);
    }
  }

  /** One round keeps result * b^e modulo mod. */
  lemma SquareStep(result: int, b: int, e: nat, mod: int, target: int)
    requires mod > 0 && e > 0 && Stands(result, b, e, mod, target)
    ensures Stands(if e % 2 == 1 then JsRem(result * b, mod) else result, JsRem(b * b, mod), e / 2, mod, target)
  {
    NonNegativeProduct(b, b);
    NonNegativeProduct(result, b);
    SquaredPower(b, e, mod);
    var rest := Pow((b * b) % mod, e / 2);
    if e % 2 == 1 {
      Reduced(result * b, mod);
      ModMul((result * b) % mod, result * b, rest, Pow(b, e - 1), mod);
      Regroup(result, b, Pow(b, e - 1));
    } else {
      ModMul(result, result, rest, Pow(b, e), mod);
    }
  }

  lemma NonNegativeProduct(x: int, y: int)
    requires 0 <= x && 0 <= y
    ensures 0 <= x * y
  {
  }

  lemma Regroup(x: int, y: int, z: int)
    ensures (x * y) * z == x * (y * z)
  {
  }

  /** Halving the exponent squares the base, up to one odd factor. */
  lemma SquaredPower(b: int, e: nat, mod: int)
    requires mod > 0 && e > 0
    ensures Pow((b * b) % mod, e / 2) % mod == Pow(b, if e % 2 == 1 then e - 1 else e) % mod
  {
    var h := e / 2;
    Reduced(b * b, mod);
    PowCongruent((b * b) % mod, b * b, h, mod);
    PowBase(b, b, h);
    PowAdd(b, h, h);
  }

  lemma Reduced(x: int, mod: int)
    requires mod > 0
    ensures (x % mod) % mod == x % mod
  {
    QuotientUnique(x % mod, mod, 0, x % mod);
  }

  // ---- Groups, hashes, ephemeral keys ----

  datatype Group = Group(modulus: int, generator: nat)

  predicate ValidGroup(grp: Group) {
    grp.modulus > 1
  }

  const TWO_TO_384: int :=
    0x1000000000000000000000000000000000000000000000000000000000000000000000000000000000000000000000000

  /** The 3072-bit group of RFC 5054, appendix A. */
  const N3072: int :=
    ((((((0xFFFFFFFFFFFFFFFFC90FDAA22168C234C4C6628B80DC1CD129024E088A67CC74020BBEA63B139B22514A08798E3404DD
    * TWO_TO_384 + 0xEF9519B3CD3A431B302B0A6DF25F14374FE1356D6D51C245E485B576625E7EC6F44C42E9A637ED6B0BFF5CB6F406B7ED)
    * TWO_TO_384 + 0xEE386BFB5A899FA5AE9F24117C4B1FE649286651ECE45B3DC2007CB8A163BF0598DA48361C55D39A69163FA8FD24CF5F)
    * TWO_TO_384 + 0x83655D23DCA3AD961C62F356208552BB9ED529077096966D670C354E4ABC9804F1746C08CA18217C32905E462E36CE3B)
    * TWO_TO_384 + 0xE39E772C180E86039B2783A2EC07A28FB5C55DF06F4C52C9DE2BCBF6955817183995497CEA956AE515D2261898FA0510)
    * TWO_TO_384 + 0x15728E5A8AAAC42DAD33170D04507A33A85521ABDF1CBA64ECFB850458DBEF0A8AEA71575D060C7DB3970F85A6E1E4C7)
    * TWO_TO_384 + 0xABF5AE8CDB0933D71E8C94E04A25619DCEE3D2261AD2EE6BF12FFA06D98A0864D87602733EC86A64521F2B18177B200C)
    * TWO_TO_384 + 0xBBE117577A615D6C770988C0BAD946E208E24FA074E5AB3143DB5BFCE0FD108E4B82D120A93AD2CAFFFFFFFFFFFFFFFF
  const COGNITO_GROUP := Group(N3072, 2)

  /** text: sha256Hex of a string; bytes: SHA-256 of bytes as a number; hkdf: ikm and salt to key. */
  datatype Hashes<Key> = Hashes(
    text: string -> string, bytes: seq<Byte> -> nat, hkdf: (seq<Byte>, seq<Byte>) -> Key)

  function HexHash<Key>(h: Hashes<Key>, hex: string): nat {
    h.bytes(Hex.Decode(hex))
  }

  function Multiplier<Key>(h: Hashes<Key>, grp: Group): nat
    requires ValidGroup(grp)
  {
    HexHash(h, PadHex(grp.modulus) + PadHex(grp.generator))
  }

  function CalculateU<Key>(h: Hashes<Key>, A: nat, B: nat): nat {
    HexHash(h, PadHex(A) + PadHex(B))
  }

  /** x, from the salt as hex text and the identity hash. */
  function PrivateKey<Key>(h: Hashes<Key>, firstId: string, secondId: string, password: string, saltHex: string): nat {
    HexHash(h, saltHex + h.text(firstId + secondId + ":" + password))
  }

  // ---- What is hashed, in bytes ----

  /**
   * Every hash of the protocol is taken of signed bytes: N before g, A before B, the salt
   * before the inner digest.
   */
  lemma HashedBytes<Key>(h: Hashes<Key>, grp: Group, A: nat, B: nat, firstId: string, secondId: string,
                         password: string, salt: nat)
    requires ValidGroup(grp)
    ensures Multiplier(h, grp) == h.bytes(SignedBytes(grp.modulus) + SignedBytes(grp.generator))
    ensures CalculateU(h, A, B) == h.bytes(SignedBytes(A) + SignedBytes(B))
    ensures PrivateKey(h, firstId, secondId, password, PadHex(salt))
         == h.bytes(SignedBytes(salt) + Hex.Decode(h.text(firstId + secondId + ":" + password)))
  {
    TwoNumbers(grp.modulus, grp.generator);
    TwoNumbers(A, B);
    PadHexIsSignedBytes(salt);
    PadHexKeepsValue(salt);
    Hex.DecodeConcat(PadHex(salt), h.text(firstId + secondId + ":" + password));
  }

  lemma TwoNumbers(m: nat, n: nat)
    ensures Hex.Decode(PadHex(m) + PadHex(n)) == SignedBytes(m) + SignedBytes(n)
  {
    PadHexIsSignedBytes(m);
    PadHexIsSignedBytes(n);
    PadHexKeepsValue(m);
    Hex.DecodeConcat(PadHex(m), PadHex(n));
  }

  /** g^a mod N: RFC 5054 section 2.5.4. */
  function PublicA(grp: Group, a: nat): (A: nat)
    requires ValidGroup(grp)
    ensures A < grp.modulus
  {
    Pow(grp.generator, a) % grp.modulus
  }

  /** Draws exponents until g^a is not 0 modulo N. `good` is any draw that succeeds. */
  method GenerateEphemeralA(grp: Group, random: nat -> nat, ghost good: nat) returns (a: nat, A: nat, draws: nat)
    requires ValidGroup(grp)
    requires PublicA(grp, random(good) % grp.modulus) != 0
    ensures draws <= good && a == random(draws) % grp.modulus
    ensures A == PublicA(grp, a) && A != 0
    ensures forall i :: 0 <= i < draws ==> PublicA(grp, random(i) % grp.modulus) == 0
  {
    var N := grp.modulus;
    draws := 0;
    a := random(0) % N;
    A := EphemeralPower(grp, a);
    ReducedStays(A, N);
    while A % N == 0
      invariant draws <= good && a == random(draws) % N && A == PublicA(grp, a) == A % N
      invariant forall i :: 0 <= i < draws ==> PublicA(grp, random(i) % N) == 0
      decreases good - draws
    {
      draws := draws + 1;
      a := random(draws) % N;
      A := EphemeralPower(grp, a);
      ReducedStays(A, N);
    }
  }

  lemma ReducedStays(x: nat, mod: int)
    requires x < mod
    ensures x % mod == x
  {
    QuotientUnique(x, mod, 0, x);
  }

  method EphemeralPower(grp: Group, a: nat) returns (A: nat)
    requires ValidGroup(grp)
    ensures A == PublicA(grp, a)
  {
    A := ModPow(grp.generator, a, grp.modulus);
  }

  /** In Cognito's group every draw succeeds, so the retry loop never turns. */
  lemma EveryDrawSucceeds(a: nat)
    ensures ValidGroup(COGNITO_GROUP) && Pow(2, a) % N3072 != 0
  {
    OddNeverDividesPowerOfTwo(N3072, a);
  }

  // ---- Enrolment ----

  datatype Verifier = Verifier(devicePassword: string, passwordVerifier: string, salt: string)

  /** A base64 field as the number the server reads from it. */
  function FieldValue(field: string): nat {
    Hex.BytesValue(Base64.Decode(field))
  }

  function HexField(hex: string): string {
    Base64.Encode(Hex.Decode(hex))
  }

  lemma FieldRoundTrip(n: nat)
    ensures FieldValue(HexField(PadHex(n))) == n
    ensures Base64.Decode(HexField(PadHex(n))) != [] && Base64.Decode(HexField(PadHex(n)))[0] < 128
  {
    PadHexKeepsValue(n);
    Base64.RoundTrip(Hex.Decode(PadHex(n)));
    Hex.DecodeValue(PadHex(n));
  }

  /** The server reads exactly g^x mod N and the salt, both as non-negative signed numbers. */
  method GenerateDeviceVerifier<Key>(h: Hashes<Key>, grp: Group, deviceGroupKey: string, deviceKey: string,
                                     devicePassword: string, saltNumber: nat)
    returns (v: Verifier)
    requires ValidGroup(grp)
    ensures v == Enrolled(h, grp, deviceGroupKey, deviceKey, devicePassword, saltNumber)
    ensures FieldValue(v.salt) == saltNumber
    ensures FieldValue(v.passwordVerifier)
         == PublicA(grp, PrivateKey(h, deviceGroupKey, deviceKey, devicePassword, PadHex(saltNumber)))
  {
    var fullHash := h.text(deviceGroupKey + deviceKey + ":" + devicePassword);
    var saltHex := PadHex(saltNumber);
    var x := HexHash(h, saltHex + fullHash);
    var power := EphemeralPower(grp, x);
    var verifierHex := PadHex(power);
    v := Verifier(devicePassword, HexField(verifierHex), HexField(saltHex));
    FieldRoundTrip(power);
    FieldRoundTrip(saltNumber);
  }

  function Enrolled<Key>(h: Hashes<Key>, grp: Group, deviceGroupKey: string, deviceKey: string,
                         devicePassword: string, saltNumber: nat): Verifier
    requires ValidGroup(grp)
  {
    var x := PrivateKey(h, deviceGroupKey, deviceKey, devicePassword, PadHex(saltNumber));
    Verifier(devicePassword, HexField(PadHex(Pow(grp.generator, x) % grp.modulus)), HexField(PadHex(saltNumber)))
  }

  // ---- Login ----

  /** a + u * x, the client's exponent. */
  function Exponent(a: nat, u: nat, x: nat): nat {
    a + u * x
  }

  datatype SrpError = BIsZero | UIsZero

  datatype Secrets<Key> = Secrets(hkdf: Key, sValue: nat, u: nat, x: nat)

  method SrpPasswordSecrets<Key>(h: Hashes<Key>, grp: Group, firstId: string, secondId: string, password: string,
                                 serverB: nat, salt: nat, a: nat, A: nat)
    returns (r: Result<Secrets<Key>, SrpError>)
    requires ValidGroup(grp)
    ensures r == ClientSecrets(h, grp, firstId, secondId, password, serverB, salt, a, A)
    ensures r == Err(BIsZero) <==> serverB % grp.modulus == 0
    ensures r == Err(UIsZero) <==>
      serverB % grp.modulus != 0 && h.bytes(SignedBytes(A) + SignedBytes(serverB)) == 0
    ensures r.Ok? ==>
      var u, x, s := r.value.u, r.value.x, r.value.sValue;
      var k := h.bytes(SignedBytes(grp.modulus) + SignedBytes(grp.generator));
      && u == h.bytes(SignedBytes(A) + SignedBytes(serverB))
      && x == h.bytes(SignedBytes(salt) + Hex.Decode(h.text(firstId + secondId + ":" + password)))
      && s == Pow(serverB - k * (Pow(grp.generator, x) % grp.modulus), a + u * x) % grp.modulus
      && r.value.hkdf == h.hkdf(SignedBytes(s), SignedBytes(u))
  {
    HashedBytes(h, grp, A, serverB, firstId, secondId, password, salt);
    if serverB % grp.modulus == 0 {
      return Err(BIsZero);
    }
    var U := CalculateU(h, A, serverB);
    if U == 0 {
      return Err(UIsZero);
    }
    var passwordHash := h.text(firstId + secondId + ":" + password);
    var x := HexHash(h, PadHex(salt) + passwordHash);
    var gModPowXN := EphemeralPower(grp, x);
    var sValue := SValue(grp.modulus, serverB, Multiplier(h, grp), gModPowXN, Exponent(a, U, x));
    PadHexIsSignedBytes(sValue);
    PadHexIsSignedBytes(U);
    r := Ok(Secrets(h.hkdf(Hex.Decode(PadHex(sValue)), Hex.Decode(PadHex(U))), sValue, U, x));
  }

  method SValue(N: int, serverB: int, k: int, gModPowXN: int, e: nat) returns (s: nat)
    requires N > 1
    ensures s == Premaster(N, serverB, k, gModPowXN, e)
  {
    var base := serverB - k * gModPowXN;
    s := ModPow(base, e, N);
  }

  function ClientSecrets<Key>(h: Hashes<Key>, grp: Group, firstId: string, secondId: string, password: string,
                              serverB: nat, salt: nat, a: nat, A: nat): Result<Secrets<Key>, SrpError>
    requires ValidGroup(grp)
  {
    var N, u := grp.modulus, CalculateU(h, A, serverB);
    if serverB % N == 0 then Err(BIsZero)
    else if u == 0 then Err(UIsZero)
    else
      var x := PrivateKey(h, firstId, secondId, password, PadHex(salt));
      var s := Premaster(N, serverB, Multiplier(h, grp), PublicA(grp, x), Exponent(a, u, x));
      Ok(Secrets(SessionKey(h, s, u), s, u, x))
  }

  function SessionKey<Key>(h: Hashes<Key>, s: nat, u: nat): Key {
    h.hkdf(Hex.Decode(PadHex(s)), Hex.Decode(PadHex(u)))
  }

  /** (B - k * gx)^e mod N, whatever the sign of the base. */
  function Premaster(N: int, B: int, k: int, gx: int, e: nat): nat
    requires N > 1
  {
    Pow(B - k * gx, e) % N
  }

  /** The server's side, RFC 5054 section 2.6: (A * v^u)^b mod N. */
  function ServerSecret(N: int, A: int, v: int, u: nat, b: nat): nat
    requires N > 1
  {
    Pow(A * Pow(v, u), b) % N
  }

  /** k*v + g^b: RFC 5054 section 2.5.3, before reduction. */
  function PublicB(k: int, v: nat, gb: int): int {
    k * v + gb
  }

  /** The client's base is g^b modulo N. */
  lemma ClientSide(N: int, g: int, k: int, x: nat, b: nat, B: int, v: int, e: nat)
    requires N > 1 && v % N == Pow(g, x) % N && B % N == (k * v + Pow(g, b)) % N
    ensures 0 <= b * e && Premaster(N, B, k, Pow(g, x) % N, e) == Pow(g, b * e) % N
  {
    var gx := Pow(g, x) % N;
    Reduced(Pow(g, x), N);
    ModMul(k, k, gx, v, N);
    ModSub(B, k * v + Pow(g, b), k * gx, k * v, N);
    PowCongruent(B - k * gx, Pow(g, b), e, N);
    PowPow(g, b, e);
  }

  /** The server's base is g^(a + u*x) modulo N. */
  lemma ServerSide(N: int, g: int, x: nat, u: nat, a: nat, b: nat, A: int, v: int)
    requires N > 1 && v % N == Pow(g, x) % N && A % N == Pow(g, a) % N
    ensures 0 <= b * Exponent(a, u, x) && ServerSecret(N, A, v, u, b) == Pow(g, b * Exponent(a, u, x)) % N
  {
    var e := Exponent(a, u, x);
    PowPow(g, x, u);
    PowCongruent(v, Pow(g, x), u, N);
    ModMul(A, Pow(g, a), Pow(v, u), Pow(Pow(g, x), u), N);
    PowAdd(g, a, u * x);
    assert x * u == u * x;
    PowCongruent(A * Pow(v, u), Pow(g, e), b, N);
    PowPow(g, e, b);
    assert b * e == e * b;
  }

  /**
   * (B - k * g^x)^(a + u*x) = (A * v^u)^b modulo N, for every modulus above 1 and every
   * exponent; the base on the left may be negative.
   */
  lemma PremasterSecretsAgree(N: int, g: int, k: int, x: nat, u: nat, a: nat, b: nat, A: int, B: int, v: nat)
    requires N > 1 && v == Pow(g, x) % N && A == Pow(g, a) % N && B % N == PublicB(k, v, Pow(g, b)) % N
    ensures Premaster(N, B, k, Pow(g, x) % N, Exponent(a, u, x)) == ServerSecret(N, A, v, u, b)
  {
    Reduced(Pow(g, x), N);
    Reduced(Pow(g, a), N);
    ClientSide(N, g, k, x, b, B, v, Exponent(a, u, x));
    ServerSide(N, g, x, u, a, b, A, v);
  }

  /**
   * A device enrolled with a random salt logs in: whatever hex text the server sends for the
   * salt it stored, x is the enrolment's x, and both sides derive one secret and one key.
   * The client refuses exactly when B is 0 modulo N or u is 0.
   */
  lemma EnrolThenLogin<Key>(h: Hashes<Key>, grp: Group, deviceGroupKey: string, deviceKey: string,
                            devicePassword: string, saltNumber: nat, stored: Verifier, saltText: string,
                            a: nat, A: nat, b: nat, B: nat, v: nat, r: Result<Secrets<Key>, SrpError>)
    requires ValidGroup(grp)
    requires stored == Enrolled(h, grp, deviceGroupKey, deviceKey, devicePassword, saltNumber)
    requires v == FieldValue(stored.passwordVerifier)
    requires Hex.IsHex(saltText) && Hex.Value(saltText) == FieldValue(stored.salt)
    requires A == Pow(grp.generator, a) % grp.modulus
    requires B % grp.modulus == PublicB(Multiplier(h, grp), v, Pow(grp.generator, b)) % grp.modulus
    requires r == ClientSecrets(h, grp, deviceGroupKey, deviceKey, devicePassword, B, Hex.Value(saltText), a, A)
    ensures r.Ok? <==> B % grp.modulus != 0 && CalculateU(h, A, B) != 0
    ensures r.Ok? ==> r.value.x == PrivateKey(h, deviceGroupKey, deviceKey, devicePassword, PadHex(saltNumber))
    ensures r.Ok? ==> r.value.sValue == ServerSecret(grp.modulus, A, v, CalculateU(h, A, B), b)
    ensures r.Ok? ==>
      r.value.hkdf == SessionKey(h, ServerSecret(grp.modulus, A, v, CalculateU(h, A, B), b), CalculateU(h, A, B))
  {
    var N, g := grp.modulus, grp.generator;
    var x := PrivateKey(h, deviceGroupKey, deviceKey, devicePassword, PadHex(saltNumber));
    FieldRoundTrip(saltNumber);
    FieldRoundTrip(Pow(g, x) % N);
    PremasterSecretsAgree(N, g, Multiplier(h, grp), x, CalculateU(h, A, B), a, b, A, B, v);
  }

  /** The value an honest server sends: RFC 5054 section 2.5.3. */
  function ServerB(k: nat, grp: Group, v: nat, b: nat): (B: nat)
    requires ValidGroup(grp)
    ensures B < grp.modulus
  {
    PublicB(k, v, Pow(grp.generator, b)) % grp.modulus
  }

  /**
   * One whole honest exchange, with nothing assumed: enrol, store, send the salt back as
   * padHex writes it and B as above. The server takes k, u and the key from the bytes of the
   * numbers by itself; the client ends up with its secret and its key.
   */
  lemma HonestLogin<Key>(h: Hashes<Key>, grp: Group, deviceGroupKey: string, deviceKey: string,
                         devicePassword: string, saltNumber: nat, a: nat, b: nat)
    requires ValidGroup(grp)
    ensures var stored := Enrolled(h, grp, deviceGroupKey, deviceKey, devicePassword, saltNumber);
            var v, salt := FieldValue(stored.passwordVerifier), FieldValue(stored.salt);
            var k := h.bytes(SignedBytes(grp.modulus) + SignedBytes(grp.generator));
            var A, B := PublicA(grp, a), ServerB(k, grp, v, b);
            var u := h.bytes(SignedBytes(A) + SignedBytes(B));
            var s := ServerSecret(grp.modulus, A, v, u, b);
            var r := ClientSecrets(h, grp, deviceGroupKey, deviceKey, devicePassword, B, salt, a, A);
            && (r.Ok? <==> B != 0 && u != 0)
            && (r.Ok? ==> r.value.sValue == s && r.value.u == u
                          && r.value.hkdf == h.hkdf(SignedBytes(s), SignedBytes(u)))
  {
    var stored := Enrolled(h, grp, deviceGroupKey, deviceKey, devicePassword, saltNumber);
    var v, salt := FieldValue(stored.passwordVerifier), FieldValue(stored.salt);
    var A, B := PublicA(grp, a), ServerB(Multiplier(h, grp), grp, v, b);
    var r := ClientSecrets(h, grp, deviceGroupKey, deviceKey, devicePassword, B, salt, a, A);
    HashedBytes(h, grp, A, B, deviceGroupKey, deviceKey, devicePassword, salt);
    PadHexKeepsValue(salt);
    ReducedStays(B, grp.modulus);
    EnrolThenLogin(
      h, grp, deviceGroupKey, deviceKey, devicePassword, saltNumber, stored, PadHex(salt), a, A, b, B, v, r);
    if r.Ok? {
      PadHexIsSignedBytes(r.value.sValue);
      PadHexIsSignedBytes(r.value.u);
    }
  }
}
