/**
 * Hexadecimal text, as BigInt.toString(16), BigInt("0x...") and Node's "hex" Buffer
 * encoding read and write it.
 */
module Hex {
  type Byte = n: nat | n < 256

  function Digit(n: nat): char
    requires n < 16
  {
    if n < 10 then (n + '0' as int) as char else (n - 10 + 'a' as int) as char
  }

  predicate IsDigit(c: char) {
    '0' <= c <= '9' || 'a' <= c <= 'f' || 'A' <= c <= 'F'
  }

  function DigitValue(c: char): (n: nat)
    requires IsDigit(c)
    ensures n < 16
  {
    if c <= '9' then c as int - '0' as int
    else if c <= 'F' then c as int - 'A' as int + 10
    else c as int - 'a' as int + 10
  }

  function Lower(c: char): char {
    if 'A' <= c <= 'F' then (c as int + 32) as char else c
  }

  function LowerAll(s: string): (r: string)
    ensures |r| == |s|
  {
    seq(|s|, i requires 0 <= i < |s| => Lower(s[i]))
  }

  predicate IsHex(s: string) {
    forall i :: 0 <= i < |s| ==> IsDigit(s[i])
  }

  /** Hex digits with no capital letter: what toString produces. */
  predicate IsLowerHex(s: string) {
    IsHex(s) && LowerAll(s) == s
  }

  /** BigInt("0x" + s); the empty string reads as 0 here. */
  function Value(s: string): nat
    requires IsHex(s)
  {
    if s == "" then 0 else Value(s[..|s| - 1]) * 16 + DigitValue(s[|s| - 1])
  }

  /** BigInt.prototype.toString(16). */
  function ToString(n: nat): (s: string)
    ensures s != ""
  {
    if n < 16 then [Digit(n)] else ToString(n / 16) + [Digit(n % 16)]
  }

  lemma DigitRoundTrip(n: nat)
    requires n < 16
    ensures IsDigit(Digit(n)) && DigitValue(Digit(n)) == n && Lower(Digit(n)) == Digit(n)
  {
  }

  lemma LowerDigitDetermined(c: char)
    requires IsDigit(c)
    ensures Digit(DigitValue(c)) == Lower(c)
  {
  }

  lemma {:induction false} ToStringValue(n: nat)
    ensures IsLowerHex(ToString(n)) && Value(ToString(n)) == n
    ensures n > 0 ==> ToString(n)[0] != '0'
  {
    NoLeadingZero(n);
    LowerNumeral(n);
  }

  lemma {:induction false} LowerNumeral(n: nat)
    ensures IsLowerHex(ToString(n)) && Value(ToString(n)) == n
  {
    if n < 16 {
      OneDigit(n);
    } else {
      var s := ToString(n / 16);
      LowerNumeral(n / 16);
      AppendDigit(s, n % 16);
      assert ToString(n) == s + [Digit(n % 16)];
    }
  }

  lemma OneDigit(d: nat)
    requires d < 16
    ensures IsLowerHex([Digit(d)]) && Value([Digit(d)]) == d
  {
    DigitRoundTrip(d);
    assert [Digit(d)][..0] == "";
  }

  lemma {:induction false} NoLeadingZero(n: nat)
    ensures n > 0 ==> ToString(n)[0] != '0'
  {
    if n >= 16 {
      NoLeadingZero(n / 16);
    }
  }

  lemma AppendDigit(s: string, d: nat)
    requires IsLowerHex(s) && d < 16
    ensures IsLowerHex(s + [Digit(d)]) && Value(s + [Digit(d)]) == Value(s) * 16 + d
  {
    DigitRoundTrip(d);
    var t := s + [Digit(d)];
    assert t[..|t| - 1] == s;
    assert forall i :: 0 <= i < |s| ==> LowerAll(s)[i] == Lower(s[i]);
    assert LowerAll(t) == LowerAll(s) + [Lower(Digit(d))];
  }

  /** A longer numeral of the same value only adds zeros in front. */
  lemma {:induction false} LeadingZeros(k: nat, s: string)
    requires IsHex(s)
    ensures IsHex(Zeros(k) + s) && Value(Zeros(k) + s) == Value(s)
  {
    if s == "" {
      assert Zeros(k) + s == Zeros(k);
      ZerosValue(k);
    } else {
      var t := Zeros(k) + s;
      assert t[..|t| - 1] == Zeros(k) + s[..|s| - 1];
      LeadingZeros(k, s[..|s| - 1]);
    }
  }

  function Zeros(k: nat): (s: string)
    ensures |s| == k
  {
    seq(k, _ => '0')
  }

  lemma {:induction false} ZerosValue(k: nat)
    ensures IsHex(Zeros(k)) && Value(Zeros(k)) == 0
  {
    if k > 0 {
      assert Zeros(k)[..k - 1] == Zeros(k - 1);
      ZerosValue(k - 1);
    }
  }

  /** Numerals of one length and value differ in letter case only. */
  lemma {:induction false} SameValueSameDigits(s: string, t: string)
    requires IsHex(s) && IsHex(t) && |s| == |t| && Value(s) == Value(t)
    ensures LowerAll(s) == LowerAll(t)
  {
    if s != "" {
      var n := |s| - 1;
      SameValueSameDigits(s[..n], t[..n]);
      LowerDigitDetermined(s[n]);
      LowerDigitDetermined(t[n]);
      assert LowerAll(s) == LowerAll(s[..n]) + [Lower(s[n])];
      assert LowerAll(t) == LowerAll(t[..n]) + [Lower(t[n])];
    }
  }

  /** toString gives the shortest numeral. */
  lemma ShortestNumeral(s: string)
    requires IsHex(s) && s != ""
    ensures |ToString(Value(s))| <= |s|
  {
    ToStringValue(Value(s));
    NoShorterNumeral(s, ToString(Value(s)));
  }

  lemma NoShorterNumeral(s: string, t: string)
    requires IsHex(s) && s != "" && IsLowerHex(t) && t != "" && Value(s) == Value(t)
    requires t[0] == '0' ==> |t| == 1
    ensures |t| <= |s|
  {
    if |t| > |s| {
      var k := |t| - |s|;
      LeadingZeros(k, s);
      assert LowerAll(Zeros(k) + s)[0] == Lower('0');
      SameValueSameDigits(Zeros(k) + s, t);
    }
  }

  /** Any numeral is the shortest one of its value with zeros in front, up to case. */
  lemma AnyNumeralIsPadded(s: string)
    requires IsHex(s) && s != ""
    ensures |ToString(Value(s))| <= |s|
    ensures LowerAll(s) == Zeros(|s| - |ToString(Value(s))|) + ToString(Value(s))
  {
    ShortestNumeral(s);
    ToStringValue(Value(s));
    PaddedNumeral(s, ToString(Value(s)));
  }

  lemma PaddedNumeral(s: string, t: string)
    requires IsHex(s) && IsLowerHex(t) && |t| <= |s| && Value(s) == Value(t)
    ensures LowerAll(s) == Zeros(|s| - |t|) + t
  {
    LeadingZeros(|s| - |t|, t);
    SameValueSameDigits(s, Zeros(|s| - |t|) + t);
    LowerPadded(|s| - |t|, t);
  }

  lemma LowerPadded(k: nat, t: string)
    requires LowerAll(t) == t
    ensures LowerAll(Zeros(k) + t) == Zeros(k) + t
  {
    forall i | k <= i < k + |t| ensures Lower((Zeros(k) + t)[i]) == t[i - k] {
      assert LowerAll(t)[i - k] == t[i - k];
    }
  }

  // ---- Bytes ----

  /** Buffer.from(s, "hex"): whole digit pairs up to the first character that is not hex. */
  function Decode(s: string): seq<Byte> {
    if |s| < 2 || !IsDigit(s[0]) || !IsDigit(s[1]) then []
    else [DigitValue(s[0]) * 16 + DigitValue(s[1])] + Decode(s[2..])
  }

  /** buffer.toString("hex"). */
  function Encode(b: seq<Byte>): string {
    if b == [] then "" else [Digit(b[0] / 16), Digit(b[0] % 16)] + Encode(b[1..])
  }

  lemma {:induction false} DecodeConcat(s: string, t: string)
    requires IsHex(s) && |s| % 2 == 0
    ensures Decode(s + t) == Decode(s) + Decode(t)
    ensures |Decode(s)| == |s| / 2
  {
    if s == "" {
      assert s + t == t;
    } else {
      assert (s + t)[2..] == s[2..] + t;
      DecodeConcat(s[2..], t);
    }
  }

  lemma {:induction false} EncodeDecode(b: seq<Byte>)
    ensures IsLowerHex(Encode(b)) && |Encode(b)| == 2 * |b| && Decode(Encode(b)) == b
  {
    if b != [] {
      EncodeDecode(b[1..]);
      DigitPair(b[0], Encode(b[1..]));
    }
  }

  lemma DigitPair(x: Byte, s: string)
    requires IsLowerHex(s)
    ensures var t := [Digit(x / 16), Digit(x % 16)] + s;
            IsLowerHex(t) && Decode(t) == [x] + Decode(s)
  {
    var h, l := Digit(x / 16), Digit(x % 16);
    DigitRoundTrip(x / 16);
    DigitRoundTrip(x % 16);
    PrependDigit(l, s);
    PrependDigit(h, [l] + s);
    assert [h, l] + s == [h] + ([l] + s);
    assert ([h, l] + s)[2..] == s;
  }

  lemma PrependDigit(c: char, s: string)
    requires IsDigit(c) && Lower(c) == c && IsLowerHex(s)
    ensures IsLowerHex([c] + s)
  {
    assert LowerAll([c] + s) == [Lower(c)] + LowerAll(s);
  }

  lemma {:induction false} DecodeEncode(s: string)
    requires IsHex(s) && |s| % 2 == 0
    ensures Encode(Decode(s)) == LowerAll(s)
  {
    if s != "" {
      DecodeEncode(s[2..]);
      LowerDigitDetermined(s[0]);
      LowerDigitDetermined(s[1]);
      assert LowerAll(s) == [Lower(s[0]), Lower(s[1])] + LowerAll(s[2..]);
      var d := Decode(s);
      assert d[0] / 16 == DigitValue(s[0]) && d[0] % 16 == DigitValue(s[1]);
      assert d[1..] == Decode(s[2..]);
    }
  }

  /** Letter case never changes the decoded bytes. */
  lemma {:induction false} DecodeIgnoresCase(s: string)
    ensures Decode(LowerAll(s)) == Decode(s)
  {
    if |s| >= 2 {
      assert LowerAll(s)[2..] == LowerAll(s[2..]);
      DecodeIgnoresCase(s[2..]);
    }
  }

  /** A big-endian byte string read as an unsigned number. */
  function BytesValue(b: seq<Byte>): nat {
    if b == [] then 0 else BytesValue(b[..|b| - 1]) * 256 + b[|b| - 1]
  }

  lemma {:induction false} DecodeValue(s: string)
    requires IsHex(s) && |s| % 2 == 0
    ensures BytesValue(Decode(s)) == Value(s)
  {
    if s != "" {
      var n := |s| - 2;
      var front, last := s[..n], s[n..];
      assert s == front + last;
      DecodeValue(front);
      DecodeConcat(front, last);
      assert last[2..] == "";
      assert Decode(last) == [DigitValue(s[n]) * 16 + DigitValue(s[n + 1])];
      assert Decode(s)[..|Decode(s)| - 1] == Decode(front);
      assert s[..n + 1][..n] == front;
    }
  }
}
