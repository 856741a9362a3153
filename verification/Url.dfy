/**
 * The text layer of URLs: UTF-8, encodeURIComponent, and the form decoding that
 * URLSearchParams applies to a query string.
 */
module Url {
  import opened Wrappers
  import Hex

  type Byte = Hex.Byte

  // ---- UTF-8 ----

  function Utf8(c: char): (b: seq<Byte>)
    ensures 1 <= |b| <= 4
  {
    var n := c as int;
    if n < 0x80 then [n]
    else if n < 0x800 then [0xC0 + n / 64, Tail(n)]
    else if n < 0x10000 then [0xE0 + n / 4096, Tail(n / 64), Tail(n)]
    else [0xF0 + n / 262144, Tail(n / 4096), Tail(n / 64), Tail(n)]
  }

  function Tail(n: nat): Byte {
    0x80 + n % 64
  }

  function Utf8All(s: string): seq<Byte> {
    if s == "" then [] else Utf8(s[0]) + Utf8All(s[1..])
  }

  /** How many bytes the character starting here takes: 0 when the lead byte is not one. */
  function LeadLength(x: Byte): nat {
    if x < 0x80 then 1
    else if 0xC2 <= x < 0xE0 then 2
    else if 0xE0 <= x < 0xF0 then 3
    else if 0xF0 <= x < 0xF5 then 4
    else 0
  }

  predicate IsTail(x: Byte) {
    0x80 <= x < 0xC0
  }

  /** The code point of the first n bytes. */
  function CodePoint(b: seq<Byte>, n: nat): int
    requires 1 <= n <= 4 && n <= |b|
  {
    if n == 1 then b[0]
    else if n == 2 then b[0] as int % 32 * 64 + b[1] as int % 64
    else if n == 3 then b[0] as int % 16 * 4096 + b[1] as int % 64 * 64 + b[2] as int % 64
    else b[0] as int % 8 * 262144 + b[1] as int % 64 * 4096 + b[2] as int % 64 * 64 + b[3] as int % 64
  }

  predicate IsScalar(n: int) {
    0 <= n < 0xD800 || 0xE000 <= n < 0x110000
  }

  predicate StartsCharacter(b: seq<Byte>)
    requires b != []
  {
    var n := LeadLength(b[0]);
    1 <= n <= |b| && (forall i :: 1 <= i < n ==> IsTail(b[i])) && IsScalar(CodePoint(b, n))
  }

  /** Decodes well-formed UTF-8; a byte that starts no character becomes U+FFFD. */
  function Utf8Decode(b: seq<Byte>): string
    decreases |b|
  {
    if b == [] then ""
    else if StartsCharacter(b) then
      [CodePoint(b, LeadLength(b[0])) as char] + Utf8Decode(b[LeadLength(b[0])..])
    else ['\U{FFFD}'] + Utf8Decode(b[1..])
  }

  lemma TwoBytes(n: nat)
    requires 0x80 <= n < 0x800
    ensures 0xC2 <= 0xC0 + n / 64 < 0xE0 && (0xC0 + n / 64) % 32 * 64 + Tail(n) as int % 64 == n
  {
  }

  lemma ThreeBytes(n: nat)
    requires 0x800 <= n < 0x10000
    ensures 0xE0 <= 0xE0 + n / 4096 < 0xF0
    ensures (0xE0 + n / 4096) % 16 * 4096 + Tail(n / 64) as int % 64 * 64 + Tail(n) as int % 64 == n
  {
    assert n / 64 / 64 == n / 4096;
  }

  lemma FourBytes(n: nat)
    requires 0x10000 <= n < 0x110000
    ensures 0xF0 <= 0xF0 + n / 262144 < 0xF5
    ensures (0xF0 + n / 262144) % 8 * 262144 + Tail(n / 4096) as int % 64 * 4096
            + Tail(n / 64) as int % 64 * 64 + Tail(n) as int % 64 == n
  {
    SixBits(n);
    SixBits(n / 64);
    SixBits(n / 4096);
    Shifts(n);
  }

  lemma SixBits(n: nat)
    ensures n / 64 * 64 + Tail(n) as int % 64 == n
  {
  }

  lemma Shifts(n: nat)
    ensures n / 64 / 64 == n / 4096 && n / 4096 / 64 == n / 262144
  {
  }

  lemma Utf8Character(c: char, rest: seq<Byte>)
    ensures var b := Utf8(c) + rest;
            StartsCharacter(b) && LeadLength(b[0]) == |Utf8(c)| && CodePoint(b, |Utf8(c)|) == c as int
  {
    var n := c as int;
    if n >= 0x10000 {
      FourBytes(n);
    } else if n >= 0x800 {
      ThreeBytes(n);
    } else if n >= 0x80 {
      TwoBytes(n);
    }
  }

  lemma {:induction false} Utf8RoundTrip(s: string)
    ensures Utf8Decode(Utf8All(s)) == s
  {
    if s != "" {
      var b := Utf8(s[0]) + Utf8All(s[1..]);
      Utf8Character(s[0], Utf8All(s[1..]));
      assert b[|Utf8(s[0])|..] == Utf8All(s[1..]);
      Utf8RoundTrip(s[1..]);
    }
  }

  // ---- Percent encoding ----

  predicate IsUnreserved(c: char) {
    'A' <= c <= 'Z' || 'a' <= c <= 'z' || '0' <= c <= '9' || c in "-_.!~*'()"
  }

  function Upper(c: char): char {
    if 'a' <= c <= 'z' then (c as int - 32) as char else c
  }

  function PercentByte(x: Byte): string {
    ['%', Upper(Hex.Digit(x / 16)), Upper(Hex.Digit(x % 16))]
  }

  function PercentBytes(b: seq<Byte>): string {
    if b == [] then "" else PercentByte(b[0]) + PercentBytes(b[1..])
  }

  function EncodeURIComponent(s: string): string {
    if s == "" then ""
    else (if IsUnreserved(s[0]) then [s[0]] else PercentBytes(Utf8(s[0]))) + EncodeURIComponent(s[1..])
  }

  /** application/x-www-form-urlencoded: plus is a blank, %XX a byte, the rest UTF-8. */
  function FormBytes(s: string): seq<Byte> {
    if s == "" then []
    else if s[0] == '+' then [32] + FormBytes(s[1..])
    else if s[0] == '%' && |s| >= 3 && Hex.IsDigit(s[1]) && Hex.IsDigit(s[2]) then
      [Hex.DigitValue(s[1]) * 16 + Hex.DigitValue(s[2])] + FormBytes(s[3..])
    else Utf8(s[0]) + FormBytes(s[1..])
  }

  function FormDecode(s: string): string {
    Utf8Decode(FormBytes(s))
  }

  lemma PercentByteDecodes(x: Byte, rest: string)
    ensures FormBytes(PercentByte(x) + rest) == [x] + FormBytes(rest)
  {
    var s := PercentByte(x) + rest;
    UpperDigit(x / 16);
    UpperDigit(x % 16);
    assert s[3..] == rest;
  }

  lemma UpperDigit(n: nat)
    requires n < 16
    ensures Hex.IsDigit(Upper(Hex.Digit(n))) && Hex.DigitValue(Upper(Hex.Digit(n))) == n
  {
  }

  lemma PercentByteInFront(x: Byte, s: string, t: string)
    ensures FormBytes(PercentByte(x) + s + t) == [x] + FormBytes(s + t)
  {
    assert PercentByte(x) + s + t == PercentByte(x) + (s + t);
    PercentByteDecodes(x, s + t);
  }

  lemma {:induction false} PercentBytesDecode(b: seq<Byte>, rest: string)
    ensures FormBytes(PercentBytes(b) + rest) == b + FormBytes(rest)
  {
    if b == [] {
      assert PercentBytes(b) + rest == rest;
    } else {
      PercentBytesDecode(b[1..], rest);
      PercentByteInFront(b[0], PercentBytes(b[1..]), rest);
      HeadFirst(b, FormBytes(rest));
    }
  }

  lemma HeadFirst(b: seq<Byte>, rest: seq<Byte>)
    requires b != []
    ensures b + rest == [b[0]] + (b[1..] + rest)
  {
  }

  lemma {:induction false} EncodedBytes(s: string)
    ensures FormBytes(EncodeURIComponent(s)) == Utf8All(s)
  {
    if s != "" {
      var rest := EncodeURIComponent(s[1..]);
      EncodedBytes(s[1..]);
      if IsUnreserved(s[0]) {
        assert ([s[0]] + rest)[1..] == rest;
      } else {
        PercentBytesDecode(Utf8(s[0]), rest);
      }
    }
  }

  /** Every text of Unicode scalars comes back from the query string. */
  lemma ComponentRoundTrip(s: string)
    ensures FormDecode(EncodeURIComponent(s)) == s
  {
    EncodedBytes(s);
    Utf8RoundTrip(s);
  }

  lemma {:induction false} ComponentHasNoSeparator(s: string)
    ensures forall i :: 0 <= i < |EncodeURIComponent(s)| ==> EncodeURIComponent(s)[i] != '&'
  {
    if s != "" {
      ComponentHasNoSeparator(s[1..]);
      PercentBytesPlain(Utf8(s[0]));
    }
  }

  lemma {:induction false} PercentBytesPlain(b: seq<Byte>)
    ensures forall i :: 0 <= i < |PercentBytes(b)| ==> PercentBytes(b)[i] != '&'
  {
    if b != [] {
      UpperDigit(b[0] / 16);
      UpperDigit(b[0] % 16);
      PercentBytesPlain(b[1..]);
    }
  }

  /** The characters of section 2.3 of RFC 3986, the five marks of encodeURIComponent, and percent. */
  predicate InComponent(c: char) {
    'A' <= c <= 'Z' || 'a' <= c <= 'z' || '0' <= c <= '9' || c in "-._~" || c in "!*'()" || c == '%'
  }

  /** A component never needs quoting in any part of a URL. */
  lemma {:induction false} ComponentAlphabet(s: string)
    ensures forall i :: 0 <= i < |EncodeURIComponent(s)| ==> InComponent(EncodeURIComponent(s)[i])
  {
    if s != "" {
      ComponentAlphabet(s[1..]);
      PercentAlphabet(Utf8(s[0]));
    }
  }

  lemma {:induction false} PercentAlphabet(b: seq<Byte>)
    ensures forall i :: 0 <= i < |PercentBytes(b)| ==> InComponent(PercentBytes(b)[i])
  {
    if b != [] {
      UpperDigit(b[0] / 16);
      UpperDigit(b[0] % 16);
      PercentAlphabet(b[1..]);
    }
  }

  predicate IsPlain(c: char) {
    c < '\U{80}' && c != '%' && c != '&'
  }

  predicate AllPlain(s: string) {
    forall i :: 0 <= i < |s| ==> IsPlain(s[i])
  }

  function PlusToBlank(s: string): (r: string)
    ensures |r| == |s|
  {
    seq(|s|, i requires 0 <= i < |s| => if s[i] == '+' then ' ' else s[i])
  }

  /** Plain ASCII passes unchanged, except that a plus turns into a blank. */
  lemma {:induction false} PlainDecodes(s: string)
    requires AllPlain(s)
    ensures FormDecode(s) == PlusToBlank(s)
  {
    if s != "" {
      PlainDecodes(s[1..]);
      var c := PlusToBlank(s)[0];
      assert FormBytes(s) == Utf8(c) + FormBytes(s[1..]);
      Utf8Character(c, FormBytes(s[1..]));
      assert (Utf8(c) + FormBytes(s[1..]))[1..] == FormBytes(s[1..]);
      assert PlusToBlank(s) == [c] + PlusToBlank(s[1..]);
    }
  }

  // ---- Query strings ----

  /** indexOf, with the length for "not found". */
  function IndexOf(s: string, c: char): (i: nat)
    ensures i <= |s| && (i < |s| ==> s[i] == c) && forall j :: 0 <= j < i ==> s[j] != c
  {
    if s == "" || s[0] == c then 0 else 1 + IndexOf(s[1..], c)
  }

  lemma FirstOccurrence(s: string, c: char, t: string)
    requires forall j :: 0 <= j < |s| ==> s[j] != c
    ensures IndexOf(s + [c] + t, c) == |s| && IndexOf(s, c) == |s|
  {
    var u := s + [c] + t;
    assert u[|s|] == c;
    assert forall j :: 0 <= j < |s| ==> u[j] == s[j];
  }

  function After(s: string, i: nat): string {
    if i < |s| then s[i + 1..] else ""
  }

  /** new URLSearchParams(query).get(key): the first pair whose decoded name is the key. */
  function Get(query: string, key: string): Option<string>
    decreases |query|
  {
    if query == "" then None else
    var end := IndexOf(query, '&');
    var pair := query[..end];
    var eq := IndexOf(pair, '=');
    if pair != "" && FormDecode(pair[..eq]) == key then Some(FormDecode(After(pair, eq)))
    else Get(After(query, end), key)
  }

  /** A pair's name: plain text without a plus or the separators. */
  predicate IsName(s: string) {
    s != "" && AllPlain(s) && forall i :: 0 <= i < |s| ==> s[i] != '=' && s[i] != '+'
  }

  lemma NameDecodes(s: string)
    requires IsName(s)
    ensures FormDecode(s) == s
  {
    PlainDecodes(s);
  }

  lemma SplitPair(name: string, value: string)
    requires IsName(name)
    ensures var p := name + "=" + value; IndexOf(p, '=') == |name| && p[..|name|] == name && After(p, |name|) == value
  {
    FirstOccurrence(name, '=', value);
  }

  predicate NoSeparator(s: string) {
    forall i :: 0 <= i < |s| ==> s[i] != '&'
  }

  lemma GetFirst(name: string, value: string, rest: string, key: string)
    requires IsName(name) && NoSeparator(value)
    ensures Get(name + "=" + value + "&" + rest, key)
         == if name == key then Some(FormDecode(value)) else Get(rest, key)
  {
    var pair := name + "=" + value;
    var query := pair + "&" + rest;
    FirstOccurrence(pair, '&', rest);
    assert query[..|pair|] == pair;
    SplitPair(name, value);
    NameDecodes(name);
  }

  lemma GetLast(name: string, value: string)
    requires IsName(name) && NoSeparator(value)
    ensures Get(name + "=" + value, name) == Some(FormDecode(value))
  {
    var pair := name + "=" + value;
    FirstOccurrence(pair, '&', "");
    assert pair[..|pair|] == pair;
    SplitPair(name, value);
    NameDecodes(name);
  }
}
