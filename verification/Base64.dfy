/** The base64 encoding of RFC 4648, section 4, and Node's tolerant decoder. */
module Base64 {
  import opened Hex

  type Sextet = n: nat | n < 64

  function Symbol(n: Sextet): char {
    if n < 26 then ('A' as int + n) as char
    else if n < 52 then ('a' as int + (n - 26)) as char
    else if n < 62 then ('0' as int + (n - 52)) as char
    else if n == 62 then '+' else '/'
  }

  predicate IsSymbol(c: char) {
    'A' <= c <= 'Z' || 'a' <= c <= 'z' || '0' <= c <= '9' || c == '+' || c == '/'
  }

  /** The decoder also reads the two symbols of the URL-safe alphabet, section 5 of RFC 4648. */
  predicate IsRead(c: char) {
    IsSymbol(c) || c == '-' || c == '_'
  }

  function SymbolValue(c: char): Sextet
    requires IsRead(c)
  {
    if c == '+' || c == '-' then 62 else if c == '/' || c == '_' then 63
    else if c <= '9' then c as int - '0' as int + 52
    else if c <= 'Z' then c as int - 'A' as int
    else c as int - 'a' as int + 26
  }

  lemma SymbolRoundTrip(n: Sextet)
    ensures IsSymbol(Symbol(n)) && SymbolValue(Symbol(n)) == n
  {
  }

  /** The alphabet of RFC 4648, section 4, in its order. */
  lemma SymbolsInOrder(n: Sextet)
    ensures n < 26 ==> Symbol(n) == "ABCDEFGHIJKLMNOPQRSTUVWXYZ"[n]
    ensures 26 <= n < 52 ==> Symbol(n) == "abcdefghijklmnopqrstuvwxyz"[n - 26]
    ensures 52 <= n ==> Symbol(n) == "0123456789+/"[n - 52]
  {
  }

  /** 24 input bits, most significant first, cut into four groups of six. */
  function Group(x: Byte, y: Byte, z: Byte): (g: seq<Sextet>)
    ensures |g| == 4
    ensures x * 65536 + y * 256 + z == g[0] as int * 262144 + g[1] as int * 4096 + g[2] as int * 64 + g[3]
  {
    [x / 4, x % 4 * 16 + y / 16, y % 16 * 4 + z / 64, z % 64]
  }

  function Encode(b: seq<Byte>): string {
    if |b| == 0 then ""
    else if |b| == 1 then Symbols(Group(b[0], 0, 0)[..2]) + "=="
    else if |b| == 2 then Symbols(Group(b[0], b[1], 0)[..3]) + "="
    else Symbols(Group(b[0], b[1], b[2])) + Encode(b[3..])
  }

  function Symbols(g: seq<Sextet>): (s: string)
    ensures |s| == |g| && forall i :: 0 <= i < |s| ==> s[i] == Symbol(g[i])
  {
    seq(|g|, i requires 0 <= i < |g| => Symbol(g[i]))
  }

  /** Buffer.from(s, "base64"): characters outside both alphabets, padding included, are skipped. */
  function Decode(s: string): seq<Byte> {
    Ungroup(Sextets(s))
  }

  function SextetOf(c: char): seq<Sextet> {
    if IsRead(c) then [SymbolValue(c)] else []
  }

  function Sextets(s: string): seq<Sextet> {
    if s == "" then []
    else SextetOf(s[0]) + Sextets(s[1..])
  }

  function Ungroup(g: seq<Sextet>): seq<Byte> {
    if |g| < 2 then []
    else if |g| == 2 then [First(g[0], g[1])]
    else if |g| == 3 then [First(g[0], g[1]), Second(g[1], g[2])]
    else [First(g[0], g[1]), Second(g[1], g[2]), Third(g[2], g[3])] + Ungroup(g[4..])
  }

  function First(p: Sextet, q: Sextet): Byte {
    p as int * 4 + q as int / 16
  }

  function Second(q: Sextet, r: Sextet): Byte {
    q as int % 16 * 16 + r as int / 4
  }

  function Third(r: Sextet, s: Sextet): Byte {
    r as int % 4 * 64 + s as int
  }

  lemma Associative(a: seq<Sextet>, b: seq<Sextet>, c: seq<Sextet>)
    ensures a + (b + c) == a + b + c
  {
  }

  lemma {:induction false} SextetsConcat(s: string, t: string)
    ensures Sextets(s + t) == Sextets(s) + Sextets(t)
  {
    if s == "" {
      assert s + t == t;
    } else {
      assert (s + t)[1..] == s[1..] + t;
      SextetsConcat(s[1..], t);
      Associative(SextetOf(s[0]), Sextets(s[1..]), Sextets(t));
    }
  }

  lemma {:induction false} SextetsOfSymbols(g: seq<Sextet>)
    ensures Sextets(Symbols(g)) == g
  {
    if g != [] {
      SymbolRoundTrip(g[0]);
      assert Symbols(g)[1..] == Symbols(g[1..]);
      SextetsOfSymbols(g[1..]);
    }
  }

  lemma GroupRoundTrip(x: Byte, y: Byte, z: Byte)
    ensures var g := Group(x, y, z);
            First(g[0], g[1]) == x && Second(g[1], g[2]) == y && Third(g[2], g[3]) == z
  {
  }

  lemma SextetsOfPadding()
    ensures Sextets("=") == [] && Sextets("==") == []
  {
    assert "=="[1..] == "=";
    assert "="[1..] == "";
  }

  lemma {:induction false} RoundTrip(b: seq<Byte>)
    ensures Decode(Encode(b)) == b
  {
    if |b| == 0 {
      assert Sextets("") == [];
    } else if |b| == 1 {
      RoundTripOne(b[0]);
    } else if |b| == 2 {
      RoundTripTwo(b[0], b[1]);
    } else {
      var rest := b[3..];
      RoundTrip(rest);
      RoundTripGroup(b[0], b[1], b[2], Encode(rest));
    }
  }

  lemma RoundTripOne(x: Byte)
    ensures Decode(Symbols(Group(x, 0, 0)[..2]) + "==") == [x]
  {
    var g := Group(x, 0, 0)[..2];
    GroupRoundTrip(x, 0, 0);
    SextetsOfPadding();
    SextetsConcat(Symbols(g), "==");
    SextetsOfSymbols(g);
    assert Sextets(Symbols(g) + "==") == g;
  }

  lemma RoundTripTwo(x: Byte, y: Byte)
    ensures Decode(Symbols(Group(x, y, 0)[..3]) + "=") == [x, y]
  {
    var g := Group(x, y, 0)[..3];
    GroupRoundTrip(x, y, 0);
    SextetsOfPadding();
    SextetsConcat(Symbols(g), "=");
    SextetsOfSymbols(g);
    assert Sextets(Symbols(g) + "=") == g;
  }

  lemma RoundTripGroup(x: Byte, y: Byte, z: Byte, rest: string)
    ensures Decode(Symbols(Group(x, y, z)) + rest) == [x, y, z] + Decode(rest)
  {
    var g := Group(x, y, z);
    GroupRoundTrip(x, y, z);
    SextetsConcat(Symbols(g), rest);
    SextetsOfSymbols(g);
    assert (g + Sextets(rest))[4..] == Sextets(rest);
  }

  /** Every encoded character survives an unescaped trip through a URL query, bar the plus. */
  lemma {:induction false} Alphabet(b: seq<Byte>)
    ensures forall i :: 0 <= i < |Encode(b)| ==> IsSymbol(Encode(b)[i]) || Encode(b)[i] == '='
  {
    forall n: Sextet ensures IsSymbol(Symbol(n)) {
      SymbolRoundTrip(n);
    }
    if |b| >= 3 {
      Alphabet(b[3..]);
    }
  }
}
