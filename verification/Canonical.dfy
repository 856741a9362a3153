/**
 * canonicalize (packages/core/src/config.js:993-1000): JSON text with sorted object keys.
 *
 * Texts are sequences of UTF-16 code units, so lone surrogates are included. A finite number
 * is identified by its JavaScript rendering.
 */
module Canonical {
  type Unit = n: nat | n < 0x10000
  type Text = seq<Unit>

  const QUOTE: Unit := 34
  const BACKSLASH: Unit := 92
  const COMMA: Unit := 44
  const COLON: Unit := 58
  const OPEN_BRACKET: Unit := 91
  const CLOSE_BRACKET: Unit := 93
  const OPEN_BRACE: Unit := 123
  const CLOSE_BRACE: Unit := 125

  /** Digits, sign, point and exponent. */
  predicate IsNumeric(u: Unit) {
    48 <= u <= 57 || u == 43 || u == 45 || u == 46 || u == 101
  }

  type Numeral = t: Text | t != [] && forall i :: 0 <= i < |t| ==> IsNumeric(t[i]) witness [48]

  /** NonFinite is what JSON.parse makes of an overflowing literal such as 1e999. */
  datatype Json =
    | Null
    | Bool(b: bool)
    | NonFinite
    | Num(text: Numeral)
    | Str(s: Text)
    | Arr(items: seq<Json>)
    | Obj(fields: seq<Field>)

  datatype Field = Field(key: Text, value: Json)

  /** Object keys are distinct, at every depth. */
  predicate Valid(j: Json) {
    match j
    case Arr(items) => forall i :: 0 <= i < |items| ==> Valid(items[i])
    case Obj(fields) =>
      && (forall i :: 0 <= i < |fields| ==> Valid(fields[i].value))
      && DistinctKeys(fields)
    case _ => true
  }

  predicate DistinctKeys(fields: seq<Field>) {
    forall i, k :: 0 <= i < k < |fields| ==> fields[i].key != fields[k].key
  }

  /** Equal up to the order of object keys; non-finite numbers stand for null. */
  predicate Same(a: Json, b: Json) {
    match (a, b)
    case (Bool(x), Bool(y)) => x == y
    case (Num(x), Num(y)) => x == y
    case (Str(x), Str(y)) => x == y
    case (Arr(x), Arr(y)) => |x| == |y| && forall i :: 0 <= i < |x| ==> Same(x[i], y[i])
    case (Obj(f), Obj(g)) =>
      (forall i :: 0 <= i < |f| ==> FieldIn(f[i], g)) && (forall k :: 0 <= k < |g| ==> FieldOf(f, g[k]))
    case _ => (a.Null? || a.NonFinite?) && (b.Null? || b.NonFinite?)
  }

  predicate FieldIn(u: Field, g: seq<Field>) {
    exists k :: 0 <= k < |g| && u.key == g[k].key && Same(u.value, g[k].value)
  }

  predicate FieldOf(f: seq<Field>, v: Field) {
    exists i :: 0 <= i < |f| && f[i].key == v.key && Same(f[i].value, v.value)
  }

  // ---- JSON.stringify of a string ----

  predicate IsHigh(u: Unit) {
    0xD800 <= u < 0xDC00
  }

  predicate IsLow(u: Unit) {
    0xDC00 <= u < 0xE000
  }

  function HexUnit(n: nat): Unit
    requires n < 16
  {
    if n < 10 then 48 + n else 87 + n
  }

  function HexUnitValue(u: Unit): nat {
    if u < 87 then (if u < 48 then 0 else u - 48) else u - 87
  }

  /** \uXXXX */
  function UnicodeEscape(u: Unit): Text {
    [BACKSLASH, 117, HexUnit(u / 4096), HexUnit(u / 256 % 16), HexUnit(u / 16 % 16), HexUnit(u % 16)]
  }

  /** How many units the next step consumes: two for a surrogate pair. */
  function Width(x: Text): (n: nat)
    requires x != []
    ensures 1 <= n <= |x|
  {
    if IsHigh(x[0]) && |x| > 1 && IsLow(x[1]) then 2 else 1
  }

  function EscapeStep(x: Text): (t: Text)
    requires x != []
    ensures t != []
  {
    var u := x[0];
    if u == QUOTE then [BACKSLASH, QUOTE]
    else if u == BACKSLASH then [BACKSLASH, BACKSLASH]
    else if u == 8 then [BACKSLASH, 98]
    else if u == 9 then [BACKSLASH, 116]
    else if u == 10 then [BACKSLASH, 110]
    else if u == 12 then [BACKSLASH, 102]
    else if u == 13 then [BACKSLASH, 114]
    else if u < 32 then UnicodeEscape(u)
    else if Width(x) == 2 then x[..2]
    else if IsHigh(u) || IsLow(u) then UnicodeEscape(u)
    else [u]
  }

  function Escape(x: Text): Text {
    if x == [] then [] else EscapeStep(x) + Escape(x[Width(x)..])
  }

  function Quote(x: Text): Text {
    [QUOTE] + Escape(x) + [QUOTE]
  }

  // ---- canonicalize ----

  predicate Less(x: Text, y: Text) {
    y != [] && (x == [] || x[0] < y[0] || (x[0] == y[0] && Less(x[1..], y[1..])))
  }

  function Insert(k: Text, ks: seq<Text>): seq<Text> {
    if ks == [] || Less(k, ks[0]) then [k] + ks else [ks[0]] + Insert(k, ks[1..])
  }

  function Sort(ks: seq<Text>): seq<Text> {
    if ks == [] then [] else Insert(ks[0], Sort(ks[1..]))
  }

  function Keys(fields: seq<Field>): (ks: seq<Text>)
    ensures |ks| == |fields| && forall i :: 0 <= i < |ks| ==> ks[i] == fields[i].key
  {
    seq(|fields|, i requires 0 <= i < |fields| => fields[i].key)
  }

  function Canonicalize(j: Json): Text
    decreases j, 1
  {
    match j
    case Null => [110, 117, 108, 108]
    case NonFinite => [110, 117, 108, 108]
    case Bool(b) => if b then [116, 114, 117, 101] else [102, 97, 108, 115, 101]
    case Num(text) => text
    case Str(s) => Quote(s)
    case Arr(items) => [OPEN_BRACKET] + Join(CanonItems(items)) + [CLOSE_BRACKET]
    case Obj(fields) => [OPEN_BRACE] + JoinFields(Sort(Keys(fields)), Rendered(fields)) + [CLOSE_BRACE]
  }

  function CanonItems(items: seq<Json>): (r: seq<Text>)
    ensures |r| == |items|
    decreases items, 0
  {
    if items == [] then [] else [Canonicalize(items[0])] + CanonItems(items[1..])
  }

  /** Each key with the text of its value. */
  function Rendered(fields: seq<Field>): map<Text, Text>
    decreases fields, 0
  {
    if fields == [] then map[] else Rendered(fields[1..])[fields[0].key := Canonicalize(fields[0].value)]
  }

  /** join(",") */
  function Join(parts: seq<Text>): Text {
    if |parts| == 0 then [] else if |parts| == 1 then parts[0] else parts[0] + [COMMA] + Join(parts[1..])
  }

  function JoinFields(ks: seq<Text>, values: map<Text, Text>): Text {
    if |ks| == 0 then []
    else if |ks| == 1 then FieldText(ks[0], values)
    else FieldText(ks[0], values) + [COMMA] + JoinFields(ks[1..], values)
  }

  function FieldText(k: Text, values: map<Text, Text>): Text {
    Quote(k) + [COLON] + (if k in values then values[k] else [])
  }

  lemma {:induction false} RenderedAt(fields: seq<Field>, i: nat)
    requires i < |fields| && DistinctKeys(fields)
    ensures fields[i].key in Rendered(fields) && Rendered(fields)[fields[i].key] == Canonicalize(fields[i].value)
  {
    if i > 0 {
      RenderedAt(fields[1..], i - 1);
    }
  }

  lemma {:induction false} RenderedKeys(fields: seq<Field>, k: Text)
    requires k in Rendered(fields)
    ensures exists i :: 0 <= i < |fields| && fields[i].key == k
  {
    if fields[0].key != k {
      RenderedKeys(fields[1..], k);
      var i :| 0 <= i < |fields[1..]| && fields[1..][i].key == k;
      assert fields[i + 1].key == k;
    }
  }

  // ---- Order and sorting ----

  lemma {:induction false} LessIrreflexive(x: Text)
    ensures !Less(x, x)
  {
    if x != [] {
      LessIrreflexive(x[1..]);
    }
  }

  lemma {:induction false} LessTrichotomy(x: Text, y: Text)
    ensures Less(x, y) || x == y || Less(y, x)
    ensures !(Less(x, y) && Less(y, x))
  {
    if x != [] && y != [] && x[0] == y[0] {
      LessTrichotomy(x[1..], y[1..]);
      assert x == [x[0]] + x[1..] && y == [y[0]] + y[1..];
    }
  }

  lemma {:induction false} LessTransitive(x: Text, y: Text, z: Text)
    requires Less(x, y) && Less(y, z)
    ensures Less(x, z)
  {
    if x != [] && x[0] == y[0] && y[0] == z[0] {
      LessTransitive(x[1..], y[1..], z[1..]);
    }
  }

  predicate Sorted(ks: seq<Text>) {
    forall i, k :: 0 <= i < k < |ks| ==> Less(ks[i], ks[k])
  }

  lemma {:induction false} InsertMembers(k: Text, ks: seq<Text>, x: Text)
    ensures x in Insert(k, ks) <==> x == k || x in ks
  {
    if ks != [] && !Less(k, ks[0]) {
      InsertMembers(k, ks[1..], x);
      assert x in ks <==> x == ks[0] || x in ks[1..];
    }
  }

  lemma {:induction false} SortMembers(ks: seq<Text>, x: Text)
    ensures x in Sort(ks) <==> x in ks
  {
    if ks != [] {
      SortMembers(ks[1..], x);
      InsertMembers(ks[0], Sort(ks[1..]), x);
      assert x in ks <==> x == ks[0] || x in ks[1..];
    }
  }

  lemma {:induction false} InsertSorted(k: Text, ks: seq<Text>)
    requires Sorted(ks) && k !in ks
    ensures Sorted(Insert(k, ks))
  {
    if ks != [] {
      if Less(k, ks[0]) {
        forall i | 1 <= i < |ks| ensures Less(k, ks[i]) {
          LessTransitive(k, ks[0], ks[i]);
        }
      } else {
        LessTrichotomy(k, ks[0]);
        InsertSorted(k, ks[1..]);
        var r := Insert(k, ks[1..]);
        forall i | 0 <= i < |r| ensures Less(ks[0], r[i]) {
          InsertMembers(k, ks[1..], r[i]);
        }
      }
    }
  }

  predicate Distinct(ks: seq<Text>) {
    forall i, k :: 0 <= i < k < |ks| ==> ks[i] != ks[k]
  }

  lemma {:induction false} SortSorts(ks: seq<Text>)
    requires Distinct(ks)
    ensures Sorted(Sort(ks))
  {
    if ks != [] {
      SortSorts(ks[1..]);
      SortMembers(ks[1..], ks[0]);
      InsertSorted(ks[0], Sort(ks[1..]));
    }
  }

  /** Two strictly sorted lists with the same members are one list. */
  lemma {:induction false} SortedUnique(ks: seq<Text>, ls: seq<Text>)
    requires Sorted(ks) && Sorted(ls) && forall x :: x in ks <==> x in ls
    ensures ks == ls
  {
    if ks != [] {
      assert ks[0] in ls;
    }
    if ls != [] {
      assert ls[0] in ks;
      LessTrichotomy(ks[0], ls[0]);
      assert ks[0] == ls[0];
      forall x ensures x in ks[1..] <==> x in ls[1..] {
        TailMember(ks, x);
        TailMember(ls, x);
      }
      SortedUnique(ks[1..], ls[1..]);
      assert ks == [ks[0]] + ks[1..] && ls == [ls[0]] + ls[1..];
    }
  }

  lemma TailMember(ks: seq<Text>, x: Text)
    requires ks != [] && Sorted(ks)
    ensures x in ks[1..] <==> x in ks && x != ks[0]
  {
    LessIrreflexive(ks[0]);
    assert ks == [ks[0]] + ks[1..];
  }

  // ---- Equal values give equal texts ----

  lemma {:induction false} SameGivesEqual(a: Json, b: Json)
    requires Valid(a) && Valid(b) && Same(a, b)
    ensures Canonicalize(a) == Canonicalize(b)
    decreases a, 1
  {
    match (a, b)
    case (Arr(x), Arr(y)) =>
      SameItemsSameText(x, y);
    case (Obj(f), Obj(g)) =>
      SameFieldsMatch(f, g);
      SameFieldsSameText(f, g);
    case _ =>
  }

  lemma {:induction false} SameItemsSameText(x: seq<Json>, y: seq<Json>)
    requires |x| == |y| && forall i :: 0 <= i < |x| ==> Valid(x[i]) && Valid(y[i]) && Same(x[i], y[i])
    ensures CanonItems(x) == CanonItems(y)
    decreases x, 0
  {
    if x != [] {
      SameGivesEqual(x[0], y[0]);
      SameItemsSameText(x[1..], y[1..]);
    }
  }

  lemma {:induction false} SameFieldsMatch(f: seq<Field>, g: seq<Field>)
    requires Valid(Obj(f)) && Valid(Obj(g)) && Same(Obj(f), Obj(g))
    ensures Matched(f, g) && Matched(g, f)
    decreases f, 0
  {
    forall i | 0 <= i < |f| ensures Counterpart(f[i], g) {
      assert FieldIn(f[i], g);
      var k :| 0 <= k < |g| && f[i].key == g[k].key && Same(f[i].value, g[k].value);
      SameGivesEqual(f[i].value, g[k].value);
    }
    forall k | 0 <= k < |g| ensures Counterpart(g[k], f) {
      assert FieldOf(f, g[k]);
      var i :| 0 <= i < |f| && f[i].key == g[k].key && Same(f[i].value, g[k].value);
      SameGivesEqual(f[i].value, g[k].value);
    }
  }

  predicate Counterpart(u: Field, g: seq<Field>) {
    exists k :: 0 <= k < |g| && u.key == g[k].key && Canonicalize(u.value) == Canonicalize(g[k].value)
  }

  /** Every field has a counterpart of the same key and text on the other side. */
  predicate Matched(f: seq<Field>, g: seq<Field>) {
    forall i :: 0 <= i < |f| ==> Counterpart(f[i], g)
  }

  lemma SameFieldsSameText(f: seq<Field>, g: seq<Field>)
    requires DistinctKeys(f) && DistinctKeys(g) && Matched(f, g) && Matched(g, f)
    ensures Rendered(f) == Rendered(g) && Sort(Keys(f)) == Sort(Keys(g))
  {
    MatchedRenders(f, g);
    MatchedRenders(g, f);
    SortSorts(Keys(f));
    SortSorts(Keys(g));
    forall x ensures x in Sort(Keys(f)) <==> x in Sort(Keys(g)) {
      SortMembers(Keys(f), x);
      SortMembers(Keys(g), x);
      MatchedKeys(f, g, x);
      MatchedKeys(g, f, x);
    }
    SortedUnique(Sort(Keys(f)), Sort(Keys(g)));
  }

  lemma MatchedKeys(f: seq<Field>, g: seq<Field>, x: Text)
    requires Matched(f, g)
    ensures x in Keys(f) ==> x in Keys(g)
  {
    if x in Keys(f) {
      var i :| 0 <= i < |f| && Keys(f)[i] == x;
      var k :| 0 <= k < |g| && f[i].key == g[k].key && Canonicalize(f[i].value) == Canonicalize(g[k].value);
      assert Keys(g)[k] == x;
    }
  }

  lemma MatchedRenders(f: seq<Field>, g: seq<Field>)
    requires DistinctKeys(f) && DistinctKeys(g) && Matched(f, g)
    ensures forall x :: x in Rendered(f) ==> x in Rendered(g) && Rendered(f)[x] == Rendered(g)[x]
  {
    forall x | x in Rendered(f) ensures x in Rendered(g) && Rendered(f)[x] == Rendered(g)[x] {
      RenderedKeys(f, x);
      var i :| 0 <= i < |f| && f[i].key == x;
      var k :| 0 <= k < |g| && f[i].key == g[k].key && Canonicalize(f[i].value) == Canonicalize(g[k].value);
      RenderedAt(f, i);
      RenderedAt(g, k);
    }
  }

  // ---- Equal texts come from equal values ----

  /** The escape at the front of a text: the units it stands for, and its length. */
  function UnescapeStep(w: Text): (Text, nat)
    requires w != []
  {
    if w[0] == BACKSLASH then
      if |w| >= 6 && w[1] == 117 then
        ([(HexUnitValue(w[2]) % 16 * 4096 + HexUnitValue(w[3]) % 16 * 256
           + HexUnitValue(w[4]) % 16 * 16 + HexUnitValue(w[5]) % 16) as Unit], 6)
      else if |w| >= 2 then ([Escaped(w[1])], 2)
      else (w, 1)
    else if IsHigh(w[0]) && |w| > 1 then (w[..2], 2)
    else (w[..1], 1)
  }

  function Escaped(u: Unit): Unit {
    if u == 98 then 8 else if u == 116 then 9 else if u == 110 then 10
    else if u == 102 then 12 else if u == 114 then 13 else u
  }

  lemma HexDigits(u: Unit)
    ensures HexUnitValue(HexUnit(u / 4096)) % 16 * 4096 + HexUnitValue(HexUnit(u / 256 % 16)) % 16 * 256
            + HexUnitValue(HexUnit(u / 16 % 16)) % 16 * 16 + HexUnitValue(HexUnit(u % 16)) % 16 == u
  {
    var a, b, c := u / 16, u / 256, u / 4096;
    assert a / 16 == b && b / 16 == c && c < 16;
    HexDigit(c);
    HexDigit(b % 16);
    HexDigit(a % 16);
    HexDigit(u % 16);
    FourDigits(u, a, b, c);
  }

  lemma HexDigit(n: nat)
    requires n < 16
    ensures HexUnitValue(HexUnit(n)) % 16 == n
  {
  }

  lemma FourDigits(u: nat, a: nat, b: nat, c: nat)
    requires a == u / 16 && b == a / 16 && c == b / 16
    ensures c * 4096 + b % 16 * 256 + a % 16 * 16 + u % 16 == u
  {
  }

  lemma UnescapeUnicode(u: Unit, rest: Text)
    ensures UnescapeStep(UnicodeEscape(u) + rest) == ([u], 6)
  {
    HexDigits(u);
  }

  lemma UnescapeEscape(x: Text, rest: Text)
    requires x != []
    ensures UnescapeStep(EscapeStep(x) + rest) == (x[..Width(x)], |EscapeStep(x)|)
    ensures EscapeStep(x)[0] != QUOTE
  {
    var u := x[0];
    if (u < 32 && u !in {8, 9, 10, 12, 13}) || (Width(x) == 1 && (IsHigh(u) || IsLow(u))) {
      UnescapeUnicode(u, rest);
    }
    assert x[..1] == [u];
  }

  /** A quoted string ends where it ends, whatever follows. */
  lemma {:induction false} StringUnambiguous(x: Text, y: Text, s: Text, t: Text)
    requires Escape(x) + [QUOTE] + s == Escape(y) + [QUOTE] + t
    ensures x == y && s == t
  {
    var w := Escape(x) + [QUOTE] + s;
    if x == [] || y == [] {
      EscapeStart(x, s);
      EscapeStart(y, t);
      assert s == w[1..] && t == w[1..];
    } else {
      var p, q := EscapeStep(x), EscapeStep(y);
      var xs, ys := Escape(x[Width(x)..]), Escape(y[Width(y)..]);
      SplitFirst(p, xs, s);
      SplitFirst(q, ys, t);
      StepsAgree(x, y, xs + [QUOTE] + s, ys + [QUOTE] + t);
      StringUnambiguous(x[Width(x)..], y[Width(y)..], s, t);
      assert x == x[..Width(x)] + x[Width(x)..] && y == y[..Width(y)] + y[Width(y)..];
    }
  }

  lemma StepsAgree(x: Text, y: Text, u: Text, v: Text)
    requires x != [] && y != [] && EscapeStep(x) + u == EscapeStep(y) + v
    ensures x[..Width(x)] == y[..Width(y)] && u == v
  {
    UnescapeEscape(x, u);
    UnescapeEscape(y, v);
    SameLengthTexts(EscapeStep(x), EscapeStep(y), u, v);
  }

  lemma SplitFirst(p: Text, xs: Text, s: Text)
    ensures p + xs + [QUOTE] + s == p + (xs + [QUOTE] + s)
  {
  }

  lemma EscapeStart(x: Text, s: Text)
    ensures (Escape(x) + [QUOTE] + s)[0] == QUOTE <==> x == []
    ensures x == [] ==> (Escape(x) + [QUOTE] + s)[1..] == s
  {
    if x != [] {
      UnescapeEscape(x, []);
    }
  }

  lemma Peel(a: Unit, p: Text, c: Unit, s: Text)
    ensures ([a] + p + [c] + s)[1..] == p + [c] + s
  {
  }

  lemma QuoteUnambiguous(x: Text, y: Text, s: Text, t: Text)
    requires Quote(x) + s == Quote(y) + t
    ensures x == y && s == t
  {
    Peel(QUOTE, Escape(x), QUOTE, s);
    Peel(QUOTE, Escape(y), QUOTE, t);
    StringUnambiguous(x, y, s, t);
  }

  /** What may follow a value: nothing, a comma or a closing bracket. */
  predicate Ends(s: Text) {
    s == [] || s[0] == COMMA || s[0] == CLOSE_BRACKET || s[0] == CLOSE_BRACE
  }

  lemma {:induction false} NumeralUnambiguous(x: Numeral, y: Numeral, s: Text, t: Text)
    requires x + s == y + t && Ends(s) && Ends(t)
    ensures x == y && s == t
  {
    NumeralReaches(x, y, s, t);
    NumeralReaches(y, x, t, s);
    assert x == (x + s)[..|x|] && y == (y + t)[..|y|];
    SameLengthTexts(x, y, s, t);
  }

  lemma NumeralReaches(x: Numeral, y: Numeral, s: Text, t: Text)
    requires x + s == y + t && Ends(s)
    ensures |y| <= |x|
  {
    if |x| < |y| {
      UnitAfter(x, y, s, t);
    }
  }

  lemma UnitAfter(x: Text, y: Text, s: Text, t: Text)
    requires x + s == y + t && |x| < |y|
    ensures s != [] && s[0] == y[|x|]
  {
    assert |x + s| == |y + t|;
    assert s[0] == (x + s)[|x|];
  }

  /** The first unit tells the kinds of value apart. */
  lemma StartTellsKind(j: Json)
    ensures Canonicalize(j) != []
    ensures match j
            case Null => Canonicalize(j)[0] == 110
            case NonFinite => Canonicalize(j)[0] == 110
            case Bool(b) => Canonicalize(j)[0] == if b then 116 else 102
            case Num(_) => IsNumeric(Canonicalize(j)[0])
            case Str(_) => Canonicalize(j)[0] == QUOTE
            case Arr(_) => Canonicalize(j)[0] == OPEN_BRACKET
            case Obj(_) => Canonicalize(j)[0] == OPEN_BRACE
  {
  }

  lemma {:induction false} Unambiguous(a: Json, b: Json, s: Text, t: Text)
    requires Valid(a) && Valid(b) && Ends(s) && Ends(t)
    requires Canonicalize(a) + s == Canonicalize(b) + t
    ensures Same(a, b) && s == t
    decreases a, 2, 0
  {
    StartTellsKind(a);
    StartTellsKind(b);
    assert Canonicalize(a)[0] == (Canonicalize(a) + s)[0] == Canonicalize(b)[0];
    match (a, b)
    case (Num(x), Num(y)) =>
      NumeralUnambiguous(x, y, s, t);
    case (Str(x), Str(y)) =>
      QuoteUnambiguous(x, y, s, t);
    case (Arr(x), Arr(y)) =>
      var p, q := Join(CanonItems(x)), Join(CanonItems(y));
      Peel(OPEN_BRACKET, p, CLOSE_BRACKET, s);
      Peel(OPEN_BRACKET, q, CLOSE_BRACKET, t);
      ItemsUnambiguous(x, y, s, t);
    case (Obj(f), Obj(g)) =>
      ObjectUnambiguous(f, g, s, t);
    case _ =>
      SameLengthTexts(Canonicalize(a), Canonicalize(b), s, t);
  }

  lemma SameLengthTexts(p: Text, q: Text, s: Text, t: Text)
    requires p + s == q + t && |p| == |q|
    ensures s == t
  {
    assert (p + s)[|p|..] == s && (q + t)[|q|..] == t;
  }

  lemma {:induction false} ItemsUnambiguous(x: seq<Json>, y: seq<Json>, s: Text, t: Text)
    requires forall i :: 0 <= i < |x| ==> Valid(x[i])
    requires forall i :: 0 <= i < |y| ==> Valid(y[i])
    requires Join(CanonItems(x)) + [CLOSE_BRACKET] + s == Join(CanonItems(y)) + [CLOSE_BRACKET] + t
    ensures |x| == |y| && (forall i :: 0 <= i < |x| ==> Same(x[i], y[i])) && s == t
    decreases x, 0, 0
  {
    var w := Join(CanonItems(x)) + [CLOSE_BRACKET] + s;
    var p, q := AfterFirst(x, s), AfterFirst(y, t);
    ItemsStart(x, s);
    ItemsStart(y, t);
    if x == [] || y == [] {
      assert w[1..] == s && w[1..] == t;
    } else {
      Unambiguous(x[0], y[0], p, q);
      if |x| > 1 && |y| > 1 {
        assert p[1..] == Join(CanonItems(x[1..])) + [CLOSE_BRACKET] + s;
        assert q[1..] == Join(CanonItems(y[1..])) + [CLOSE_BRACKET] + t;
        ItemsUnambiguous(x[1..], y[1..], s, t);
      } else {
        assert |x| == 1 && |y| == 1;
        assert p[1..] == s && q[1..] == t;
      }
    }
  }

  /** What follows the first item of an array. */
  function AfterFirst(x: seq<Json>, s: Text): Text {
    if |x| <= 1 then [CLOSE_BRACKET] + s
    else [COMMA] + (Join(CanonItems(x[1..])) + [CLOSE_BRACKET] + s)
  }

  lemma ItemsStart(x: seq<Json>, s: Text)
    ensures var w := Join(CanonItems(x)) + [CLOSE_BRACKET] + s;
            && (w[0] == CLOSE_BRACKET <==> x == [])
            && (x == [] ==> w[1..] == s)
            && (x != [] ==> w == Canonicalize(x[0]) + AfterFirst(x, s))
  {
    if x != [] {
      StartTellsKind(x[0]);
      JoinedStart(CanonItems(x), s);
    }
  }

  lemma JoinedStart(parts: seq<Text>, s: Text)
    requires parts != []
    ensures Join(parts) + [CLOSE_BRACKET] + s
         == parts[0] + (if |parts| == 1 then [CLOSE_BRACKET] + s
                        else [COMMA] + (Join(parts[1..]) + [CLOSE_BRACKET] + s))
  {
    if |parts| > 1 {
      Regroup(parts[0], [COMMA], Join(parts[1..]), [CLOSE_BRACKET], s);
    }
  }

  lemma Regroup(a: Text, b: Text, c: Text, d: Text, e: Text)
    ensures a + b + c + d + e == a + (b + (c + d + e))
  {
  }

  predicate AgreeAt(f: seq<Field>, g: seq<Field>, k: Text) {
    exists i, j :: 0 <= i < |f| && 0 <= j < |g| && f[i].key == k && g[j].key == k && Same(f[i].value, g[j].value)
  }

  lemma {:induction false} ObjectUnambiguous(f: seq<Field>, g: seq<Field>, s: Text, t: Text)
    requires Valid(Obj(f)) && Valid(Obj(g)) && Ends(s) && Ends(t)
    requires Canonicalize(Obj(f)) + s == Canonicalize(Obj(g)) + t
    ensures Same(Obj(f), Obj(g)) && s == t
    decreases f, 1, 0
  {
    var ks, ls := Sort(Keys(f)), Sort(Keys(g));
    var p, q := JoinFields(ks, Rendered(f)), JoinFields(ls, Rendered(g));
    Peel(OPEN_BRACE, p, CLOSE_BRACE, s);
    Peel(OPEN_BRACE, q, CLOSE_BRACE, t);
    SortOfKeys(f);
    SortOfKeys(g);
    FieldsUnambiguous(f, g, ks, ls, s, t);
    AgreementIsSame(f, g);
  }

  lemma SortOfKeys(f: seq<Field>)
    ensures forall x :: x in Sort(Keys(f)) <==> x in Keys(f)
  {
    forall x ensures x in Sort(Keys(f)) <==> x in Keys(f) {
      SortMembers(Keys(f), x);
    }
  }

  lemma AgreementIsSame(f: seq<Field>, g: seq<Field>)
    requires DistinctKeys(f) && DistinctKeys(g)
    requires forall k :: k in Keys(f) ==> AgreeAt(f, g, k)
    requires forall k :: k in Keys(g) ==> AgreeAt(f, g, k)
    ensures Same(Obj(f), Obj(g))
  {
    forall i | 0 <= i < |f| ensures FieldIn(f[i], g) {
      assert Keys(f)[i] == f[i].key;
      var i', k := AgreeingFields(f, g, f[i].key);
      assert i' == i;
    }
    forall k | 0 <= k < |g| ensures FieldOf(f, g[k]) {
      assert Keys(g)[k] == g[k].key;
      var i, k' := AgreeingFields(f, g, g[k].key);
      assert k' == k;
    }
  }

  lemma AgreeingFields(f: seq<Field>, g: seq<Field>, k: Text) returns (i: nat, j: nat)
    requires AgreeAt(f, g, k)
    ensures i < |f| && j < |g| && f[i].key == k && g[j].key == k && Same(f[i].value, g[j].value)
  {
    i, j :| 0 <= i < |f| && 0 <= j < |g| && f[i].key == k && g[j].key == k && Same(f[i].value, g[j].value);
  }

  /** What follows the key, and the value, of an object's first field. */
  function AfterKey(ks: seq<Text>, values: map<Text, Text>, s: Text): Text
    requires ks != [] && ks[0] in values
  {
    [COLON] + (values[ks[0]] + AfterValue(ks, values, s))
  }

  function AfterValue(ks: seq<Text>, values: map<Text, Text>, s: Text): Text {
    if |ks| <= 1 then [CLOSE_BRACE] + s
    else [COMMA] + (JoinFields(ks[1..], values) + [CLOSE_BRACE] + s)
  }

  lemma FieldsStart(ks: seq<Text>, values: map<Text, Text>, s: Text)
    requires ks != [] ==> ks[0] in values
    ensures var w := JoinFields(ks, values) + [CLOSE_BRACE] + s;
            && (w[0] == CLOSE_BRACE <==> ks == [])
            && (ks == [] ==> w[1..] == s)
            && (ks != [] ==> w == Quote(ks[0]) + AfterKey(ks, values, s))
  {
    if |ks| == 1 {
      RegroupOne(Quote(ks[0]), [COLON], values[ks[0]], [CLOSE_BRACE], s);
    } else if |ks| > 1 {
      RegroupMore(Quote(ks[0]), [COLON], values[ks[0]], [COMMA], JoinFields(ks[1..], values), [CLOSE_BRACE], s);
    }
  }

  lemma RegroupOne(a: Text, b: Text, c: Text, d: Text, e: Text)
    ensures a + b + c + d + e == a + (b + (c + (d + e)))
  {
  }

  lemma RegroupMore(a: Text, b: Text, c: Text, d: Text, e: Text, g: Text, h: Text)
    ensures a + b + c + d + e + g + h == a + (b + (c + (d + (e + g + h))))
  {
    Regroup(a + b + c, d, e, g, h);
    RegroupOne(a, b, c, d, e + g + h);
  }

  lemma {:induction false} FieldsUnambiguous(
      f: seq<Field>, g: seq<Field>, ks: seq<Text>, ls: seq<Text>, s: Text, t: Text)
    requires Valid(Obj(f)) && Valid(Obj(g))
    requires (forall k :: k in ks ==> k in Keys(f)) && (forall k :: k in ls ==> k in Keys(g))
    requires JoinFields(ks, Rendered(f)) + [CLOSE_BRACE] + s == JoinFields(ls, Rendered(g)) + [CLOSE_BRACE] + t
    ensures ks == ls && s == t && forall k :: k in ks ==> AgreeAt(f, g, k)
    decreases f, 0, |ks|
  {
    var w := JoinFields(ks, Rendered(f)) + [CLOSE_BRACE] + s;
    if ks != [] {
      var i := KeyIsRendered(f, ks[0]);
    }
    if ls != [] {
      var j := KeyIsRendered(g, ls[0]);
    }
    FieldsStart(ks, Rendered(f), s);
    FieldsStart(ls, Rendered(g), t);
    if ks == [] || ls == [] {
      assert w[1..] == s && w[1..] == t;
    } else {
      QuoteUnambiguous(ks[0], ls[0], AfterKey(ks, Rendered(f), s), AfterKey(ls, Rendered(g), t));
      ValueUnambiguous(f, g, ks, ls, s, t);
      if |ks| > 1 && |ls| > 1 {
        MoreFollow(ks, Rendered(f), s);
        MoreFollow(ls, Rendered(g), t);
        FieldsUnambiguous(f, g, ks[1..], ls[1..], s, t);
        assert ks == [ks[0]] + ks[1..] && ls == [ls[0]] + ls[1..];
      } else {
        LastTogether(ks, Rendered(f), s, ls, Rendered(g), t);
        assert ks == [ks[0]] && ls == [ls[0]];
      }
    }
  }

  lemma MoreFollow(ks: seq<Text>, values: map<Text, Text>, s: Text)
    requires |ks| > 1
    ensures AfterValue(ks, values, s)[1..] == JoinFields(ks[1..], values) + [CLOSE_BRACE] + s
  {
  }

  /** When one object ends with its first field, so does the other. */
  lemma LastTogether(
      ks: seq<Text>, values: map<Text, Text>, s: Text, ls: seq<Text>, others: map<Text, Text>, t: Text)
    requires ks != [] && ls != [] && (|ks| == 1 || |ls| == 1)
    requires AfterValue(ks, values, s) == AfterValue(ls, others, t)
    ensures |ks| == 1 && |ls| == 1 && s == t
  {
    var p, q := AfterValue(ks, values, s), AfterValue(ls, others, t);
    assert p[0] == (if |ks| == 1 then CLOSE_BRACE else COMMA);
    assert q[0] == (if |ls| == 1 then CLOSE_BRACE else COMMA);
    assert p[1..] == s && q[1..] == t;
  }

  lemma KeyIsRendered(f: seq<Field>, k: Text) returns (i: nat)
    requires DistinctKeys(f) && k in Keys(f)
    ensures i < |f| && f[i].key == k && k in Rendered(f) && Rendered(f)[k] == Canonicalize(f[i].value)
  {
    i :| 0 <= i < |f| && Keys(f)[i] == k;
    RenderedAt(f, i);
  }

  lemma {:induction false} ValueUnambiguous(
      f: seq<Field>, g: seq<Field>, ks: seq<Text>, ls: seq<Text>, s: Text, t: Text)
    requires Valid(Obj(f)) && Valid(Obj(g)) && ks != [] && ls != [] && ks[0] == ls[0]
    requires ks[0] in Keys(f) && ls[0] in Keys(g) && ks[0] in Rendered(f) && ls[0] in Rendered(g)
    requires AfterKey(ks, Rendered(f), s) == AfterKey(ls, Rendered(g), t)
    ensures AgreeAt(f, g, ks[0]) && AfterValue(ks, Rendered(f), s) == AfterValue(ls, Rendered(g), t)
    decreases f, 0, 0
  {
    var i := KeyIsRendered(f, ks[0]);
    var j := KeyIsRendered(g, ls[0]);
    var p, q := AfterKey(ks, Rendered(f), s), AfterKey(ls, Rendered(g), t);
    assert p[1..] == Canonicalize(f[i].value) + AfterValue(ks, Rendered(f), s);
    assert q[1..] == Canonicalize(g[j].value) + AfterValue(ls, Rendered(g), t);
    Unambiguous(f[i].value, g[j].value, AfterValue(ks, Rendered(f), s), AfterValue(ls, Rendered(g), t));
  }

  /** Two JSON values have one canonical text exactly when they are equal up to key order. */
  lemma CanonicalExactlyWhenSame(a: Json, b: Json)
    requires Valid(a) && Valid(b)
    ensures Canonicalize(a) == Canonicalize(b) <==> Same(a, b)
  {
    if Canonicalize(a) == Canonicalize(b) {
      assert Canonicalize(a) + [] == Canonicalize(b) + [];
      Unambiguous(a, b, [], []);
    }
    if Same(a, b) {
      SameGivesEqual(a, b);
    }
  }
}
