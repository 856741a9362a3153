/**
 * Device key sharing URLs (packages/core/src/sharekey.js): hex concatenation, base64,
 * an unescaped query parameter and a percent-encoded name, and the parser of all that.
 */
module ShareKey {
  import opened Wrappers
  import opened Hex
  import Base64
  import Decimal
  import Url

  // ---- Device models ----

  /** By product type; an unused number has no name. */
  const MODEL_NAMES: seq<string> := [
    "sesame_2", "wm_2", "ssmbot_1", "bike_1",
    "sesame_4", "sesame_5", "bike_2", "sesame_5_pro",
    "open_sensor_1", "ssm_touch_pro", "ssm_touch", "BLE_Connector_1",
    "", "hub_3", "remote", "remote_nano",
    "sesame_5_us", "bot_2", "sesame_face_Pro", "sesame_face",
    "sesame_6", "sesame_6_pro", "sesame_face_pro_ai", "sesame_face_ai",
    "open_sensor_2", "ssm_touch_2", "ssm_touch_2_pro", "sesame_face_2",
    "ssm_face_2_pro", "sesame_miwa", "sesame_face_2_ai", "sesame_face_2_pro_ai",
    "sesame_6_pro_slidingdoor", "bike_3", "", "bot_3",
    "hub_3_lte"
  ]

  function ModelName(productType: nat): Option<string> {
    NameAt(MODEL_NAMES, productType)
  }

  function NameAt(names: seq<string>, i: nat): Option<string> {
    if i < |names| && names[i] != "" then Some(names[i]) else None
  }

  /** The inverted table: the product type below `limit` that carries the name. */
  function ProductTypeBelow(names: seq<string>, model: string, limit: nat): (r: Option<nat>)
    ensures r.Some? ==> r.value < limit && NameAt(names, r.value) == Some(model)
    ensures r.None? ==> forall p: nat :: p < limit ==> NameAt(names, p) != Some(model)
  {
    if limit == 0 then None
    else if NameAt(names, limit - 1) == Some(model) then Some(limit - 1)
    else ProductTypeBelow(names, model, limit - 1)
  }

  function ProductTypeFromModelName(model: string): Option<nat> {
    ProductTypeBelow(MODEL_NAMES, model, |MODEL_NAMES|)
  }

  lemma ProductTypeIsByte(model: string)
    ensures var r := ProductTypeFromModelName(model);
            r.Some? ==> r.value < 256 && ModelName(r.value) == Some(model)
  {
    assert |MODEL_NAMES| == 37;
  }

  predicate IsSesameOs3(productType: nat) {
    productType >= 5
  }

  // ---- Building ----

  /** A device record; an empty text stands for a missing field, as `!v` treats both alike. */
  datatype DeviceKey = DeviceKey(
    deviceModel: string, secretKey: string, sesame2PublicKey: string, keyIndex: string,
    deviceUUID: string, deviceName: Option<string>)

  datatype Options = Options(keyLevel: Option<nat>, guestKeyId: string, name: string)

  datatype ShareError = UnknownDeviceModel | FieldRequired(field: string) | UrlRequired | SkNotFound

  function OrElse(s: string, t: string): string {
    if s != "" then s else t
  }

  function RemoveDashes(s: string): string {
    if s == "" then "" else (if s[0] == '-' then "" else [s[0]]) + RemoveDashes(s[1..])
  }

  /** deviceModel byte, secret key (or guest key id), public key, key index, UUID: all hex. */
  function KeyData(productType: nat, secretKey: string, k: DeviceKey): string
    requires productType < 256
  {
    TwoDigits(productType) + secretKey + k.sesame2PublicKey + k.keyIndex + RemoveDashes(k.deviceUUID)
  }

  /** toString(16).padStart(2, "0") */
  function TwoDigits(n: nat): string
    requires n < 256
  {
    [Digit(n / 16), Digit(n % 16)]
  }

  function DisplayName(k: DeviceKey, opts: Options): string {
    if opts.name != "" then opts.name
    else match k.deviceName case Some(n) => n case None => "undefined"
  }

  function LevelText(level: Option<nat>): string {
    match level case Some(n) => Decimal.Print(n) case None => "undefined"
  }

  function BuildShareKeyUrl(k: DeviceKey, opts: Options): Result<string, ShareError> {
    match ProductTypeFromModelName(k.deviceModel)
    case None => Err(UnknownDeviceModel)
    case Some(productType) =>
      ProductTypeIsByte(k.deviceModel);
      var secretKey := OrElse(opts.guestKeyId, k.secretKey);
      if secretKey == "" then Err(FieldRequired("secretKey"))
      else if k.sesame2PublicKey == "" then Err(FieldRequired("sesame2PublicKey"))
      else if k.keyIndex == "" then Err(FieldRequired("keyIndex"))
      else if k.deviceUUID == "" then Err(FieldRequired("deviceUUID"))
      else
        var littleKey := Base64.Encode(Decode(KeyData(productType, secretKey, k)));
        Ok("ssm://UI?" + Query(littleKey, LevelText(opts.keyLevel), Url.EncodeURIComponent(DisplayName(k, opts))))
  }

  function Query(sk: string, level: string, name: string): string {
    "t" + "=" + "sk" + "&" + ("sk" + "=" + sk + "&" + ("l" + "=" + level + "&" + ("n" + "=" + name)))
  }

  // ---- Parsing ----

  datatype Parsed = Parsed(
    secretKey: string, keyIndex: string, sesame2PublicKey: string, keyLevel: Option<nat>,
    deviceModel: Option<string>, deviceName: Option<string>, deviceUUID: string)

  /** data.slice(i, j), clamped to the data. */
  function Slice(data: seq<Byte>, i: nat, j: nat): seq<Byte>
    requires i <= j
  {
    data[Clamp(i, |data|)..Clamp(j, |data|)]
  }

  function Clamp(i: nat, n: nat): (r: nat)
    ensures r <= n && r <= i && (i <= n ==> r == i)
  {
    if i <= n then i else n
  }

  /** The 8-4-4-4-12 grouping of the first 32 word characters, in capitals. */
  function FormatUuid(hex: string): string {
    if |hex| < 32 then Capitals(hex)
    else Capitals(hex[..8] + "-" + hex[8..12] + "-" + hex[12..16] + "-" + hex[16..20] + "-" + hex[20..])
  }

  function Capitals(s: string): (r: string)
    ensures |r| == |s|
  {
    seq(|s|, i requires 0 <= i < |s| => Url.Upper(s[i]))
  }

  function BlankToPlus(s: string): string {
    seq(|s|, i requires 0 <= i < |s| => if s[i] == ' ' then '+' else s[i])
  }

  function QueryOf(url: string): string {
    var q := Url.IndexOf(url, '?');
    var query := if q < |url| then url[q + 1..] else url;
    if query != "" && query[0] == '?' then query[1..] else query
  }

  function ParseShareKeyUrl(url: string): Result<Parsed, ShareError> {
    if url == "" then Err(UrlRequired) else
    var query := QueryOf(url);
    match Url.Get(query, "sk")
    case None => Err(SkNotFound)
    case Some(raw) =>
      if raw == "" then Err(SkNotFound) else
      var data := Base64.Decode(BlankToPlus(raw));
      var level := match Url.Get(query, "l") case None => None case Some(l) => Decimal.ParseInt(l);
      Ok(ParseData(data, level, Url.Get(query, "n")))
  }

  function ParseData(data: seq<Byte>, level: Option<nat>, name: Option<string>): Parsed {
    var model := if data == [] then None else ModelName(data[0]);
    if data != [] && IsSesameOs3(data[0]) then
      Parsed(Encode(Slice(data, 1, 17)), Encode(Slice(data, 21, 23)), Encode(Slice(data, 17, 21)), level, model, name,
             FormatUuid(Encode(data[Clamp(23, |data|)..])))
    else
      Parsed(Encode(Slice(data, 1, 17)), Encode(Slice(data, 81, 83)), Encode(Slice(data, 17, 81)), level, model, name,
             FormatUuid(Encode(Slice(data, 83, 99))))
  }

  // ---- Round trip ----

  predicate HexOf(s: string, bytes: nat) {
    IsHex(s) && |s| == 2 * bytes
  }

  function PublicKeyBytes(productType: nat): nat {
    if productType < 5 then 64 else 4
  }

  /**
   * The documented layout: 16-byte key, public key of 4 bytes from product type 5 on and of 64
   * below, 2-byte index, 16-byte UUID.
   */
  predicate WellFormed(productType: nat, k: DeviceKey, opts: Options) {
    && ProductTypeFromModelName(k.deviceModel) == Some(productType)
    && HexOf(OrElse(opts.guestKeyId, k.secretKey), 16)
    && HexOf(k.sesame2PublicKey, PublicKeyBytes(productType))
    && HexOf(k.keyIndex, 2)
    && HexOf(RemoveDashes(k.deviceUUID), 16)
  }

  /** A dashed UUID in the standard grouping, in any case. */
  predicate IsDashedUuid(s: string) {
    && |s| == 36 && s[8] == '-' && s[13] == '-' && s[18] == '-' && s[23] == '-'
    && forall i :: 0 <= i < 36 && i != 8 && i != 13 && i != 18 && i != 23 ==> IsDigit(s[i])
  }

  lemma {:induction false} RemoveDashesConcat(s: string, t: string)
    ensures RemoveDashes(s + t) == RemoveDashes(s) + RemoveDashes(t)
  {
    if s == "" {
      assert s + t == t;
    } else {
      assert (s + t)[1..] == s[1..] + t;
      RemoveDashesConcat(s[1..], t);
    }
  }

  lemma {:induction false} NoDashes(s: string)
    requires IsHex(s)
    ensures RemoveDashes(s) == s
  {
    if s != "" {
      NoDashes(s[1..]);
    }
  }

  lemma {:induction false} RemoveDashesNonEmpty(s: string)
    requires RemoveDashes(s) != ""
    ensures s != ""
  {
  }

  lemma DashedUuidParts(s: string)
    requires IsDashedUuid(s)
    ensures RemoveDashes(s) == s[..8] + s[9..13] + s[14..18] + s[19..23] + s[24..]
  {
    UuidSplits(s);
    DashFive(s[..8], s[9..13], s[14..18], s[19..23], s[24..]);
  }

  lemma UuidSplits(s: string)
    requires IsDashedUuid(s)
    ensures s == s[..8] + ("-" + (s[9..13] + ("-" + (s[14..18] + ("-" + (s[19..23] + ("-" + s[24..])))))))
  {
    assert s[19..] == s[19..23] + ("-" + s[24..]);
    assert s[14..] == s[14..18] + ("-" + s[19..]);
    assert s[9..] == s[9..13] + ("-" + s[14..]);
    assert s == s[..8] + ("-" + s[9..]);
  }

  lemma DashFive(a: string, b: string, c: string, d: string, e: string)
    requires IsHex(a) && IsHex(b) && IsHex(c) && IsHex(d) && IsHex(e)
    ensures RemoveDashes(a + ("-" + (b + ("-" + (c + ("-" + (d + ("-" + e)))))))) == a + b + c + d + e
  {
    var de := d + ("-" + e);
    var cde := c + ("-" + de);
    var bcde := b + ("-" + cde);
    NoDashes(e);
    Dash(d, e);
    Dash(c, de);
    Dash(b, cde);
    Dash(a, bcde);
    LeftToRight(a, b, c, d, e);
  }

  lemma LeftToRight(a: string, b: string, c: string, d: string, e: string)
    ensures a + (b + (c + (d + e))) == a + b + c + d + e
  {
  }

  lemma Dash(s: string, t: string)
    requires IsHex(s)
    ensures RemoveDashes(s + ("-" + t)) == s + RemoveDashes(t)
  {
    NoDashes(s);
    RemoveDashesConcat(s, "-" + t);
    LeadingDash(t);
  }

  lemma LeadingDash(t: string)
    ensures RemoveDashes("-" + t) == RemoveDashes(t)
  {
    assert ("-" + t)[1..] == t;
  }

  lemma DashedUuidReturns(s: string)
    requires IsDashedUuid(s)
    ensures HexOf(RemoveDashes(s), 16) && FormatUuid(LowerAll(RemoveDashes(s))) == Capitals(s)
  {
    DashedUuidParts(s);
    var h := RemoveDashes(s);
    forall i | 0 <= i < 32 ensures h[i] == s[WithDashes(i)] && IsDigit(h[i]) {
    }
    Regrouped(LowerAll(h));
    var grouped := FormatUuid(LowerAll(h));
    forall i | 0 <= i < 36 ensures grouped[i] == Capitals(s)[i] {
      if i != 8 && i != 13 && i != 18 && i != 23 {
        var j := WithoutDashes(i);
        assert WithDashes(j) == i;
        CapitalOfLower(h[j]);
      }
    }
  }

  /** Where the i-th hex digit of a dashed UUID stands, and back. */
  function WithDashes(i: nat): nat {
    if i < 8 then i else if i < 12 then i + 1 else if i < 16 then i + 2 else if i < 20 then i + 3 else i + 4
  }

  function WithoutDashes(i: nat): nat {
    if i < 9 then i else if i < 14 then i - 1 else if i < 19 then i - 2 else if i < 24 then i - 3 else i - 4
  }

  lemma CapitalOfLower(c: char)
    requires IsDigit(c)
    ensures Url.Upper(Lower(c)) == Url.Upper(c)
  {
  }

  lemma Regrouped(l: string)
    requires |l| == 32
    ensures |FormatUuid(l)| == 36
    ensures forall i :: 0 <= i < 36 ==>
              FormatUuid(l)[i]
              == if i == 8 || i == 13 || i == 18 || i == 23 then '-' else Url.Upper(l[WithoutDashes(i)])
  {
    var grouped := l[..8] + "-" + l[8..12] + "-" + l[12..16] + "-" + l[16..20] + "-" + l[20..];
    assert FormatUuid(l) == Capitals(grouped);
    forall i | 0 <= i < 36
      ensures grouped[i] == if i == 8 || i == 13 || i == 18 || i == 23 then '-' else l[WithoutDashes(i)]
    {
    }
  }

  /** The four fields come out of the decoded bytes at their offsets. */
  lemma FieldsReturn(productType: nat, secretKey: string, k: DeviceKey, level: Option<nat>, name: Option<string>)
    requires productType < 256
    requires HexOf(secretKey, 16) && HexOf(k.sesame2PublicKey, PublicKeyBytes(productType)) && HexOf(k.keyIndex, 2)
    requires HexOf(RemoveDashes(k.deviceUUID), 16)
    ensures ParseData(Decode(KeyData(productType, secretKey, k)), level, name)
         == Parsed(LowerAll(secretKey), LowerAll(k.keyIndex), LowerAll(k.sesame2PublicKey), level,
                   ModelName(productType), name, FormatUuid(LowerAll(RemoveDashes(k.deviceUUID))))
  {
    var uuid := RemoveDashes(k.deviceUUID);
    KeyDataBytes(productType, secretKey, k);
    PartsReturn(productType, secretKey, k.sesame2PublicKey, k.keyIndex, uuid, level, name);
  }

  lemma PartsReturn(
      productType: Byte, s1: string, s2: string, s3: string, s4: string, level: Option<nat>, name: Option<string>)
    requires HexOf(s1, 16) && HexOf(s2, PublicKeyBytes(productType)) && HexOf(s3, 2) && HexOf(s4, 16)
    ensures ParseData([productType] + Decode(s1) + Decode(s2) + Decode(s3) + Decode(s4), level, name)
         == Parsed(LowerAll(s1), LowerAll(s3), LowerAll(s2), level, ModelName(productType), name,
                   FormatUuid(LowerAll(s4)))
  {
    PartReturns(s1, 16);
    PartReturns(s2, PublicKeyBytes(productType));
    PartReturns(s3, 2);
    PartReturns(s4, 16);
    ParsedParts(productType, Decode(s1), Decode(s2), Decode(s3), Decode(s4), level, name);
  }

  lemma PartReturns(s: string, bytes: nat)
    requires HexOf(s, bytes)
    ensures Encode(Decode(s)) == LowerAll(s) && |Decode(s)| == bytes
  {
    DecodeEncode(s);
    DecodeConcat(s, "");
  }

  lemma ParsedParts(
      productType: Byte, d1: seq<Byte>, d2: seq<Byte>, d3: seq<Byte>, d4: seq<Byte>, level: Option<nat>,
      name: Option<string>)
    requires |d1| == 16 && |d2| == PublicKeyBytes(productType) && |d3| == 2 && |d4| == 16
    ensures ParseData([productType] + d1 + d2 + d3 + d4, level, name)
         == Parsed(Encode(d1), Encode(d3), Encode(d2), level, ModelName(productType), name, FormatUuid(Encode(d4)))
  {
    var data := [productType] + d1 + d2 + d3 + d4;
    Offsets(productType, d1, d2, d3, d4, |d2|);
    ParsedAtOffsets(data, |d2|, level, name);
  }

  lemma ParsedAtOffsets(data: seq<Byte>, p: nat, level: Option<nat>, name: Option<string>)
    requires |data| == 35 + p && p == PublicKeyBytes(data[0])
    ensures ParseData(data, level, name)
         == Parsed(Encode(data[1..17]), Encode(data[17 + p..19 + p]), Encode(data[17..17 + p]), level,
                   ModelName(data[0]), name, FormatUuid(Encode(data[19 + p..])))
  {
    assert data[19 + p..35 + p] == data[19 + p..];
  }

  lemma Offsets(productType: Byte, d1: seq<Byte>, d2: seq<Byte>, d3: seq<Byte>, d4: seq<Byte>, p: nat)
    requires |d1| == 16 && |d2| == p && |d3| == 2 && |d4| == 16
    ensures var data := [productType] + d1 + d2 + d3 + d4;
            && |data| == 35 + p && data[0] == productType && data[1..17] == d1 && data[17..17 + p] == d2
            && data[17 + p..19 + p] == d3 && data[19 + p..] == d4 && data[19 + p..35 + p] == d4
  {
  }

  lemma KeyDataBytes(productType: nat, secretKey: string, k: DeviceKey)
    requires productType < 256
    requires HexOf(secretKey, 16) && HexOf(k.sesame2PublicKey, PublicKeyBytes(productType)) && HexOf(k.keyIndex, 2)
    requires HexOf(RemoveDashes(k.deviceUUID), 16)
    ensures Decode(KeyData(productType, secretKey, k))
         == [productType] + Decode(secretKey) + Decode(k.sesame2PublicKey) + Decode(k.keyIndex)
            + Decode(RemoveDashes(k.deviceUUID))
    ensures |Decode(secretKey)| == 16 && |Decode(k.sesame2PublicKey)| == PublicKeyBytes(productType)
    ensures |Decode(k.keyIndex)| == 2 && |Decode(RemoveDashes(k.deviceUUID))| == 16
  {
    TypeByte(productType);
    DecodeFive(TwoDigits(productType), secretKey, k.sesame2PublicKey, k.keyIndex, RemoveDashes(k.deviceUUID));
  }

  lemma TypeByte(productType: nat)
    requires productType < 256
    ensures IsHex(TwoDigits(productType)) && Decode(TwoDigits(productType)) == [productType]
  {
    DigitRoundTrip(productType / 16);
    DigitRoundTrip(productType % 16);
    assert TwoDigits(productType)[2..] == "";
  }

  predicate WholeHex(s: string) {
    IsHex(s) && |s| % 2 == 0
  }

  lemma DecodeTwo(s: string, t: string)
    requires WholeHex(s) && WholeHex(t)
    ensures WholeHex(s + t) && Decode(s + t) == Decode(s) + Decode(t)
    ensures |Decode(t)| == |t| / 2
  {
    DecodeConcat(s, t);
    DecodeConcat(t, "");
  }

  lemma DecodeFive(a: string, b: string, c: string, d: string, e: string)
    requires WholeHex(a) && WholeHex(b) && WholeHex(c) && WholeHex(d) && WholeHex(e)
    ensures Decode(a + b + c + d + e) == Decode(a) + Decode(b) + Decode(c) + Decode(d) + Decode(e)
    ensures |Decode(b)| == |b| / 2 && |Decode(c)| == |c| / 2 && |Decode(d)| == |d| / 2 && |Decode(e)| == |e| / 2
  {
    var ab := a + b;
    var abc := ab + c;
    var abcd := abc + d;
    DecodeTwo(a, b);
    DecodeTwo(ab, c);
    DecodeTwo(abc, d);
    DecodeTwo(abcd, e);
  }

  lemma KeyParameterReturns(data: seq<Byte>)
    ensures Url.NoSeparator(Base64.Encode(data))
    ensures BlankToPlus(Url.FormDecode(Base64.Encode(data))) == Base64.Encode(data)
  {
    var s := Base64.Encode(data);
    Base64.Alphabet(data);
    Url.PlainDecodes(s);
    assert BlankToPlus(Url.PlusToBlank(s)) == s;
  }

  lemma LevelReturns(level: Option<nat>)
    ensures Url.NoSeparator(LevelText(level))
    ensures Decimal.ParseInt(Url.FormDecode(LevelText(level))) == level
  {
    var s := LevelText(level);
    Url.PlainDecodes(s);
    assert Url.PlusToBlank(s) == s;
    if level.Some? {
      Decimal.ParsePrinted(level.value);
    }
  }

  lemma QueryReturns(sk: string, level: string, name: string)
    requires Url.NoSeparator(sk) && Url.NoSeparator(level) && Url.NoSeparator(name)
    ensures Url.Get(Query(sk, level, name), "sk") == Some(Url.FormDecode(sk))
    ensures Url.Get(Query(sk, level, name), "l") == Some(Url.FormDecode(level))
    ensures Url.Get(Query(sk, level, name), "n") == Some(Url.FormDecode(name))
  {
    var last := "n" + "=" + name;
    var third := "l" + "=" + level + "&" + last;
    var second := "sk" + "=" + sk + "&" + third;
    forall key | key in {"sk", "l", "n"} ensures Url.Get(Query(sk, level, name), key) == Url.Get(second, key) {
      Url.GetFirst("t", "sk", second, key);
    }
    Url.GetFirst("sk", sk, third, "sk");
    SkipKey(sk, third, "l");
    SkipKey(sk, third, "n");
    Url.GetFirst("l", level, last, "l");
    Url.GetFirst("l", level, last, "n");
    Url.GetLast("n", name);
  }

  lemma SkipKey(sk: string, rest: string, key: string)
    requires Url.NoSeparator(sk) && key != "sk"
    ensures Url.Get("sk" + "=" + sk + "&" + rest, key) == Url.Get(rest, key)
  {
    Url.GetFirst("sk", sk, rest, key);
  }

  lemma QueryIsFound(sk: string, level: string, name: string)
    ensures QueryOf("ssm://UI?" + Query(sk, level, name)) == Query(sk, level, name)
  {
    var q := Query(sk, level, name);
    Url.FirstOccurrence("ssm://UI", '?', q);
    assert "ssm://UI" + "?" + q == "ssm://UI?" + q;
  }

  /** What the parser makes of the URL around any key bytes. */
  lemma UrlReturns(data: seq<Byte>, level: Option<nat>, name: string)
    requires data != []
    ensures ParseShareKeyUrl("ssm://UI?" + Query(Base64.Encode(data), LevelText(level), Url.EncodeURIComponent(name)))
         == Ok(ParseData(data, level, Some(name)))
  {
    var sk, l, n := Base64.Encode(data), LevelText(level), Url.EncodeURIComponent(name);
    Base64.RoundTrip(data);
    KeyParameterReturns(data);
    LevelReturns(level);
    Url.ComponentRoundTrip(name);
    Url.ComponentHasNoSeparator(name);
    QueryIsFound(sk, l, n);
    QueryReturns(sk, l, n);
    assert sk != "";
  }

  lemma UrlIsBuilt(productType: nat, k: DeviceKey, opts: Options)
    requires WellFormed(productType, k, opts)
    ensures productType < 256
    ensures var data := Decode(KeyData(productType, OrElse(opts.guestKeyId, k.secretKey), k));
            && data != []
            && BuildShareKeyUrl(k, opts) == Ok("ssm://UI?" + Query(Base64.Encode(data), LevelText(opts.keyLevel),
                                                                   Url.EncodeURIComponent(DisplayName(k, opts))))
  {
    ProductTypeIsByte(k.deviceModel);
    RemoveDashesNonEmpty(k.deviceUUID);
    KeyDataBytes(productType, OrElse(opts.guestKeyId, k.secretKey), k);
  }

  /** A link is built exactly when the model is known and no field is missing. */
  lemma BuiltExactlyWhenComplete(k: DeviceKey, opts: Options)
    ensures BuildShareKeyUrl(k, opts).Ok? <==>
      && (exists p: nat :: ModelName(p) == Some(k.deviceModel))
      && (k.secretKey != "" || opts.guestKeyId != "") && k.sesame2PublicKey != "" && k.keyIndex != ""
      && k.deviceUUID != ""
  {
    ProductTypeIsByte(k.deviceModel);
    forall p: nat | ModelName(p) == Some(k.deviceModel) ensures ProductTypeFromModelName(k.deviceModel).Some? {
      assert NameAt(MODEL_NAMES, p) == Some(k.deviceModel);
    }
  }

  /** The text of a link, byte by byte; a guest key stands in the place of the secret key. */
  lemma ShareKeyFormat(productType: nat, k: DeviceKey, opts: Options)
    requires WellFormed(productType, k, opts)
    ensures productType < 256 && ModelName(productType) == Some(k.deviceModel)
    ensures var secretKey := if opts.guestKeyId != "" then opts.guestKeyId else k.secretKey;
            var data := [productType] + Decode(secretKey) + Decode(k.sesame2PublicKey) + Decode(k.keyIndex)
                        + Decode(RemoveDashes(k.deviceUUID));
            var level := match opts.keyLevel case Some(n) => Decimal.Print(n) case None => "undefined";
            var name := if opts.name != "" then opts.name else if k.deviceName.Some? then k.deviceName.value
                        else "undefined";
            BuildShareKeyUrl(k, opts)
            == Ok("ssm://UI?t=sk&sk=" + Base64.Encode(data) + "&l=" + level + "&n=" + Url.EncodeURIComponent(name))
  {
    var secretKey := OrElse(opts.guestKeyId, k.secretKey);
    ProductTypeIsByte(k.deviceModel);
    UrlIsBuilt(productType, k, opts);
    KeyDataBytes(productType, secretKey, k);
    FlatQuery(Base64.Encode(Decode(KeyData(productType, secretKey, k))), LevelText(opts.keyLevel),
              Url.EncodeURIComponent(DisplayName(k, opts)));
  }

  lemma FlatQuery(sk: string, level: string, name: string)
    ensures "ssm://UI?" + Query(sk, level, name) == "ssm://UI?t=sk&sk=" + sk + "&l=" + level + "&n=" + name
  {
    var tail := "l" + "=" + level + "&" + ("n" + "=" + name);
    assert tail == "l=" + level + "&n=" + name;
    assert "sk" + "=" + sk + "&" + tail == "sk=" + sk + "&l=" + level + "&n=" + name;
    assert "ssm://UI?" + Query(sk, level, name) == "ssm://UI?t=sk&" + ("sk" + "=" + sk + "&" + tail);
  }

  /**
   * Parsing a built URL gives back every field up to hex case, for the 4-byte public keys of
   * SesameOS3 and the 64-byte ones of OS2.
   */
  lemma ShareKeyRoundTrip(productType: nat, k: DeviceKey, opts: Options)
    requires WellFormed(productType, k, opts)
    ensures BuildShareKeyUrl(k, opts).Ok?
    ensures ParseShareKeyUrl(BuildShareKeyUrl(k, opts).value)
         == Ok(Parsed(LowerAll(OrElse(opts.guestKeyId, k.secretKey)), LowerAll(k.keyIndex),
                      LowerAll(k.sesame2PublicKey), opts.keyLevel, Some(k.deviceModel), Some(DisplayName(k, opts)),
                      FormatUuid(LowerAll(RemoveDashes(k.deviceUUID)))))
  {
    var secretKey := OrElse(opts.guestKeyId, k.secretKey);
    var name := DisplayName(k, opts);
    ProductTypeIsByte(k.deviceModel);
    UrlIsBuilt(productType, k, opts);
    UrlReturns(Decode(KeyData(productType, secretKey, k)), opts.keyLevel, name);
    FieldsReturn(productType, secretKey, k, opts.keyLevel, Some(name));
  }
}
