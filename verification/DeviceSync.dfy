/**
 * _syncDevices and its helpers (packages/core/src/config.js:685-770, 915-1037): the device
 * table follows a server list; names stay unique, and only the view being synced is pruned.
 */
module DeviceSync {
  import opened Wrappers
  import opened Canonical
  import Config
  import Decimal

  /** An object with its own properties in order. */
  type Record = seq<Field>

  /** A named device of config.devices; the table keeps the object's key order. */
  datatype Entry = Entry(name: Text, rec: Record)

  function Ascii(s: string): (t: Text)
    ensures |t| == |s|
  {
    seq(|s|, i requires 0 <= i < |s| => AsciiUnit(s[i]))
  }

  function AsciiUnit(c: char): Unit {
    if c as int < 128 then c as int else 63
  }

  const UUID := Ascii("deviceUUID")
  const MODEL := Ascii("deviceModel")
  const CATEGORY := Ascii("category")
  const SECRET_KEY := Ascii("secretKey")
  const STATE_INFO := Ascii("stateInfo")
  const LOCAL_ONLY_KEYS := [CATEGORY, Ascii("ssmPublicKey"), Ascii("keyIndex")]

  // ---- Properties of an object ----

  function Get(r: Record, k: Text): Option<Json> {
    if r == [] then None else if r[0].key == k then Some(r[0].value) else Get(r[1..], k)
  }

  /** Assignment: in place when the property exists, at the end otherwise. */
  function Put(r: Record, k: Text, v: Json): Record {
    if r == [] then [Field(k, v)]
    else if r[0].key == k then [Field(k, v)] + r[1..]
    else [r[0]] + Put(r[1..], k, v)
  }

  function Without(r: Record, k: Text): Record {
    if r == [] then [] else if r[0].key == k then Without(r[1..], k) else [r[0]] + Without(r[1..], k)
  }

  lemma {:induction false} GetPut(r: Record, k: Text, v: Json, x: Text)
    ensures Get(Put(r, k, v), x) == if x == k then Some(v) else Get(r, x)
  {
    if r != [] && r[0].key != k {
      GetPut(r[1..], k, v, x);
      assert Put(r, k, v)[1..] == Put(r[1..], k, v);
    } else if r != [] {
      assert Put(r, k, v)[1..] == r[1..];
    }
  }

  lemma {:induction false} PutSame(r: Record, k: Text, v: Json)
    requires Get(r, k) == Some(v)
    ensures Put(r, k, v) == r
  {
    assert r == [r[0]] + r[1..];
    if r[0].key != k {
      PutSame(r[1..], k, v);
    }
  }

  lemma {:induction false} GetWithout(r: Record, k: Text, x: Text)
    ensures Get(Without(r, k), x) == if x == k then None else Get(r, x)
  {
    if r != [] {
      GetWithout(r[1..], k, x);
      if r[0].key != k {
        assert Without(r, k)[1..] == Without(r[1..], k);
      }
    }
  }

  // ---- Records ----

  function Lower(u: Unit): Unit {
    if 65 <= u <= 90 then u + 32 else u
  }

  /** Dashes out, letters down. */
  function NormalizeUuid(s: Text): Text {
    if s == [] then [] else (if s[0] == 45 then [] else [Lower(s[0])]) + NormalizeUuid(s[1..])
  }

  predicate SameLetter(x: Unit, y: Unit) {
    x == y || (65 <= x <= 90 && y == x + 32) || (65 <= y <= 90 && x == y + 32)
  }

  /** Two UUIDs as people write them: dashes and the case of letters do not count. */
  predicate SameUuid(a: Text, b: Text)
    decreases |a| + |b|
  {
    if a != [] && a[0] == 45 then SameUuid(a[1..], b)
    else if b != [] && b[0] == 45 then SameUuid(a, b[1..])
    else if a == [] || b == [] then a == b
    else SameLetter(a[0], b[0]) && SameUuid(a[1..], b[1..])
  }

  lemma {:induction false} NormalizedExactlyWhenSame(a: Text, b: Text)
    ensures NormalizeUuid(a) == NormalizeUuid(b) <==> SameUuid(a, b)
    decreases |a| + |b|
  {
    if a != [] && a[0] == 45 {
      NormalizedExactlyWhenSame(a[1..], b);
    } else if b != [] && b[0] == 45 {
      NormalizedExactlyWhenSame(a, b[1..]);
    } else if a != [] && b != [] {
      NormalizedExactlyWhenSame(a[1..], b[1..]);
      var x, y := NormalizeUuid(a), NormalizeUuid(b);
      assert x == [Lower(a[0])] + NormalizeUuid(a[1..]) && x[1..] == NormalizeUuid(a[1..]);
      assert y == [Lower(b[0])] + NormalizeUuid(b[1..]) && y[1..] == NormalizeUuid(b[1..]);
    }
  }

  function Uuid(r: Record): Text {
    match Get(r, UUID)
    case Some(Str(s)) => NormalizeUuid(s)
    case _ => []
  }

  predicate Truthy(v: Option<Json>) {
    match v
    case Some(Bool(b)) => b
    case Some(Num(n)) => n != [48]
    case Some(Str(s)) => s != []
    case Some(Null) => false
    case Some(_) => true
    case None => false
  }

  const LOCK_MODELS := {
    "sesame_2", "sesame_4", "sesame_5", "sesame_5_pro", "sesame_5_us", "bot_2", "bot_3", "ssmbot_1",
    "sesame_6", "sesame_6_pro", "sesame_6_pro_slidingdoor", "BLE_Connector_1", "bike_2", "bike_3"
  }
  const HUB3_MODELS := {"hub_3", "hub_3_lte"}

  predicate IsModel(v: Option<Json>, models: set<string>) {
    v.Some? && v.value.Str? && exists m :: m in models && Ascii(m) == v.value.s
  }

  const LOCK := Str(Ascii("lock"))
  const HUB3 := Str(Ascii("hub3"))

  function CategoryForModel(model: Option<Json>): Option<Json> {
    if IsModel(model, HUB3_MODELS) then Some(HUB3)
    else if IsModel(model, LOCK_MODELS) then Some(LOCK)
    else if model.None? || model.value.Null? then Some(LOCK)
    else None
  }

  function EffectiveCategory(r: Record): Option<Json> {
    if Truthy(Get(r, CATEGORY)) then Get(r, CATEGORY) else CategoryForModel(Get(r, MODEL))
  }

  function Sanitized(d: Record): Record {
    Without(d, STATE_INFO)
  }

  function CarryOne(r: Record, existing: Record, k: Text): Record {
    if Get(existing, k).Some? then Put(r, k, Get(existing, k).value) else r
  }

  /** The server's record with the local-only properties of the existing one. */
  function Carry(r: Record, existing: Record, keys: seq<Text>): Record {
    if keys == [] then r
    else CarryOne(Carry(r, existing, keys[..|keys| - 1]), existing, keys[|keys| - 1])
  }

  function Updated(d: Record, existing: Record): Record {
    Carry(Sanitized(d), existing, LOCAL_ONLY_KEYS)
  }

  predicate Differs(a: Record, b: Record) {
    Canonicalize(Obj(a)) != Canonicalize(Obj(b))
  }

  /** What the table holds for d once it is synced over existing. */
  function Settle(d: Record, existing: Record): Record {
    if Differs(Updated(d, existing), existing) then Updated(d, existing) else existing
  }

  lemma {:induction false} GetCarry(r: Record, existing: Record, keys: seq<Text>, x: Text)
    ensures Get(Carry(r, existing, keys), x)
         == if x in keys && Get(existing, x).Some? then Get(existing, x) else Get(r, x)
  {
    if keys != [] {
      var k := keys[|keys| - 1];
      GetCarry(r, existing, keys[..|keys| - 1], x);
      assert keys == keys[..|keys| - 1] + [k];
      if Get(existing, k).Some? {
        GetPut(Carry(r, existing, keys[..|keys| - 1]), k, Get(existing, k).value, x);
      }
    }
  }

  /** Carrying over from the result changes nothing more. */
  lemma {:induction false} CarryTwice(r: Record, existing: Record, keys: seq<Text>, all: seq<Text>)
    requires forall k :: k in keys ==> k in all
    requires forall i, j :: 0 <= i < j < |keys| ==> keys[i] != keys[j]
    ensures Carry(r, Carry(r, existing, all), keys) == Carry(r, existing, keys)
  {
    if keys != [] {
      var before, k := keys[..|keys| - 1], keys[|keys| - 1];
      CarryTwice(r, existing, before, all);
      GetCarry(r, existing, all, k);
      GetCarry(r, existing, before, k);
      assert k !in before;
      var x := Carry(r, existing, before);
      if Get(existing, k).None? && Get(r, k).Some? {
        PutSame(x, k, Get(r, k).value);
      }
    }
  }

  lemma LocalKeys()
    ensures UUID !in LOCAL_ONLY_KEYS && UUID != STATE_INFO
    ensures forall i, j :: 0 <= i < j < |LOCAL_ONLY_KEYS| ==> LOCAL_ONLY_KEYS[i] != LOCAL_ONLY_KEYS[j]
  {
    assert CATEGORY[0] == 99 && Ascii("keyIndex")[0] == 107;
  }

  lemma SettledUuid(d: Record, existing: Record)
    requires Uuid(existing) == Uuid(d)
    ensures Uuid(Settle(d, existing)) == Uuid(d)
    ensures Uuid(Sanitized(d)) == Uuid(d)
  {
    LocalKeys();
    GetWithout(d, STATE_INFO, UUID);
    GetCarry(Sanitized(d), existing, LOCAL_ONLY_KEYS, UUID);
  }

  /** Syncing the same device again finds nothing to change. */
  lemma SettledStays(d: Record, existing: Record)
    ensures !Differs(Updated(d, Settle(d, existing)), Settle(d, existing))
    ensures Updated(d, Sanitized(d)) == Sanitized(d)
  {
    LocalKeys();
    CarryTwice(Sanitized(d), existing, LOCAL_ONLY_KEYS, LOCAL_ONLY_KEYS);
    CarrySelf(Sanitized(d), LOCAL_ONLY_KEYS);
  }

  lemma {:induction false} CarrySelf(r: Record, keys: seq<Text>)
    ensures Carry(r, r, keys) == r
  {
    if keys != [] {
      CarrySelf(r, keys[..|keys| - 1]);
      if Get(r, keys[|keys| - 1]).Some? {
        PutSame(r, keys[|keys| - 1], Get(r, keys[|keys| - 1]).value);
      }
    }
  }

  // ---- Unique names ----

  /** A name is taken when it is a key of the object, or one that every object inherits. */
  predicate Taken(names: set<Text>, name: Text) {
    name in names || exists x :: x in Config.INHERITED && Ascii(x) == name
  }

  function Suffixed(base: Text, i: nat): Text {
    base + [45] + Ascii(Decimal.Print(i))
  }

  lemma SuffixInjective(base: Text, i: nat, j: nat)
    requires Suffixed(base, i) == Suffixed(base, j)
    ensures i == j
  {
    var x, y := Decimal.Print(i), Decimal.Print(j);
    assert Suffixed(base, i)[|base| + 1..] == Ascii(x) && Suffixed(base, j)[|base| + 1..] == Ascii(y);
    assert |x| == |y|;
    forall k | 0 <= k < |x| ensures x[k] == y[k] {
      assert Ascii(x)[k] == Ascii(y)[k];
    }
    assert x == y;
    Decimal.PrintInjective(i, j);
  }

  lemma SuffixNotInherited(base: Text, i: nat, x: string)
    requires x in Config.INHERITED
    ensures Ascii(x) != Suffixed(base, i)
  {
    assert Suffixed(base, i)[|base|] == 45;
    NoDashInherited(x);
  }

  lemma NoDashInherited(x: string)
    requires x in Config.INHERITED
    ensures '-' !in x
  {
  }

  lemma SuffixedIsTaken(names: set<Text>, base: Text, i: nat)
    ensures Taken(names, Suffixed(base, i)) <==> Suffixed(base, i) in names
  {
    forall x | x in Config.INHERITED ensures Ascii(x) != Suffixed(base, i) {
      SuffixNotInherited(base, i, x);
    }
  }

  /** The first suffix from i on that gives a free name; each taken one uses up a name. */
  function FirstFree(names: set<Text>, base: Text, i: nat): (k: nat)
    ensures i <= k
    decreases |names|
  {
    if Suffixed(base, i) in names then FirstFree(names - {Suffixed(base, i)}, base, i + 1) else i
  }

  lemma {:induction false} FirstFreeIsFree(names: set<Text>, base: Text, i: nat)
    ensures var k := FirstFree(names, base, i);
            Suffixed(base, k) !in names && forall j :: i <= j < k ==> Suffixed(base, j) in names
    decreases |names|
  {
    if Suffixed(base, i) in names {
      var rest := names - {Suffixed(base, i)};
      FirstFreeIsFree(rest, base, i + 1);
      var k := FirstFree(rest, base, i + 1);
      if Suffixed(base, k) == Suffixed(base, i) {
        SuffixInjective(base, k, i);
      }
    }
  }

  function UniqueName(names: set<Text>, base: Text): Text {
    if Taken(names, base) then Suffixed(base, FirstFree(names, base, 2)) else base
  }

  lemma UniqueNameIsFresh(names: set<Text>, base: Text)
    ensures !Taken(names, UniqueName(names, base))
  {
    FirstFreeIsFree(names, base, 2);
    SuffixedIsTaken(names, base, FirstFree(names, base, 2));
  }

  /** uniqueName: the loop ends because each round meets another of finitely many names. */
  method FindUniqueName(names: set<Text>, base: Text) returns (name: Text)
    ensures !Taken(names, name)
    ensures name == base <==> !Taken(names, base)
    ensures name != base ==> exists k :: 2 <= k && name == Suffixed(base, k)
                               && forall j :: 2 <= j < k ==> Taken(names, Suffixed(base, j))
    ensures name == UniqueName(names, base)
  {
    if !Taken(names, base) {
      return base;
    }
    var i := 2;
    ghost var left := names;
    SuffixedIsTaken(names, base, i);
    while Taken(names, Suffixed(base, i))
      invariant 2 <= i && left <= names
      invariant forall j :: 2 <= j < i ==> Taken(names, Suffixed(base, j))
      invariant FirstFree(left, base, i) == FirstFree(names, base, 2)
      invariant UsedUp(names, left, base, i)
      invariant Taken(names, Suffixed(base, i)) <==> Suffixed(base, i) in names
      decreases |left|
    {
      NotYetUsed(names, left, base, i);
      left := left - {Suffixed(base, i)};
      i := i + 1;
      SuffixedIsTaken(names, base, i);
    }
    name := Suffixed(base, i);
    assert |name| > |base|;
  }

  /** The names set aside are the suffixed ones that were tried. */
  ghost predicate UsedUp(names: set<Text>, left: set<Text>, base: Text, i: nat) {
    forall n :: n in names && n !in left ==> exists j :: 2 <= j < i && n == Suffixed(base, j)
  }

  lemma NotYetUsed(names: set<Text>, left: set<Text>, base: Text, i: nat)
    requires 2 <= i && Suffixed(base, i) in names && UsedUp(names, left, base, i)
    ensures Suffixed(base, i) in left && UsedUp(names, left - {Suffixed(base, i)}, base, i + 1)
  {
    if Suffixed(base, i) !in left {
      var j :| 2 <= j < i && Suffixed(base, i) == Suffixed(base, j);
      SuffixInjective(base, i, j);
    }
  }

  // ---- The table ----

  type Table = seq<Entry>

  function Names(t: Table): set<Text> {
    set e | e in t :: e.name
  }

  predicate DistinctNames(t: Table) {
    forall i, j :: 0 <= i < j < |t| ==> t[i].name != t[j].name
  }

  /** The record of the first entry with this normalised UUID. */
  function Match(t: Table, u: Text): Option<Record> {
    if t == [] then None else if Uuid(t[0].rec) == u then Some(t[0].rec) else Match(t[1..], u)
  }

  function SetMatch(t: Table, u: Text, r: Record): Table {
    if t == [] then []
    else if Uuid(t[0].rec) == u then [Entry(t[0].name, r)] + t[1..]
    else [t[0]] + SetMatch(t[1..], u, r)
  }

  predicate DistinctUuids(t: Table) {
    t == [] || (Match(t[1..], Uuid(t[0].rec)).None? && DistinctUuids(t[1..]))
  }

  lemma {:induction false} MatchConcat(a: Table, b: Table, u: Text)
    ensures Match(a + b, u) == if Match(a, u).Some? then Match(a, u) else Match(b, u)
  {
    if a == [] {
      assert a + b == b;
    } else {
      assert (a + b)[1..] == a[1..] + b;
      MatchConcat(a[1..], b, u);
    }
  }

  lemma {:induction false} MatchSetMatch(t: Table, u: Text, r: Record, x: Text)
    requires Match(t, u).Some? && Uuid(r) == u
    ensures Match(SetMatch(t, u, r), x) == if x == u then Some(r) else Match(t, x)
  {
    if Uuid(t[0].rec) == u {
      assert SetMatch(t, u, r)[1..] == t[1..];
    } else {
      MatchSetMatch(t[1..], u, r, x);
      assert SetMatch(t, u, r)[1..] == SetMatch(t[1..], u, r);
    }
  }

  /** The UUID a record is filed under is never empty for an accepted device. */
  lemma {:induction false} MatchUuid(t: Table, u: Text)
    ensures Match(t, u).Some? ==> Uuid(Match(t, u).value) == u
  {
    if t != [] {
      MatchUuid(t[1..], u);
    }
  }

  // ---- The sync ----

  /**
   * What distinguishes one sync from another. base is the name derived from a device's
   * display name; place is where the object puts a new key (index-like keys come first).
   */
  datatype Rules = Rules(
    accept: Record -> bool,
    category: Json,
    prune: bool,
    setsDefault: bool,
    protect: Text -> bool,
    base: Record -> Text,
    place: (Table, Text) -> nat)

  datatype Outcome = Outcome(
    table: Table, default: Option<Text>, added: seq<Text>, updated: seq<Text>, removed: seq<Text>)

  function InsertAt(t: Table, p: nat, e: Entry): Table {
    var i := if p <= |t| then p else |t|;
    t[..i] + [e] + t[i..]
  }

  function NewName(rules: Rules, t: Table, d: Record): Text {
    UniqueName(Names(t), rules.base(d))
  }

  function MatchName(t: Table, u: Text): Text {
    if t == [] then [] else if Uuid(t[0].rec) == u then t[0].name else MatchName(t[1..], u)
  }

  /** One device of the list. */
  function SyncOne(rules: Rules, o: Outcome, d: Record): Outcome {
    var found := Match(o.table, Uuid(d));
    if !rules.accept(d) then o
    else if found.Some? then
      if Differs(Updated(d, found.value), found.value) then
        o.(table := SetMatch(o.table, Uuid(d), Updated(d, found.value)),
           updated := o.updated + [MatchName(o.table, Uuid(d))])
      else o
    else
      var name := NewName(rules, o.table, d);
      o.(table := InsertAt(o.table, rules.place(o.table, name), Entry(name, Sanitized(d))),
         default := if rules.setsDefault && (o.default.None? || o.default == Some([])) then Some(name) else o.default,
         added := o.added + [name])
  }

  function SyncAll(rules: Rules, o: Outcome, list: seq<Record>): Outcome
    decreases |list|
  {
    if list == [] then o else SyncAll(rules, SyncOne(rules, o, list[0]), list[1..])
  }

  /** The UUIDs of the accepted devices of the list. */
  function Seen(rules: Rules, list: seq<Record>): set<Text> {
    set d | d in list && rules.accept(d) :: Uuid(d)
  }

  predicate Doomed(rules: Rules, seen: set<Text>, e: Entry) {
    EffectiveCategory(e.rec) == Some(rules.category) && Uuid(e.rec) !in seen && !rules.protect(e.name)
  }

  function Survivors(rules: Rules, seen: set<Text>, t: Table): Table {
    if t == [] then []
    else (if Doomed(rules, seen, t[0]) then [] else [t[0]]) + Survivors(rules, seen, t[1..])
  }

  function DoomedNames(rules: Rules, seen: set<Text>, t: Table): seq<Text> {
    if t == [] then []
    else (if Doomed(rules, seen, t[0]) then [t[0].name] else []) + DoomedNames(rules, seen, t[1..])
  }

  function Pruned(rules: Rules, seen: set<Text>, o: Outcome): Outcome {
    var gone := DoomedNames(rules, seen, o.table);
    o.(table := Survivors(rules, seen, o.table),
       default := if o.default.Some? && o.default.value in gone then None else o.default,
       removed := o.removed + gone)
  }

  function Synced(rules: Rules, t: Table, default: Option<Text>, list: seq<Record>): Outcome {
    var o := SyncAll(rules, Outcome(t, default, [], [], []), list);
    if rules.prune then Pruned(rules, Seen(rules, list), o) else o
  }

  // ---- Every accepted device is present, and UUIDs stay distinct ----

  /** What one device of the list does to the entry of each UUID. */
  lemma MatchAfterOne(rules: Rules, o: Outcome, d: Record, u: Text)
    ensures Match(SyncOne(rules, o, d).table, u)
         == if !rules.accept(d) || u != Uuid(d) then Match(o.table, u)
            else if Match(o.table, u).Some? then Some(Settle(d, Match(o.table, u).value))
            else Some(Sanitized(d))
  {
    var found := Match(o.table, Uuid(d));
    if rules.accept(d) {
      if found.Some? {
        MatchUuid(o.table, Uuid(d));
        SettledUuid(d, found.value);
        if Differs(Updated(d, found.value), found.value) {
          MatchSetMatch(o.table, Uuid(d), Updated(d, found.value), u);
        }
      } else {
        var name := NewName(rules, o.table, d);
        LocalKeys();
        GetWithout(d, STATE_INFO, UUID);
        MatchInserted(o.table, rules.place(o.table, name), Entry(name, Sanitized(d)), u);
      }
    }
  }

  lemma MatchInserted(t: Table, p: nat, e: Entry, u: Text)
    requires Match(t, Uuid(e.rec)).None?
    ensures Match(InsertAt(t, p, e), u) == if u == Uuid(e.rec) then Some(e.rec) else Match(t, u)
  {
    var i := if p <= |t| then p else |t|;
    assert t == t[..i] + t[i..];
    MatchConcat(t[..i], t[i..], u);
    MatchConcat(t[..i], t[i..], Uuid(e.rec));
    assert t[..i] + [e] + t[i..] == t[..i] + ([e] + t[i..]);
    MatchConcat(t[..i], [e] + t[i..], u);
    MatchSkips(e, t[i..], u);
  }

  lemma {:induction false} MatchSurvivors(rules: Rules, seen: set<Text>, t: Table, u: Text)
    requires u in seen
    ensures Match(Survivors(rules, seen, t), u) == Match(t, u)
  {
    if t != [] {
      MatchSurvivors(rules, seen, t[1..], u);
      if !Doomed(rules, seen, t[0]) {
        assert Survivors(rules, seen, t)[1..] == Survivors(rules, seen, t[1..]);
      } else {
        assert Survivors(rules, seen, t) == Survivors(rules, seen, t[1..]);
      }
    }
  }

  lemma {:induction false} AllAcceptedPresent(rules: Rules, o: Outcome, list: seq<Record>, u: Text)
    ensures Match(o.table, u).Some? || u in Seen(rules, list) ==> Match(SyncAll(rules, o, list).table, u).Some?
    decreases |list|
  {
    if list != [] {
      MatchAfterOne(rules, o, list[0], u);
      assert list == [list[0]] + list[1..];
      AllAcceptedPresent(rules, SyncOne(rules, o, list[0]), list[1..], u);
    }
  }

  /** After a sync, with or without pruning, every accepted device has an entry. */
  lemma AcceptedPresent(rules: Rules, t: Table, default: Option<Text>, list: seq<Record>, d: Record)
    requires d in list && rules.accept(d)
    ensures Match(Synced(rules, t, default, list).table, Uuid(d)).Some?
  {
    var o := Outcome(t, default, [], [], []);
    assert Uuid(d) in Seen(rules, list);
    AllAcceptedPresent(rules, o, list, Uuid(d));
    MatchSurvivors(rules, Seen(rules, list), SyncAll(rules, o, list).table, Uuid(d));
  }

  lemma MatchAround(a: Table, e: Entry, b: Table, u: Text)
    requires u != Uuid(e.rec)
    ensures Match(a + [e] + b, u) == Match(a + b, u)
  {
    assert a + [e] + b == a + ([e] + b);
    MatchConcat(a, [e] + b, u);
    MatchConcat(a, b, u);
    MatchSkips(e, b, u);
  }

  lemma MatchSkips(e: Entry, b: Table, u: Text)
    ensures Match([e] + b, u) == if u == Uuid(e.rec) then Some(e.rec) else Match(b, u)
  {
    assert ([e] + b)[1..] == b;
  }

  lemma {:induction false} DistinctInserted(a: Table, b: Table, e: Entry)
    requires DistinctUuids(a + b) && Match(a + b, Uuid(e.rec)).None?
    ensures DistinctUuids(a + [e] + b)
  {
    if a == [] {
      assert a + b == b && a + [e] + b == [e] + b;
      PrependDistinct(e, b);
    } else {
      HeadFirst(a, b);
      HeadFirst(a, [e] + b);
      DistinctInserted(a[1..], b, e);
      MatchAround(a[1..], e, b, Uuid(a[0].rec));
      PrependDistinct(a[0], a[1..] + [e] + b);
      Inserted(a, e, b);
    }
  }

  lemma HeadFirst(a: Table, b: Table)
    requires a != []
    ensures (a + b)[0] == a[0] && (a + b)[1..] == a[1..] + b
  {
  }

  lemma Inserted(a: Table, e: Entry, b: Table)
    requires a != []
    ensures a + [e] + b == [a[0]] + (a[1..] + [e] + b)
  {
  }

  lemma PrependDistinct(e: Entry, t: Table)
    requires DistinctUuids(t) && Match(t, Uuid(e.rec)).None?
    ensures DistinctUuids([e] + t)
  {
    assert ([e] + t)[1..] == t;
  }

  lemma {:induction false} DistinctSetMatch(t: Table, u: Text, r: Record)
    requires DistinctUuids(t) && Match(t, u).Some? && Uuid(r) == u
    ensures DistinctUuids(SetMatch(t, u, r))
  {
    if Uuid(t[0].rec) == u {
      assert SetMatch(t, u, r)[1..] == t[1..];
    } else {
      DistinctSetMatch(t[1..], u, r);
      MatchSetMatch(t[1..], u, r, Uuid(t[0].rec));
      assert SetMatch(t, u, r)[1..] == SetMatch(t[1..], u, r);
    }
  }

  lemma DistinctAfterOne(rules: Rules, o: Outcome, d: Record)
    requires DistinctUuids(o.table)
    ensures DistinctUuids(SyncOne(rules, o, d).table)
  {
    var found := Match(o.table, Uuid(d));
    if rules.accept(d) {
      if found.Some? {
        MatchUuid(o.table, Uuid(d));
        SettledUuid(d, found.value);
        if Differs(Updated(d, found.value), found.value) {
          DistinctSetMatch(o.table, Uuid(d), Updated(d, found.value));
        }
      } else {
        var name := NewName(rules, o.table, d);
        var p := rules.place(o.table, name);
        var i := if p <= |o.table| then p else |o.table|;
        assert o.table == o.table[..i] + o.table[i..];
        LocalKeys();
        GetWithout(d, STATE_INFO, UUID);
        DistinctInserted(o.table[..i], o.table[i..], Entry(name, Sanitized(d)));
      }
    }
  }

  lemma {:induction false} DistinctAfterAll(rules: Rules, o: Outcome, list: seq<Record>)
    requires DistinctUuids(o.table)
    ensures DistinctUuids(SyncAll(rules, o, list).table)
    decreases |list|
  {
    if list != [] {
      DistinctAfterOne(rules, o, list[0]);
      DistinctAfterAll(rules, SyncOne(rules, o, list[0]), list[1..]);
    }
  }

  lemma {:induction false} SurvivorsHaveNoNewMatch(rules: Rules, seen: set<Text>, t: Table, u: Text)
    requires Match(t, u).None?
    ensures Match(Survivors(rules, seen, t), u).None?
  {
    if t != [] {
      SurvivorsHaveNoNewMatch(rules, seen, t[1..], u);
      SurvivorsUnfold(rules, seen, t);
    }
  }

  lemma SurvivorsUnfold(rules: Rules, seen: set<Text>, t: Table)
    requires t != []
    ensures Doomed(rules, seen, t[0]) ==> Survivors(rules, seen, t) == Survivors(rules, seen, t[1..])
    ensures !Doomed(rules, seen, t[0]) ==>
      Survivors(rules, seen, t) != [] && Survivors(rules, seen, t)[0] == t[0]
      && Survivors(rules, seen, t)[1..] == Survivors(rules, seen, t[1..])
  {
  }

  lemma {:induction false} DistinctSurvivors(rules: Rules, seen: set<Text>, t: Table)
    requires DistinctUuids(t)
    ensures DistinctUuids(Survivors(rules, seen, t))
  {
    if t != [] {
      DistinctSurvivors(rules, seen, t[1..]);
      SurvivorsUnfold(rules, seen, t);
      SurvivorsHaveNoNewMatch(rules, seen, t[1..], Uuid(t[0].rec));
    }
  }

  /** A sync keeps normalised UUIDs distinct. */
  lemma UuidsStayDistinct(rules: Rules, t: Table, default: Option<Text>, list: seq<Record>)
    requires DistinctUuids(t)
    ensures DistinctUuids(Synced(rules, t, default, list).table)
  {
    var o := Outcome(t, default, [], [], []);
    DistinctAfterAll(rules, o, list);
    DistinctSurvivors(rules, Seen(rules, list), SyncAll(rules, o, list).table);
  }

  // ---- What a sync leaves alone ----

  lemma {:induction false} SetMatchSpares(t: Table, u: Text, r: Record, e: Entry)
    requires e in t
    ensures Uuid(e.rec) != u ==> e in SetMatch(t, u, r)
    ensures exists e' :: e' in SetMatch(t, u, r) && e'.name == e.name
  {
    if Uuid(t[0].rec) == u {
      var first := Entry(t[0].name, r);
      assert SetMatch(t, u, r)[0] == first;
      if e != t[0] {
        assert e in t[1..];
        assert e in SetMatch(t, u, r);
      }
    } else if e == t[0] {
      assert SetMatch(t, u, r)[0] == e;
    } else {
      assert e in t[1..];
      SetMatchSpares(t[1..], u, r, e);
      var e' :| e' in SetMatch(t[1..], u, r) && e'.name == e.name;
      assert e' in SetMatch(t, u, r);
    }
  }

  predicate HasName(t: Table, name: Text) {
    exists e :: e in t && e.name == name
  }

  lemma SparedByOne(rules: Rules, o: Outcome, d: Record, e: Entry)
    requires e in o.table
    ensures Uuid(e.rec) != Uuid(d) || !rules.accept(d) ==> e in SyncOne(rules, o, d).table
  {
    var found := Match(o.table, Uuid(d));
    if rules.accept(d) && found.Some? && Differs(Updated(d, found.value), found.value) {
      SetMatchSpares(o.table, Uuid(d), Updated(d, found.value), e);
    } else if rules.accept(d) && found.None? {
      var name := NewName(rules, o.table, d);
      var p := rules.place(o.table, name);
      InsertKeeps(o.table, p, Entry(name, Sanitized(d)), e);
    }
  }

  lemma InsertKeeps(t: Table, p: nat, x: Entry, e: Entry)
    ensures e in InsertAt(t, p, x) <==> e in t || e == x
  {
    var i := if p <= |t| then p else |t|;
    assert t == t[..i] + t[i..];
  }

  lemma {:induction false} SparedByAll(rules: Rules, o: Outcome, list: seq<Record>, e: Entry)
    requires e in o.table && Uuid(e.rec) !in Seen(rules, list)
    ensures e in SyncAll(rules, o, list).table
    decreases |list|
  {
    if list != [] {
      assert list == [list[0]] + list[1..];
      assert rules.accept(list[0]) ==> Uuid(list[0]) in Seen(rules, list);
      SparedByOne(rules, o, list[0], e);
      SparedByAll(rules, SyncOne(rules, o, list[0]), list[1..], e);
    }
  }

  lemma {:induction false} SurvivorsExactly(rules: Rules, seen: set<Text>, t: Table, e: Entry)
    ensures e in Survivors(rules, seen, t) <==> e in t && !Doomed(rules, seen, e)
    ensures Doomed(rules, seen, e) && e in t ==> e.name in DoomedNames(rules, seen, t)
  {
    if t != [] {
      SurvivorsExactly(rules, seen, t[1..], e);
      assert e in t <==> e == t[0] || e in t[1..];
    }
  }

  /**
   * An entry that the list does not mention is left exactly as it was, unless pruning is on
   * and it belongs to the view being synced and is not protected. So the other view's devices,
   * and protected Hub3s, are never pruned.
   */
  lemma UnmentionedEntryStays(rules: Rules, t: Table, default: Option<Text>, list: seq<Record>, e: Entry)
    requires e in t && Uuid(e.rec) !in Seen(rules, list)
    ensures e in Synced(rules, t, default, list).table
       <==> !rules.prune || EffectiveCategory(e.rec) != Some(rules.category) || rules.protect(e.name)
  {
    var o := Outcome(t, default, [], [], []);
    SparedByAll(rules, o, list, e);
    SurvivorsExactly(rules, Seen(rules, list), SyncAll(rules, o, list).table, e);
  }

  // ---- What keeps its name ----

  predicate HasEntry(t: Table, name: Text, u: Text) {
    exists e :: e in t && e.name == name && Uuid(e.rec) == u
  }

  lemma {:induction false} SetMatchKeepsEntry(t: Table, u: Text, r: Record, e: Entry)
    requires e in t && Uuid(r) == u
    ensures HasEntry(SetMatch(t, u, r), e.name, Uuid(e.rec))
  {
    var t' := SetMatch(t, u, r);
    if Uuid(t[0].rec) == u {
      if e == t[0] {
        assert t'[0] == Entry(e.name, r);
      } else {
        assert e in t[1..];
        assert e in t';
      }
    } else if e == t[0] {
      assert t'[0] == e;
    } else {
      assert e in t[1..];
      SetMatchKeepsEntry(t[1..], u, r, e);
      var e' :| e' in SetMatch(t[1..], u, r) && e'.name == e.name && Uuid(e'.rec) == Uuid(e.rec);
      assert e' in t';
    }
  }

  lemma OneKeepsEntry(rules: Rules, o: Outcome, d: Record, e: Entry)
    requires e in o.table
    ensures HasEntry(SyncOne(rules, o, d).table, e.name, Uuid(e.rec))
  {
    var found := Match(o.table, Uuid(d));
    if rules.accept(d) && found.Some? && Differs(Updated(d, found.value), found.value) {
      MatchUuid(o.table, Uuid(d));
      SettledUuid(d, found.value);
      SetMatchKeepsEntry(o.table, Uuid(d), Updated(d, found.value), e);
    } else if rules.accept(d) && found.None? {
      var name := NewName(rules, o.table, d);
      InsertKeeps(o.table, rules.place(o.table, name), Entry(name, Sanitized(d)), e);
    }
  }

  lemma {:induction false} AllKeepEntry(rules: Rules, o: Outcome, list: seq<Record>, e: Entry)
    requires e in o.table
    ensures HasEntry(SyncAll(rules, o, list).table, e.name, Uuid(e.rec))
    decreases |list|
  {
    if list != [] {
      OneKeepsEntry(rules, o, list[0], e);
      var o' := SyncOne(rules, o, list[0]);
      var e' :| e' in o'.table && e'.name == e.name && Uuid(e'.rec) == Uuid(e.rec);
      AllKeepEntry(rules, o', list[1..], e');
    }
  }

  /**
   * Whatever the list says, an entry keeps its name and its UUID through a sync unless pruning
   * is on, the list omits it, it belongs to the view being synced and it is not protected.
   */
  lemma EntryKeepsItsName(rules: Rules, t: Table, default: Option<Text>, list: seq<Record>, e: Entry)
    requires e in t
    requires !rules.prune || !Doomed(rules, Seen(rules, list), e)
    ensures HasEntry(Synced(rules, t, default, list).table, e.name, Uuid(e.rec))
  {
    var o := Outcome(t, default, [], [], []);
    var seen, all := Seen(rules, list), SyncAll(rules, o, list).table;
    if Uuid(e.rec) in seen {
      AllKeepEntry(rules, o, list, e);
      var e' :| e' in all && e'.name == e.name && Uuid(e'.rec) == Uuid(e.rec);
      SurvivorsExactly(rules, seen, all, e');
    } else {
      SparedByAll(rules, o, list, e);
      SurvivorsExactly(rules, seen, all, e);
    }
  }

  // ---- Names ----

  lemma DistinctNamesAfterOne(rules: Rules, o: Outcome, d: Record)
    requires DistinctNames(o.table)
    ensures DistinctNames(SyncOne(rules, o, d).table)
    ensures forall n :: HasName(o.table, n) ==> HasName(SyncOne(rules, o, d).table, n)
  {
    var found := Match(o.table, Uuid(d));
    if rules.accept(d) && found.Some? {
      SetMatchNames(o.table, Uuid(d), Updated(d, found.value));
      var t' := SetMatch(o.table, Uuid(d), Updated(d, found.value));
      forall n | HasName(o.table, n) ensures HasName(t', n) {
        var e :| e in o.table && e.name == n;
        SetMatchSpares(o.table, Uuid(d), Updated(d, found.value), e);
      }
    } else if rules.accept(d) {
      var name := NewName(rules, o.table, d);
      UniqueNameIsFresh(Names(o.table), rules.base(d));
      var e := Entry(name, Sanitized(d));
      var p := rules.place(o.table, name);
      InsertedNames(o.table, p, e);
      forall n | HasName(o.table, n) ensures HasName(InsertAt(o.table, p, e), n) {
        var x :| x in o.table && x.name == n;
        InsertKeeps(o.table, p, e, x);
      }
    }
  }

  lemma {:induction false} SetMatchNames(t: Table, u: Text, r: Record)
    ensures |SetMatch(t, u, r)| == |t| && forall i :: 0 <= i < |t| ==> SetMatch(t, u, r)[i].name == t[i].name
  {
    if t != [] && Uuid(t[0].rec) != u {
      SetMatchNames(t[1..], u, r);
    }
  }

  lemma InsertedNames(t: Table, p: nat, e: Entry)
    requires DistinctNames(t) && e.name !in Names(t)
    ensures DistinctNames(InsertAt(t, p, e))
  {
    forall i | 0 <= i < |t| ensures t[i].name != e.name {
      assert t[i] in t;
    }
  }

  /** No device of the table loses its name to the list, and no two share one. */
  lemma {:induction false} NamesStayDistinct(rules: Rules, o: Outcome, list: seq<Record>)
    requires DistinctNames(o.table)
    ensures DistinctNames(SyncAll(rules, o, list).table)
    ensures forall n :: HasName(o.table, n) ==> HasName(SyncAll(rules, o, list).table, n)
    decreases |list|
  {
    if list != [] {
      DistinctNamesAfterOne(rules, o, list[0]);
      NamesStayDistinct(rules, SyncOne(rules, o, list[0]), list[1..]);
    }
  }

  lemma {:induction false} SurvivorsKeepNamesDistinct(rules: Rules, seen: set<Text>, t: Table)
    requires DistinctNames(t)
    ensures DistinctNames(Survivors(rules, seen, t))
  {
    if t != [] {
      SurvivorsKeepNamesDistinct(rules, seen, t[1..]);
      SurvivorsUnfold(rules, seen, t);
      var rest := Survivors(rules, seen, t[1..]);
      forall i | 0 <= i < |rest| ensures rest[i].name != t[0].name {
        SurvivorsExactly(rules, seen, t[1..], rest[i]);
        assert rest[i] in t[1..];
      }
    }
  }

  /** The table that a sync leaves, pruned or not, has distinct names. */
  lemma SyncedNamesAreDistinct(rules: Rules, t: Table, default: Option<Text>, list: seq<Record>)
    requires DistinctNames(t)
    ensures DistinctNames(Synced(rules, t, default, list).table)
  {
    var o := Outcome(t, default, [], [], []);
    NamesStayDistinct(rules, o, list);
    SurvivorsKeepNamesDistinct(rules, Seen(rules, list), SyncAll(rules, o, list).table);
  }

  // ---- Idempotence ----

  predicate DistinctDevices(rules: Rules, list: seq<Record>) {
    forall i, j :: 0 <= i < j < |list| && rules.accept(list[i]) && rules.accept(list[j]) ==>
      Uuid(list[i]) != Uuid(list[j])
  }

  /** The table already holds what syncing d would store. */
  predicate Settled(t: Table, d: Record) {
    var found := Match(t, Uuid(d));
    found.Some? && !Differs(Updated(d, found.value), found.value)
  }

  lemma {:induction false} SettledAfterAll(rules: Rules, o: Outcome, list: seq<Record>, d: Record)
    requires DistinctDevices(rules, list) && rules.accept(d)
    requires d in list || (Settled(o.table, d) && Uuid(d) !in Seen(rules, list))
    ensures Settled(SyncAll(rules, o, list).table, d)
    decreases |list|
  {
    if list != [] {
      var o' := SyncOne(rules, o, list[0]);
      var rest := list[1..];
      assert list == [list[0]] + rest;
      MatchAfterOne(rules, o, list[0], Uuid(d));
      assert forall x :: x in rest && rules.accept(x) && rules.accept(list[0]) ==> Uuid(x) != Uuid(list[0]) by {
        forall x | x in rest && rules.accept(x) && rules.accept(list[0]) ensures Uuid(x) != Uuid(list[0]) {
          var k :| 0 <= k < |rest| && rest[k] == x;
          assert list[k + 1] == x;
        }
      }
      if d !in rest {
        SettledHere(rules, o, list[0], d);
      }
      SettledAfterAll(rules, o', rest, d);
    }
  }

  lemma SettledHere(rules: Rules, o: Outcome, first: Record, d: Record)
    requires rules.accept(d)
    requires d == first || (Settled(o.table, d) && (rules.accept(first) ==> Uuid(first) != Uuid(d)))
    ensures Settled(SyncOne(rules, o, first).table, d)
  {
    MatchAfterOne(rules, o, first, Uuid(d));
    if d == first {
      if Match(o.table, Uuid(d)).Some? {
        SettledStays(d, Match(o.table, Uuid(d)).value);
      } else {
        SettledStays(d, []);
      }
    }
  }

  lemma {:induction false} SettledListChangesNothing(rules: Rules, o: Outcome, list: seq<Record>)
    requires forall d :: d in list && rules.accept(d) ==> Settled(o.table, d)
    ensures SyncAll(rules, o, list) == o
    decreases |list|
  {
    if list != [] {
      assert list == [list[0]] + list[1..];
      SettledListChangesNothing(rules, SyncOne(rules, o, list[0]), list[1..]);
    }
  }

  lemma {:induction false} SurvivorsTwice(rules: Rules, seen: set<Text>, t: Table)
    ensures Survivors(rules, seen, Survivors(rules, seen, t)) == Survivors(rules, seen, t)
    ensures DoomedNames(rules, seen, Survivors(rules, seen, t)) == []
  {
    if t != [] {
      SurvivorsTwice(rules, seen, t[1..]);
      SurvivorsUnfold(rules, seen, t);
      if !Doomed(rules, seen, t[0]) {
        var s := Survivors(rules, seen, t);
        assert s == [t[0]] + Survivors(rules, seen, t[1..]);
      }
    }
  }

  /** Repeating a sync on a list with distinct UUIDs changes nothing and reports nothing. */
  lemma SyncTwice(rules: Rules, t: Table, default: Option<Text>, list: seq<Record>, once: Outcome)
    requires DistinctDevices(rules, list) && once == Synced(rules, t, default, list)
    ensures Synced(rules, once.table, once.default, list) == Outcome(once.table, once.default, [], [], [])
  {
    var seen := Seen(rules, list);
    var all := SyncAll(rules, Outcome(t, default, [], [], []), list);
    forall d | d in list && rules.accept(d) ensures Settled(once.table, d) {
      SettledAfterAll(rules, Outcome(t, default, [], [], []), list, d);
      assert Uuid(d) in seen;
      MatchSurvivors(rules, seen, all.table, Uuid(d));
    }
    SettledListChangesNothing(rules, Outcome(once.table, once.default, [], [], []), list);
    SurvivorsTwice(rules, seen, all.table);
  }

  // ---- The two syncs of the source ----

  function LockRules(prune: bool, base: Record -> Text, place: (Table, Text) -> nat): Rules {
    Rules(d => IsModel(Get(d, MODEL), LOCK_MODELS) && Truthy(Get(d, UUID)) && Truthy(Get(d, SECRET_KEY)),
          LOCK, prune, true, _ => false, base, place)
  }

  /** parents: the Hub3 each remote points at. */
  function Hub3Rules(parents: seq<Text>, prune: bool, base: Record -> Text, place: (Table, Text) -> nat): Rules {
    Rules(d => IsModel(Get(d, MODEL), HUB3_MODELS) && Truthy(Get(d, UUID)),
          HUB3, prune, false, name => name in parents, base, place)
  }

  /** A Hub3 that a remote points at keeps its name through every sync, of either kind. */
  lemma PointedHub3Stays(parents: seq<Text>, prune: bool, base: Record -> Text, place: (Table, Text) -> nat,
                         t: Table, default: Option<Text>, list: seq<Record>, e: Entry)
    requires e in t && e.name in parents && EffectiveCategory(e.rec) == Some(HUB3)
    ensures HasEntry(Synced(Hub3Rules(parents, prune, base, place), t, default, list).table, e.name, Uuid(e.rec))
    ensures HasEntry(Synced(LockRules(prune, base, place), t, default, list).table, e.name, Uuid(e.rec))
  {
    TwoViews();
    EntryKeepsItsName(Hub3Rules(parents, prune, base, place), t, default, list, e);
    EntryKeepsItsName(LockRules(prune, base, place), t, default, list, e);
  }

  /**
   * A lock sync prunes nothing but what the lock view shows, and a Hub3 sync nothing but what
   * the Hub3 view shows: entries of the other view, and of neither, keep their names.
   */
  lemma OtherViewStays(parents: seq<Text>, prune: bool, base: Record -> Text, place: (Table, Text) -> nat,
                       t: Table, default: Option<Text>, list: seq<Record>, e: Entry)
    requires e in t
    ensures EffectiveCategory(e.rec) != Some(LOCK) ==>
      HasEntry(Synced(LockRules(prune, base, place), t, default, list).table, e.name, Uuid(e.rec))
    ensures EffectiveCategory(e.rec) != Some(HUB3) ==>
      HasEntry(Synced(Hub3Rules(parents, prune, base, place), t, default, list).table, e.name, Uuid(e.rec))
  {
    if EffectiveCategory(e.rec) != Some(LOCK) {
      EntryKeepsItsName(LockRules(prune, base, place), t, default, list, e);
    }
    if EffectiveCategory(e.rec) != Some(HUB3) {
      EntryKeepsItsName(Hub3Rules(parents, prune, base, place), t, default, list, e);
    }
  }

  lemma TwoViews()
    ensures LOCK != HUB3
  {
    assert |LOCK.s| == 4 && LOCK.s[0] == 108 && HUB3.s[0] == 104;
  }

  /** An existing record is replaced exactly when it differs in more than key order. */
  lemma ReplacedExactlyWhenChanged(d: Record, existing: Record)
    requires Valid(Obj(Updated(d, existing))) && Valid(Obj(existing))
    ensures Differs(Updated(d, existing), existing) <==> !Same(Obj(Updated(d, existing)), Obj(existing))
  {
    CanonicalExactlyWhenSame(Obj(Updated(d, existing)), Obj(existing));
  }

  // ---- The loop of the source ----

  method FindEntry(t: Table, u: Text) returns (i: nat)
    ensures i <= |t| && forall k :: 0 <= k < i ==> Uuid(t[k].rec) != u
    ensures i < |t| ==> Uuid(t[i].rec) == u
  {
    i := 0;
    while i < |t| && Uuid(t[i].rec) != u
      invariant i <= |t| && forall k :: 0 <= k < i ==> Uuid(t[k].rec) != u
    {
      i := i + 1;
    }
  }

  lemma {:induction false} FirstMatch(t: Table, i: nat, u: Text, r: Record)
    requires i <= |t| && (i < |t| ==> Uuid(t[i].rec) == u)
    requires forall k :: 0 <= k < i ==> Uuid(t[k].rec) != u
    ensures i == |t| ==> Match(t, u) == None
    ensures i < |t| ==> Match(t, u) == Some(t[i].rec) && MatchName(t, u) == t[i].name
    ensures i < |t| ==> SetMatch(t, u, r) == t[i := Entry(t[i].name, r)]
  {
    if i > 0 {
      assert Uuid(t[0].rec) != u;
      FirstMatch(t[1..], i - 1, u, r);
      if i < |t| {
        UpdateTail(t, i, Entry(t[i].name, r));
      }
    } else if t != [] {
      UpdateHead(t, Entry(t[0].name, r));
    }
  }

  lemma UpdateTail(t: Table, i: nat, e: Entry)
    requires 0 < i < |t|
    ensures t[i := e] == [t[0]] + t[1..][i - 1 := e]
  {
  }

  lemma UpdateHead(t: Table, e: Entry)
    requires t != []
    ensures t[0 := e] == [e] + t[1..]
  {
  }

  function RemoveName(t: Table, name: Text): Table {
    if t == [] then [] else if t[0].name == name then t[1..] else [t[0]] + RemoveName(t[1..], name)
  }

  lemma {:induction false} RemoveNameAt(t: Table, i: nat)
    requires i < |t| && DistinctNames(t)
    ensures RemoveName(t, t[i].name) == t[..i] + t[i + 1..]
  {
    if i > 0 {
      assert t[0].name != t[i].name && t[1..][i - 1] == t[i];
      RemoveNameAt(t[1..], i - 1);
      WithoutEntry(t, i);
    }
  }

  lemma WithoutEntry(t: Table, i: nat)
    requires 0 < i < |t|
    ensures t[..i] + t[i + 1..] == [t[0]] + (t[1..][..i - 1] + t[1..][i..])
  {
  }

  lemma {:induction false} SurvivorsNext(rules: Rules, seen: set<Text>, t: Table, e: Entry)
    ensures Survivors(rules, seen, t + [e])
         == Survivors(rules, seen, t) + if Doomed(rules, seen, e) then [] else [e]
  {
    if t == [] {
      assert t + [e] == [e] && [e][1..] == [];
    } else {
      assert (t + [e])[1..] == t[1..] + [e];
      SurvivorsNext(rules, seen, t[1..], e);
    }
  }

  lemma {:induction false} DoomedNamesNext(rules: Rules, seen: set<Text>, t: Table, e: Entry)
    ensures DoomedNames(rules, seen, t + [e])
         == DoomedNames(rules, seen, t) + if Doomed(rules, seen, e) then [e.name] else []
  {
    if t == [] {
      assert t + [e] == [e] && [e][1..] == [];
    } else {
      assert (t + [e])[1..] == t[1..] + [e];
      DoomedNamesNext(rules, seen, t[1..], e);
    }
  }

  lemma Shift(kept: Table, e: Entry, rest: Table)
    ensures kept + ([e] + rest) == kept + [e] + rest
  {
  }

  /** One round of the prune loop: kept is what survives so far, rest is still to come. */
  lemma RemoveNext(kept: Table, e: Entry, rest: Table)
    requires DistinctNames(kept + ([e] + rest))
    ensures RemoveName(kept + ([e] + rest), e.name) == kept + rest
    ensures DistinctNames(kept + rest)
  {
    var t := kept + ([e] + rest);
    RemoveNameAt(t, |kept|);
    assert t[..|kept|] == kept && t[|kept| + 1..] == rest && t[|kept|] == e;
    forall i, j | 0 <= i < j < |kept + rest| ensures (kept + rest)[i].name != (kept + rest)[j].name {
      var i', j' := if i < |kept| then i else i + 1, if j < |kept| then j else j + 1;
      assert t[i'] == (kept + rest)[i] && t[j'] == (kept + rest)[j];
    }
  }

  lemma NextEntry(entries: Table, i: nat)
    requires i < |entries|
    ensures entries[..i + 1] == entries[..i] + [entries[i]]
    ensures entries[i..] == [entries[i]] + entries[i + 1..]
  {
  }

  lemma PruneRound(rules: Rules, seen: set<Text>, entries: Table, i: nat, devices: Table)
    requires i < |entries| && DistinctNames(devices)
    requires devices == Survivors(rules, seen, entries[..i]) + entries[i..]
    ensures var next := if Doomed(rules, seen, entries[i]) then RemoveName(devices, entries[i].name) else devices;
            next == Survivors(rules, seen, entries[..i + 1]) + entries[i + 1..] && DistinctNames(next)
    ensures DoomedNames(rules, seen, entries[..i + 1])
         == DoomedNames(rules, seen, entries[..i])
            + if Doomed(rules, seen, entries[i]) then [entries[i].name] else []
  {
    var kept := Survivors(rules, seen, entries[..i]);
    SurvivorsNext(rules, seen, entries[..i], entries[i]);
    DoomedNamesNext(rules, seen, entries[..i], entries[i]);
    NextEntry(entries, i);
    RemoveNext(kept, entries[i], entries[i + 1..]);
    Shift(kept, entries[i], entries[i + 1..]);
  }

  /** One round of the prune loop. */
  function PruneOne(rules: Rules, seen: set<Text>, o: Outcome, e: Entry): Outcome {
    if Doomed(rules, seen, e) then
      o.(table := RemoveName(o.table, e.name), default := if o.default == Some(e.name) then None else o.default,
         removed := o.removed + [e.name])
    else o
  }

  /** The first i entries have been looked at. */
  predicate Pruning(rules: Rules, seen: set<Text>, entries: Table, default: Option<Text>, i: nat, o: Outcome)
    requires i <= |entries|
  {
    && o.table == Survivors(rules, seen, entries[..i]) + entries[i..]
    && DistinctNames(o.table)
    && o.removed == DoomedNames(rules, seen, entries[..i])
    && o.default == if default.Some? && default.value in o.removed then None else default
  }

  lemma PruningGoesOn(rules: Rules, seen: set<Text>, entries: Table, default: Option<Text>, i: nat, o: Outcome)
    requires i < |entries| && Pruning(rules, seen, entries, default, i, o)
    ensures Pruning(rules, seen, entries, default, i + 1, PruneOne(rules, seen, o, entries[i]))
  {
    PruneRound(rules, seen, entries, i, o.table);
  }

  lemma PruningEnds(rules: Rules, seen: set<Text>, entries: Table, default: Option<Text>, o: Outcome)
    requires Pruning(rules, seen, entries, default, |entries|, o) && o.added == o.updated == []
    ensures o == Pruned(rules, seen, Outcome(entries, default, [], [], []))
  {
    assert entries[..|entries|] == entries;
  }

  class DeviceTable {
    var devices: Table
    var defaultLock: Option<Text>

    constructor (devices: Table, defaultLock: Option<Text>)
      ensures this.devices == devices && this.defaultLock == defaultLock
    {
      this.devices := devices;
      this.defaultLock := defaultLock;
    }

    function AsOutcome(added: seq<Text>, updated: seq<Text>, removed: seq<Text>): Outcome
      reads this
    {
      Outcome(devices, defaultLock, added, updated, removed)
    }

    /** Takes in one accepted device: update the entry of its UUID, or add one. */
    method TakeIn(rules: Rules, d: Record, added: seq<Text>, updated: seq<Text>)
      returns (added': seq<Text>, updated': seq<Text>)
      requires rules.accept(d)
      modifies this
      ensures AsOutcome(added', updated', []) == SyncOne(rules, old(AsOutcome(added, updated, [])), d)
    {
      added', updated' := added, updated;
      var rec := Sanitized(d);
      var i := FindEntry(devices, Uuid(d));
      if i < |devices| {
        var merged := Carry(rec, devices[i].rec, LOCAL_ONLY_KEYS);
        FirstMatch(devices, i, Uuid(d), merged);
        if Differs(merged, devices[i].rec) {
          updated' := updated + [devices[i].name];
          devices := devices[i := Entry(devices[i].name, merged)];
        }
      } else {
        FirstMatch(devices, i, Uuid(d), rec);
        var name := FindUniqueName(Names(devices), rules.base(d));
        devices := InsertAt(devices, rules.place(devices, name), Entry(name, rec));
        if rules.setsDefault && (defaultLock.None? || defaultLock == Some([])) {
          defaultLock := Some(name);
        }
        added' := added + [name];
      }
    }

    method Prune(rules: Rules, seen: set<Text>) returns (removed: seq<Text>)
      requires DistinctNames(devices)
      modifies this
      ensures AsOutcome([], [], removed) == Pruned(rules, seen, old(AsOutcome([], [], [])))
    {
      removed := [];
      var entries := devices;
      ghost var default := defaultLock;
      for i := 0 to |entries|
        invariant Pruning(rules, seen, entries, default, i, AsOutcome([], [], removed))
      {
        PruningGoesOn(rules, seen, entries, default, i, AsOutcome([], [], removed));
        if Doomed(rules, seen, entries[i]) {
          devices := RemoveName(devices, entries[i].name);
          if defaultLock == Some(entries[i].name) {
            defaultLock := None;
          }
          removed := removed + [entries[i].name];
        }
      }
      PruningEnds(rules, seen, entries, default, AsOutcome([], [], removed));
    }

    method SyncDevices(rules: Rules, list: seq<Record>)
      returns (added: seq<Text>, updated: seq<Text>, removed: seq<Text>)
      requires DistinctNames(devices)
      modifies this
      ensures AsOutcome(added, updated, removed) == Synced(rules, old(devices), old(defaultLock), list)
    {
      added, updated, removed := [], [], [];
      var seen: set<Text> := {};
      ghost var start := AsOutcome([], [], []);
      for i := 0 to |list|
        invariant seen == Seen(rules, list[..i])
        invariant SyncAll(rules, AsOutcome(added, updated, []), list[i..]) == SyncAll(rules, start, list)
      {
        SeenGrows(rules, list, i);
        assert list[i..][1..] == list[i + 1..];
        if rules.accept(list[i]) {
          seen := seen + {Uuid(list[i])};
          added, updated := TakeIn(rules, list[i], added, updated);
        }
      }
      assert list[..|list|] == list;
      NamesStayDistinct(rules, start, list);
      if rules.prune {
        removed := Prune(rules, seen);
      }
    }
  }

  lemma SeenGrows(rules: Rules, list: seq<Record>, i: nat)
    requires i < |list|
    ensures Seen(rules, list[..i + 1])
         == Seen(rules, list[..i]) + if rules.accept(list[i]) then {Uuid(list[i])} else {}
  {
    assert list[..i + 1] == list[..i] + [list[i]];
  }
}
