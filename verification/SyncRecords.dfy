/**
 * What a device sync (packages/core/src/config.js:685-736) leaves in the records, what it
 * reports and what becomes of the default: laws of DeviceSync that do not mention how a record
 * is put together.
 */
module SyncRecords {
  import opened Wrappers
  import opened Canonical
  import opened DeviceSync

  /** The properties that exist only in the local file. */
  predicate LocalOnly(k: Text) {
    k == Ascii("category") || k == Ascii("ssmPublicKey") || k == Ascii("keyIndex")
  }

  lemma LocalOnlyKeys(k: Text)
    ensures LocalOnly(k) <==> k in LOCAL_ONLY_KEYS
    ensures LocalOnly(k) ==> k != Ascii("stateInfo")
  {
    assert Ascii("category")[0] == 99 && Ascii("keyIndex")[0] == 107;
    assert Ascii("ssmPublicKey")[1] == 115 && Ascii("stateInfo")[1] == 116;
  }

  // ---- Records stay well formed ----

  predicate WellFormed(r: Record) {
    Valid(Obj(r))
  }

  predicate AllWellFormed(t: Table) {
    forall e :: e in t ==> WellFormed(e.rec)
  }

  lemma WellFormedCons(f: Field, r: Record)
    ensures WellFormed([f] + r) <==> Valid(f.value) && WellFormed(r) && Get(r, f.key).None?
  {
    var all := [f] + r;
    GetNone(r, f.key);
    if WellFormed(all) {
      assert all[0] == f;
      forall i | 0 <= i < |r| ensures r[i] == all[i + 1] && r[i].key != f.key {
        assert all[0].key != all[i + 1].key;
      }
    }
  }

  lemma {:induction false} GetNone(r: Record, k: Text)
    ensures Get(r, k).None? <==> forall i :: 0 <= i < |r| ==> r[i].key != k
  {
    if r != [] {
      GetNone(r[1..], k);
      assert (forall i :: 0 <= i < |r[1..]| ==> r[1..][i].key != k) ==> forall i :: 1 <= i < |r| ==> r[i].key != k by {
        if forall i :: 0 <= i < |r[1..]| ==> r[1..][i].key != k {
          forall i | 1 <= i < |r| ensures r[i].key != k {
            assert r[1..][i - 1] == r[i];
          }
        }
      }
    }
  }

  lemma {:induction false} PutWellFormed(r: Record, k: Text, v: Json)
    requires WellFormed(r) && Valid(v)
    ensures WellFormed(Put(r, k, v))
  {
    if r == [] {
      WellFormedCons(Field(k, v), []);
      assert [Field(k, v)] + [] == [Field(k, v)];
    } else {
      assert r == [r[0]] + r[1..];
      WellFormedCons(r[0], r[1..]);
      if r[0].key == k {
        WellFormedCons(Field(k, v), r[1..]);
      } else {
        PutWellFormed(r[1..], k, v);
        GetPut(r[1..], k, v, r[0].key);
        WellFormedCons(r[0], Put(r[1..], k, v));
      }
    }
  }

  lemma {:induction false} WithoutWellFormed(r: Record, k: Text)
    requires WellFormed(r)
    ensures WellFormed(DeviceSync.Without(r, k))
  {
    if r != [] {
      assert r == [r[0]] + r[1..];
      WellFormedCons(r[0], r[1..]);
      WithoutWellFormed(r[1..], k);
      if r[0].key != k {
        GetWithout(r[1..], k, r[0].key);
        WellFormedCons(r[0], DeviceSync.Without(r[1..], k));
      }
    }
  }

  lemma {:induction false} GetValid(r: Record, k: Text)
    requires WellFormed(r) && Get(r, k).Some?
    ensures Valid(Get(r, k).value)
  {
    if r[0].key != k {
      assert r == [r[0]] + r[1..];
      WellFormedCons(r[0], r[1..]);
      GetValid(r[1..], k);
    }
  }

  lemma {:induction false} CarryWellFormed(r: Record, existing: Record, keys: seq<Text>)
    requires WellFormed(r) && WellFormed(existing)
    ensures WellFormed(Carry(r, existing, keys))
  {
    if keys != [] {
      var k := keys[|keys| - 1];
      CarryWellFormed(r, existing, keys[..|keys| - 1]);
      if Get(existing, k).Some? {
        GetValid(existing, k);
        PutWellFormed(Carry(r, existing, keys[..|keys| - 1]), k, Get(existing, k).value);
      }
    }
  }

  lemma UpdatedWellFormed(d: Record, existing: Record)
    requires WellFormed(d) && WellFormed(existing)
    ensures WellFormed(Updated(d, existing)) && WellFormed(Sanitized(d))
  {
    WithoutWellFormed(d, STATE_INFO);
    CarryWellFormed(Sanitized(d), existing, LOCAL_ONLY_KEYS);
  }

  // ---- What a record holds ----

  /** Both have no such property, or the same value up to the order of keys. */
  predicate SameProperty(a: Record, b: Record, k: Text) {
    match (Get(a, k), Get(b, k))
    case (Some(x), Some(y)) => Same(x, y)
    case (x, y) => x.None? && y.None?
  }

  lemma {:induction false} GetAt(r: Record, i: nat)
    requires i < |r| && WellFormed(r)
    ensures Get(r, r[i].key) == Some(r[i].value)
  {
    if i > 0 {
      assert r[0].key != r[i].key;
      assert r == [r[0]] + r[1..];
      WellFormedCons(r[0], r[1..]);
      GetAt(r[1..], i - 1);
    }
  }

  lemma {:induction false} GetIndex(r: Record, k: Text) returns (i: nat)
    requires Get(r, k).Some?
    ensures i < |r| && r[i].key == k && Get(r, k) == Some(r[i].value)
  {
    if r[0].key == k {
      i := 0;
    } else {
      i := GetIndex(r[1..], k);
      i := i + 1;
    }
  }

  lemma SameRecordsAgree(a: Record, b: Record, k: Text)
    requires WellFormed(a) && WellFormed(b) && Same(Obj(a), Obj(b))
    ensures SameProperty(a, b, k)
  {
    if Get(a, k).Some? {
      var i := GetIndex(a, k);
      assert FieldIn(a[i], b);
      var j :| 0 <= j < |b| && a[i].key == b[j].key && Same(a[i].value, b[j].value);
      GetAt(b, j);
    } else if Get(b, k).Some? {
      var j := GetIndex(b, k);
      assert FieldOf(a, b[j]);
      var i :| 0 <= i < |a| && a[i].key == b[j].key && Same(a[i].value, b[j].value);
      GetAt(a, i);
    }
  }

  /** The stored record has the server's value of k. */
  predicate FromServer(r: Record, d: Record, k: Text) {
    if k == Ascii("stateInfo") then Get(r, k).None? else SameProperty(r, d, k)
  }

  lemma SameTwice(a: Record, k: Text)
    requires WellFormed(a)
    ensures SameProperty(a, a, k)
  {
    if Get(a, k).Some? {
      CanonicalExactlyWhenSame(Obj(a), Obj(a));
      SameRecordsAgree(a, a, k);
    }
  }

  /** One device synced over an existing record, property by property. */
  lemma SettledProperties(d: Record, existing: Record, k: Text)
    requires WellFormed(d) && WellFormed(existing)
    ensures WellFormed(Settle(d, existing))
    ensures LocalOnly(k) && Get(existing, k).Some? ==> Get(Settle(d, existing), k) == Get(existing, k)
    ensures !(LocalOnly(k) && Get(existing, k).Some?) ==> FromServer(Settle(d, existing), d, k)
  {
    var u := Updated(d, existing);
    LocalOnlyKeys(k);
    UpdatedWellFormed(d, existing);
    GetCarry(Sanitized(d), existing, LOCAL_ONLY_KEYS, k);
    GetWithout(d, STATE_INFO, k);
    SameTwice(d, k);
    if !Differs(u, existing) {
      CanonicalExactlyWhenSame(Obj(existing), Obj(u));
      SameRecordsAgree(existing, u, k);
    }
  }

  lemma SanitizedProperties(d: Record, k: Text)
    requires WellFormed(d)
    ensures WellFormed(Sanitized(d)) && FromServer(Sanitized(d), d, k)
  {
    WithoutWellFormed(d, STATE_INFO);
    GetWithout(d, STATE_INFO, k);
    SameTwice(d, k);
  }

  // ---- Over a whole sync ----

  lemma {:induction false} SetMatchWellFormed(t: Table, u: Text, r: Record)
    requires AllWellFormed(t) && WellFormed(r)
    ensures AllWellFormed(SetMatch(t, u, r))
  {
    if t != [] {
      assert t[0] in t;
      assert forall e :: e in t[1..] ==> e in t;
      if Uuid(t[0].rec) != u {
        SetMatchWellFormed(t[1..], u, r);
      }
    }
  }

  lemma {:induction false} MatchWellFormed(t: Table, u: Text)
    requires AllWellFormed(t) && Match(t, u).Some?
    ensures WellFormed(Match(t, u).value)
  {
    assert t[0] in t;
    if Uuid(t[0].rec) != u {
      assert forall e :: e in t[1..] ==> e in t;
      MatchWellFormed(t[1..], u);
    }
  }

  lemma OneKeepsWellFormed(rules: Rules, o: Outcome, d: Record)
    requires AllWellFormed(o.table) && WellFormed(d)
    ensures AllWellFormed(SyncOne(rules, o, d).table)
  {
    var found := Match(o.table, Uuid(d));
    if rules.accept(d) && found.Some? {
      MatchWellFormed(o.table, Uuid(d));
      UpdatedWellFormed(d, found.value);
      SetMatchWellFormed(o.table, Uuid(d), Updated(d, found.value));
    } else if rules.accept(d) {
      WithoutWellFormed(d, STATE_INFO);
      var name := NewName(rules, o.table, d);
      forall e | e in SyncOne(rules, o, d).table ensures WellFormed(e.rec) {
        InsertKeeps(o.table, rules.place(o.table, name), Entry(name, Sanitized(d)), e);
      }
    }
  }

  lemma {:induction false} MatchUntouched(rules: Rules, o: Outcome, list: seq<Record>, u: Text)
    requires forall j :: 0 <= j < |list| && rules.accept(list[j]) ==> Uuid(list[j]) != u
    ensures Match(SyncAll(rules, o, list).table, u) == Match(o.table, u)
    decreases |list|
  {
    if list != [] {
      MatchAfterOne(rules, o, list[0], u);
      MatchUntouched(rules, SyncOne(rules, o, list[0]), list[1..], u);
    }
  }

  /** The last device of a UUID decides. */
  predicate LastOfItsUuid(rules: Rules, list: seq<Record>, l: nat) {
    l < |list| && rules.accept(list[l])
    && forall j :: l < j < |list| && rules.accept(list[j]) ==> Uuid(list[j]) != Uuid(list[l])
  }

  predicate AllServer(list: seq<Record>) {
    forall d :: d in list ==> WellFormed(d)
  }

  lemma RestOfServer(list: seq<Record>)
    requires AllServer(list) && list != []
    ensures WellFormed(list[0]) && AllServer(list[1..])
  {
    assert list[0] in list;
    assert forall d :: d in list[1..] ==> d in list;
  }

  lemma LastOfRest(rules: Rules, list: seq<Record>, l: nat)
    requires LastOfItsUuid(rules, list, l)
    ensures l > 0 ==> list[1..][l - 1] == list[l] && LastOfItsUuid(rules, list[1..], l - 1)
    ensures l == 0 ==>
      forall j :: 0 <= j < |list[1..]| && rules.accept(list[1..][j]) ==> Uuid(list[1..][j]) != Uuid(list[0])
  {
    forall j | 0 <= j < |list[1..]| ensures list[1..][j] == list[j + 1] {
    }
  }

  /** The record under a UUID has the server's value of every property that is not local. */
  predicate Holds(t: Table, d: Record, k: Text) {
    var found := Match(t, Uuid(d));
    found.Some? && (LocalOnly(k) || FromServer(found.value, d, k))
  }

  lemma {:induction false} ServerValueAfterAll(rules: Rules, o: Outcome, list: seq<Record>, l: nat, k: Text)
    requires AllWellFormed(o.table) && AllServer(list) && LastOfItsUuid(rules, list, l)
    ensures Holds(SyncAll(rules, o, list).table, list[l], k)
    decreases |list|
  {
    var o' := SyncOne(rules, o, list[0]);
    RestOfServer(list);
    LastOfRest(rules, list, l);
    if l > 0 {
      OneKeepsWellFormed(rules, o, list[0]);
      ServerValueAfterAll(rules, o', list[1..], l - 1, k);
    } else {
      ServerValueAfterOne(rules, o, list[0], k);
      MatchUntouched(rules, o', list[1..], Uuid(list[0]));
    }
  }

  lemma ServerValueAfterOne(rules: Rules, o: Outcome, d: Record, k: Text)
    requires AllWellFormed(o.table) && WellFormed(d) && rules.accept(d)
    ensures Holds(SyncOne(rules, o, d).table, d, k)
  {
    MatchAfterOne(rules, o, d, Uuid(d));
    SanitizedProperties(d, k);
    if Match(o.table, Uuid(d)).Some? {
      MatchWellFormed(o.table, Uuid(d));
      SettledProperties(d, Match(o.table, Uuid(d)).value, k);
    }
  }

  /**
   * After a sync, pruning or not, the record of every accepted device is the server's: each
   * property except the three local ones has the value the list gives it last, up to key
   * order, a property the server dropped is gone, and stateInfo is never stored.
   */
  lemma SyncedRecordIsServers(
      rules: Rules, t: Table, default: Option<Text>, list: seq<Record>, l: nat, k: Text)
    requires AllWellFormed(t) && AllServer(list) && LastOfItsUuid(rules, list, l)
    requires !LocalOnly(k)
    ensures var found := Match(Synced(rules, t, default, list).table, Uuid(list[l]));
            found.Some? && FromServer(found.value, list[l], k)
  {
    var o := Outcome(t, default, [], [], []);
    ServerValueAfterAll(rules, o, list, l, k);
    assert list[l] in list && Uuid(list[l]) in Seen(rules, list);
    MatchSurvivors(rules, Seen(rules, list), SyncAll(rules, o, list).table, Uuid(list[l]));
  }

  lemma {:induction false} LocalValueAfterAll(rules: Rules, o: Outcome, list: seq<Record>, u: Text, k: Text)
    requires AllWellFormed(o.table) && AllServer(list) && LocalOnly(k)
    requires Match(o.table, u).Some? && Get(Match(o.table, u).value, k).Some?
    ensures var found := Match(SyncAll(rules, o, list).table, u);
            found.Some? && Get(found.value, k) == Get(Match(o.table, u).value, k)
    decreases |list|
  {
    if list != [] {
      RestOfServer(list);
      MatchWellFormed(o.table, u);
      OneKeepsWellFormed(rules, o, list[0]);
      MatchAfterOne(rules, o, list[0], u);
      SettledProperties(list[0], Match(o.table, u).value, k);
      LocalValueAfterAll(rules, SyncOne(rules, o, list[0]), list[1..], u, k);
    }
  }

  /** A local property that an entry has, such as its stored key material, survives every sync that mentions it. */
  lemma LocalPropertyStays(
      rules: Rules, t: Table, default: Option<Text>, list: seq<Record>, u: Text, k: Text)
    requires AllWellFormed(t) && AllServer(list)
    requires k == Ascii("category") || k == Ascii("ssmPublicKey") || k == Ascii("keyIndex")
    requires Match(t, u).Some? && Get(Match(t, u).value, k).Some? && u in Seen(rules, list)
    ensures var found := Match(Synced(rules, t, default, list).table, u);
            found.Some? && Get(found.value, k) == Get(Match(t, u).value, k)
  {
    var o := Outcome(t, default, [], [], []);
    LocalValueAfterAll(rules, o, list, u, k);
    MatchSurvivors(rules, Seen(rules, list), SyncAll(rules, o, list).table, u);
  }

  // ---- What is reported ----

  function RecordOf(t: Table, name: Text): Option<Record> {
    if t == [] then None else if t[0].name == name then Some(t[0].rec) else RecordOf(t[1..], name)
  }

  lemma {:induction false} RecordOfName(t: Table, name: Text)
    ensures RecordOf(t, name).Some? <==> HasName(t, name)
    ensures RecordOf(t, name).Some? ==> Entry(name, RecordOf(t, name).value) in t
  {
    if t != [] {
      RecordOfName(t[1..], name);
      assert t[0] in t && forall e :: e in t <==> e == t[0] || e in t[1..];
    }
  }

  lemma RecordOfEntry(t: Table, e: Entry)
    requires DistinctNames(t) && e in t
    ensures RecordOf(t, e.name) == Some(e.rec)
  {
    RecordOfName(t, e.name);
    assert HasName(t, e.name);
    var r := RecordOf(t, e.name).value;
    var i :| 0 <= i < |t| && t[i] == e;
    var j :| 0 <= j < |t| && t[j] == Entry(e.name, r);
    assert i == j;
  }

  /** An entry that stays as it is keeps its record under its name. */
  lemma SameEntrySameRecord(t: Table, t': Table, e: Entry)
    requires DistinctNames(t) && DistinctNames(t') && e in t && e in t'
    ensures RecordOf(t, e.name) == RecordOf(t', e.name) == Some(e.rec)
  {
    RecordOfEntry(t, e);
    RecordOfEntry(t', e);
  }

  lemma {:induction false} SetMatchEntry(t: Table, u: Text, r: Record)
    requires DistinctNames(t) && Match(t, u).Some?
    ensures var m := MatchName(t, u);
            && Entry(m, Match(t, u).value) in t && Entry(m, r) in SetMatch(t, u, r)
            && forall e: Entry :: e.name != m ==> (e in SetMatch(t, u, r) <==> e in t)
  {
    var t' := SetMatch(t, u, r);
    if Uuid(t[0].rec) == u {
      assert t[0] in t && t'[0] in t' && t'[1..] == t[1..];
      assert forall e :: e in t <==> e == t[0] || e in t[1..];
      assert forall e :: e in t' <==> e == t'[0] || e in t[1..];
    } else {
      SetMatchEntry(t[1..], u, r);
      assert forall e :: e in t <==> e == t[0] || e in t[1..];
      assert forall e :: e in t' <==> e == t[0] || e in SetMatch(t[1..], u, r);
    }
  }

  lemma OthersKeepRecord(t: Table, t': Table, m: Text, n: Text)
    requires DistinctNames(t) && DistinctNames(t') && n != m
    requires forall e: Entry :: e.name != m ==> (e in t' <==> e in t)
    ensures RecordOf(t', n) == RecordOf(t, n)
  {
    RecordOfName(t, n);
    RecordOfName(t', n);
    if RecordOf(t, n).Some? {
      SameEntrySameRecord(t, t', Entry(n, RecordOf(t, n).value));
    }
  }

  /** What one device does to the record of each name. */
  lemma RecordAfterOne(rules: Rules, o: Outcome, d: Record, n: Text)
    requires DistinctNames(o.table)
    ensures DistinctNames(SyncOne(rules, o, d).table)
    ensures var o', found := SyncOne(rules, o, d), Match(o.table, Uuid(d));
            if rules.accept(d) && found.Some? && Differs(Updated(d, found.value), found.value) then
              var m := MatchName(o.table, Uuid(d));
              && o'.updated == o.updated + [m] && o'.added == o.added
              && Entry(m, found.value) in o.table && Entry(m, Updated(d, found.value)) in o'.table
              && (n != m ==> RecordOf(o'.table, n) == RecordOf(o.table, n))
            else if rules.accept(d) && found.None? then
              var m := NewName(rules, o.table, d);
              && o'.updated == o.updated && o'.added == o.added + [m]
              && !HasName(o.table, m) && Entry(m, Sanitized(d)) in o'.table
              && (n != m ==> RecordOf(o'.table, n) == RecordOf(o.table, n))
            else o' == o
  {
    var o', found := SyncOne(rules, o, d), Match(o.table, Uuid(d));
    DistinctNamesAfterOne(rules, o, d);
    if rules.accept(d) && found.Some? && Differs(Updated(d, found.value), found.value) {
      var m := MatchName(o.table, Uuid(d));
      SetMatchEntry(o.table, Uuid(d), Updated(d, found.value));
      if n != m {
        OthersKeepRecord(o.table, o'.table, m, n);
      }
    } else if rules.accept(d) && found.None? {
      var m := NewName(rules, o.table, d);
      UniqueNameIsFresh(Names(o.table), rules.base(d));
      forall e ensures e in o'.table <==> e in o.table || e == Entry(m, Sanitized(d)) {
        InsertKeeps(o.table, rules.place(o.table, m), Entry(m, Sanitized(d)), e);
      }
      if n != m {
        OthersKeepRecord(o.table, o'.table, m, n);
      }
    }
  }

  lemma RestOmits(rules: Rules, list: seq<Record>)
    requires list != [] && DistinctDevices(rules, list) && rules.accept(list[0])
    ensures Uuid(list[0]) !in Seen(rules, list[1..])
  {
    var rest := list[1..];
    forall x | x in rest && rules.accept(x) ensures Uuid(x) != Uuid(list[0]) {
      var k :| 0 <= k < |rest| && rest[k] == x;
      assert list[k + 1] == x;
    }
  }

  lemma RestIsDistinct(rules: Rules, list: seq<Record>)
    requires list != [] && DistinctDevices(rules, list)
    ensures DistinctDevices(rules, list[1..])
  {
    forall i, j | 0 <= i < j < |list[1..]| && rules.accept(list[1..][i]) && rules.accept(list[1..][j])
      ensures Uuid(list[1..][i]) != Uuid(list[1..][j])
    {
      assert list[1..][i] == list[i + 1] && list[1..][j] == list[j + 1];
    }
  }

  /** The entry a device has been filed in is not touched by the rest of the list. */
  lemma FiledForGood(rules: Rules, o: Outcome, list: seq<Record>, m: Text, r: Record)
    requires DistinctNames(o.table) && Entry(m, r) in o.table && Uuid(r) !in Seen(rules, list)
    ensures RecordOf(SyncAll(rules, o, list).table, m) == Some(r)
  {
    SparedByAll(rules, o, list, Entry(m, r));
    NamesStayDistinct(rules, o, list);
    RecordOfEntry(SyncAll(rules, o, list).table, Entry(m, r));
  }

  lemma {:induction false} ReportsAfterAll(rules: Rules, o: Outcome, list: seq<Record>, n: Text)
    requires DistinctNames(o.table) && DistinctDevices(rules, list)
    ensures var all := SyncAll(rules, o, list);
            && (n in all.added <==> n in o.added || (HasName(all.table, n) && !HasName(o.table, n)))
            && (n in all.updated <==>
                  n in o.updated || (HasName(o.table, n) && RecordOf(all.table, n) != RecordOf(o.table, n)))
            && all.removed == o.removed
    decreases |list|
  {
    if list != [] {
      var d := list[0];
      var o', found, all := SyncOne(rules, o, d), Match(o.table, Uuid(d)), SyncAll(rules, o, list);
      RecordAfterOne(rules, o, d, n);
      RestIsDistinct(rules, list);
      ReportsAfterAll(rules, o', list[1..], n);
      RecordOfName(o.table, n);
      RecordOfName(o'.table, n);
      RecordOfName(all.table, n);
      if rules.accept(d) {
        RestOmits(rules, list);
        if found.None? {
          var m := NewName(rules, o.table, d);
          LocalKeys();
          GetWithout(d, STATE_INFO, UUID);
          FiledForGood(rules, o', list[1..], m, Sanitized(d));
          RecordOfEntry(o'.table, Entry(m, Sanitized(d)));
        } else if Differs(Updated(d, found.value), found.value) {
          var m := MatchName(o.table, Uuid(d));
          MatchUuid(o.table, Uuid(d));
          SettledUuid(d, found.value);
          FiledForGood(rules, o', list[1..], m, Updated(d, found.value));
          RecordOfEntry(o'.table, Entry(m, Updated(d, found.value)));
          RecordOfEntry(o.table, Entry(m, found.value));
        }
      }
    }
  }

  /** An entry of the list's devices, or one that was there before. */
  lemma {:induction false} NewEntriesAreSeen(rules: Rules, o: Outcome, list: seq<Record>, e: Entry)
    requires DistinctNames(o.table)
    requires e in SyncAll(rules, o, list).table
    ensures Uuid(e.rec) in Seen(rules, list) || HasName(o.table, e.name)
    decreases |list|
  {
    if list != [] {
      var d := list[0];
      var o' := SyncOne(rules, o, d);
      assert list == [d] + list[1..] && (rules.accept(d) ==> Uuid(d) in Seen(rules, list));
      RecordAfterOne(rules, o, d, e.name);
      NewEntriesAreSeen(rules, o', list[1..], e);
      if Uuid(e.rec) !in Seen(rules, list) && !HasName(o.table, e.name) {
        RecordOfName(o.table, e.name);
        RecordOfName(o'.table, e.name);
        var m := NewName(rules, o.table, d);
        LocalKeys();
        GetWithout(d, STATE_INFO, UUID);
        AllKeepEntry(rules, o', list[1..], Entry(m, Sanitized(d)));
        var e' :| e' in SyncAll(rules, o, list).table && e'.name == m && Uuid(e'.rec) == Uuid(Sanitized(d));
        NamesStayDistinct(rules, o', list[1..]);
        RecordOfEntry(SyncAll(rules, o, list).table, e');
        RecordOfEntry(SyncAll(rules, o, list).table, e);
      }
    }
  }

  lemma ReportedNames(rules: Rules, seen: set<Text>, t: Table, n: Text)
    requires DistinctNames(t)
    ensures DistinctNames(Survivors(rules, seen, t))
    ensures n in DoomedNames(rules, seen, t) <==> HasName(t, n) && !HasName(Survivors(rules, seen, t), n)
    ensures HasName(Survivors(rules, seen, t), n) ==> RecordOf(Survivors(rules, seen, t), n) == RecordOf(t, n)
    ensures RecordOf(t, n).Some? ==>
      (HasName(Survivors(rules, seen, t), n) <==> !Doomed(rules, seen, Entry(n, RecordOf(t, n).value)))
  {
    var left := Survivors(rules, seen, t);
    SurvivorsKeepNamesDistinct(rules, seen, t);
    RecordOfName(t, n);
    RecordOfName(left, n);
    DoomedNamesAre(rules, seen, t, n);
    if HasName(t, n) {
      var e := Entry(n, RecordOf(t, n).value);
      SurvivorsExactly(rules, seen, t, e);
      if HasName(left, n) {
        var e' := Entry(n, RecordOf(left, n).value);
        SurvivorsExactly(rules, seen, t, e');
        RecordOfEntry(t, e');
      }
    } else if HasName(left, n) {
      SurvivorsExactly(rules, seen, t, Entry(n, RecordOf(left, n).value));
    }
  }

  lemma {:induction false} DoomedNamesAre(rules: Rules, seen: set<Text>, t: Table, n: Text)
    requires DistinctNames(t)
    ensures n in DoomedNames(rules, seen, t) <==>
      RecordOf(t, n).Some? && Doomed(rules, seen, Entry(n, RecordOf(t, n).value))
  {
    if t != [] {
      DoomedNamesAre(rules, seen, t[1..], n);
      RecordOfName(t[1..], n);
    }
  }

  /** What is new or changed is of the list, so it is not pruned. */
  lemma ChangedIsKept(rules: Rules, o: Outcome, list: seq<Record>, n: Text)
    requires DistinctNames(o.table) && HasName(SyncAll(rules, o, list).table, n)
    requires RecordOf(o.table, n) != RecordOf(SyncAll(rules, o, list).table, n)
    ensures RecordOf(SyncAll(rules, o, list).table, n).Some?
    ensures Uuid(RecordOf(SyncAll(rules, o, list).table, n).value) in Seen(rules, list)
  {
    var t, all, seen := o.table, SyncAll(rules, o, list).table, Seen(rules, list);
    NamesStayDistinct(rules, o, list);
    RecordOfName(t, n);
    RecordOfName(all, n);
    if HasName(t, n) {
      var e := Entry(n, RecordOf(t, n).value);
      if Uuid(e.rec) in seen {
        AllKeepEntry(rules, o, list, e);
        var e' :| e' in all && e'.name == n && Uuid(e'.rec) == Uuid(e.rec);
        RecordOfEntry(all, e');
      } else {
        SparedByAll(rules, o, list, e);
        SameEntrySameRecord(t, all, e);
      }
    } else {
      NewEntriesAreSeen(rules, o, list, Entry(n, RecordOf(all, n).value));
    }
  }

  /**
   * A sync reports exactly what it does: as added the names that are new, as removed those
   * that are gone, and as updated those whose record is another one now.
   */
  lemma ReportsAreExact(rules: Rules, t: Table, default: Option<Text>, list: seq<Record>, n: Text)
    requires DistinctNames(t) && DistinctDevices(rules, list)
    ensures var out := Synced(rules, t, default, list);
            && (n in out.added <==> HasName(out.table, n) && !HasName(t, n))
            && (n in out.removed <==> HasName(t, n) && !HasName(out.table, n))
            && (n in out.updated <==>
                  HasName(t, n) && HasName(out.table, n) && RecordOf(out.table, n) != RecordOf(t, n))
  {
    var o := Outcome(t, default, [], [], []);
    var all, out := SyncAll(rules, o, list), Synced(rules, t, default, list);
    ReportsAfterAll(rules, o, list, n);
    PruneReports(rules, o, list, out, n);
    RecordOfName(t, n);
    RecordOfName(all.table, n);
    RecordOfName(out.table, n);
  }

  /** What pruning adds to the reports, and that it spares what is new or changed. */
  lemma PruneReports(rules: Rules, o: Outcome, list: seq<Record>, out: Outcome, n: Text)
    requires DistinctNames(o.table)
    requires var all := SyncAll(rules, o, list);
             all.removed == [] && out == if rules.prune then Pruned(rules, Seen(rules, list), all) else all
    ensures var all := SyncAll(rules, o, list);
            && out.added == all.added && out.updated == all.updated
            && (HasName(o.table, n) ==> HasName(all.table, n))
            && (n in out.removed <==> HasName(all.table, n) && !HasName(out.table, n))
            && (RecordOf(out.table, n).Some? ==> RecordOf(out.table, n) == RecordOf(all.table, n))
            && (HasName(all.table, n) && RecordOf(o.table, n) != RecordOf(all.table, n) ==> HasName(out.table, n))
  {
    var all := SyncAll(rules, o, list);
    NamesStayDistinct(rules, o, list);
    ReportedNames(rules, Seen(rules, list), all.table, n);
    RecordOfName(all.table, n);
    RecordOfName(out.table, n);
    if HasName(all.table, n) && RecordOf(o.table, n) != RecordOf(all.table, n) {
      ChangedIsKept(rules, o, list, n);
    }
  }

  // ---- The default ----

  predicate Unset(default: Option<Text>) {
    default.None? || default.value == []
  }

  lemma PrefixKeeps(a: seq<Text>, b: seq<Text>, x: Text)
    requires a <= b && x in a
    ensures x in b
  {
  }

  lemma {:induction false} DefaultAfterAll(rules: Rules, o: Outcome, list: seq<Record>)
    ensures var all := SyncAll(rules, o, list);
            && o.added <= all.added && all.removed == o.removed
            && (!(rules.setsDefault && Unset(o.default)) ==> all.default == o.default)
            && (all.default != o.default ==> all.default.Some? && all.default.value in all.added)
            && (rules.setsDefault && Unset(o.default) && |all.added| > |o.added| ==>
                  all.default.Some? && all.default.value in all.added)
    decreases |list|
  {
    if list != [] {
      var o' := SyncOne(rules, o, list[0]);
      DefaultAfterAll(rules, o', list[1..]);
      forall x | x in o'.added ensures x in SyncAll(rules, o, list).added {
        PrefixKeeps(o'.added, SyncAll(rules, o, list).added, x);
      }
    }
  }

  /**
   * The default lock after a sync is one that is still there, or none: one already set stays
   * unless it was removed, a sync that may not set it leaves it alone otherwise, and the first
   * lock added to a file without a default becomes it.
   */
  lemma DefaultFollowsTable(rules: Rules, t: Table, default: Option<Text>, list: seq<Record>)
    ensures var out := Synced(rules, t, default, list);
            && (out.default.Some? ==> out.default.value !in out.removed)
            && (default.Some? && default.value in out.removed && !(rules.setsDefault && Unset(default)) ==>
                  out.default.None?)
            && (default.Some? && default.value !in out.removed && !(rules.setsDefault && Unset(default)) ==>
                  out.default == default)
            && (default.None? && out.default.Some? ==> rules.setsDefault && out.default.value in out.added)
            && (rules.setsDefault && Unset(default) && out.added != [] && out.removed == [] ==>
                  out.default.Some? && out.default.value in out.added)
  {
    DefaultAfterAll(rules, Outcome(t, default, [], [], []), list);
  }

  // ---- The two views ----

  /** A record's view: the category it has, or else the one of its model; without a model, a lock. */
  lemma ViewOfRecord(r: Record)
    ensures var category, model := Get(r, Ascii("category")), Get(r, Ascii("deviceModel"));
            var bare := category in {None, Some(Null), Some(Str([]))};
            && (category.Some? && category.value.Str? && category.value.s != [] ==> EffectiveCategory(r) == category)
            && (bare && model in {Some(Str(Ascii("hub_3"))), Some(Str(Ascii("hub_3_lte")))} ==>
                  EffectiveCategory(r) == Some(HUB3))
            && (bare && model in {None, Some(Null)} ==> EffectiveCategory(r) == Some(LOCK))
            && (bare && model.Some? && model.value.Str? && !HasModel(r, HUB3_MODELS) && !HasModel(r, LOCK_MODELS) ==>
                  EffectiveCategory(r) == None)
            && (bare && HasModel(r, LOCK_MODELS) ==> EffectiveCategory(r) == Some(LOCK))
  {
    if HasModel(r, LOCK_MODELS) {
      NoModelIsBoth(Get(r, MODEL));
    }
  }

  predicate HasModel(r: Record, models: set<string>) {
    exists m :: m in models && Get(r, Ascii("deviceModel")) == Some(Str(Ascii(m)))
  }

  lemma NoModelIsBoth(v: Option<Json>)
    ensures !(IsModel(v, LOCK_MODELS) && IsModel(v, HUB3_MODELS))
  {
    forall h, l | h in HUB3_MODELS && l in LOCK_MODELS ensures Ascii(h) != Ascii(l) {
      assert h[0] == 'h' && Ascii(h)[0] == 104;
      assert l[0] != 'h' && Ascii(l)[0] == AsciiUnit(l[0]);
    }
  }

  /** A property that is missing, null or a string, and not empty. */
  predicate TextIn(r: Record, k: Text) {
    Get(r, k) in {None, Some(Null)} || (Get(r, k).Some? && Get(r, k).value.Str?)
  }

  predicate Filled(r: Record, k: Text) {
    Get(r, k).Some? && Get(r, k).value.Str? && Get(r, k).value.s != []
  }

  /** What each sync takes in, and that only the lock sync may set the default. */
  lemma WhatIsAccepted(parents: seq<Text>, prune: bool, base: Record -> Text, place: (Table, Text) -> nat, d: Record)
    requires TextIn(d, Ascii("deviceUUID")) && TextIn(d, Ascii("secretKey"))
    ensures LockRules(prune, base, place).accept(d) <==>
      HasModel(d, LOCK_MODELS) && Filled(d, Ascii("deviceUUID")) && Filled(d, Ascii("secretKey"))
    ensures Hub3Rules(parents, prune, base, place).accept(d) <==>
      HasModel(d, HUB3_MODELS) && Filled(d, Ascii("deviceUUID"))
  {
  }

  /** The first lock taken in becomes the default lock; a Hub3 never does. */
  lemma FirstLockIsDefault(parents: seq<Text>, prune: bool, base: Record -> Text, place: (Table, Text) -> nat,
                           t: Table, default: Option<Text>, list: seq<Record>)
    ensures var out := Synced(LockRules(prune, base, place), t, default, list);
            Unset(default) && out.added != [] && out.removed == [] ==>
              out.default.Some? && out.default.value in out.added
    ensures var out := Synced(Hub3Rules(parents, prune, base, place), t, default, list);
            default.None? ==> out.default.None?
  {
    DefaultFollowsTable(LockRules(prune, base, place), t, default, list);
    DefaultFollowsTable(Hub3Rules(parents, prune, base, place), t, default, list);
  }
}
