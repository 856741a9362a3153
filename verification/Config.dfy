/**
 * ConfigStore and mergeConfigData (packages/core/src/config.js:347-497): any number of stores,
 * each with a snapshot of any age, saving to one file by re-read, merge and write.
 */
module Config {
  import opened Wrappers

  /** A JSON value, as its text. */
  type Json = string
  type Collection = map<string, Json>

  const PROTO := "__proto__"

  /** The names every JavaScript object inherits; the operator `in` sees them on any object. */
  const INHERITED: set<string> := {
    PROTO, "constructor", "hasOwnProperty", "isPrototypeOf", "propertyIsEnumerable", "toLocaleString",
    "toString", "valueOf", "__defineGetter__", "__defineSetter__", "__lookupGetter__", "__lookupSetter__"
  }

  const WS_URL := "\"wss://82q6nuplv0.execute-api.ap-northeast-1.amazonaws.com/public\""
  const LEGACY_WS_URL := "\"wss://82q6nuplv0.execute-api.ap-northeast-1.amazonaws.com/production\""

  /** The names the commands act on when none is given. */
  datatype Default = Default(remote: Option<string>, lock: Option<string>)

  /** What is persisted: top-level settings, the defaults, and the two keyed collections. */
  datatype Doc = Doc(settings: map<string, Json>, default: Option<Default>, devices: Collection, remotes: Collection)

  datatype Column = Devices | Remotes

  function Of(d: Doc, col: Column): Collection {
    if col == Devices then d.devices else d.remotes
  }

  const EMPTY := Doc(
    map["schemaVersion" := "2", "companyID" := "\"ch_CandyhouseMobile\"", "wsUrl" := WS_URL, "lang" := "\"ja\"",
        "apiKeyId" := "null", "appIdentifyId" := "null"],
    Some(Default(None, None)), map[], map[])

  /** Assignment to a property of an ordinary object: __proto__ sets no entry. */
  function Assign(m: Collection, k: string, v: Json): Collection {
    if k == PROTO then m else m[k := v]
  }

  /** The `in` operator. */
  predicate InObject(k: string, m: Collection) {
    k in m || k in INHERITED
  }

  predicate Deletes(k: string, incoming: Collection, baseline: set<string>) {
    k in baseline && !InObject(k, incoming)
  }

  /** The entries of the disk that survive. */
  function Kept(disk: Collection, incoming: Collection, baseline: set<string>): Collection {
    map k | k in disk && k != PROTO && !Deletes(k, incoming, baseline) :: disk[k]
  }

  function MergedCollection(disk: Collection, incoming: Collection, baseline: set<string>): Collection {
    Kept(disk, incoming, baseline) + (incoming - {PROTO})
  }

  datatype Baseline = Baseline(devices: set<string>, remotes: set<string>)

  function BaselineOf(d: Doc): Baseline {
    Baseline(d.devices.Keys, d.remotes.Keys)
  }

  function Known(b: Baseline, col: Column): set<string> {
    if col == Devices then b.devices else b.remotes
  }

  function Merged(disk: Option<Doc>, incoming: Doc, b: Baseline): Doc {
    if disk.None? then incoming
    else
      Doc(disk.value.settings + incoming.settings,
          if incoming.default.Some? then incoming.default else disk.value.default,
          MergedCollection(disk.value.devices, incoming.devices, b.devices),
          MergedCollection(disk.value.remotes, incoming.remotes, b.remotes))
  }

  /** normalizeConfig: defaults for missing settings, and never the forbidden endpoint. */
  function Normalize(d: Doc): Doc {
    var settings := EMPTY.settings + d.settings;
    d.(settings := if settings["wsUrl"] == LEGACY_WS_URL then settings["wsUrl" := WS_URL] else settings,
       default := if d.default.Some? then d.default else EMPTY.default)
  }

  // ---- The store ----

  datatype FileState = Missing | Corrupt | Holds(doc: Doc)

  datatype ConfigError = CorruptFile | NothingToSave | UnknownName

  function Disk(f: FileState): Option<Doc> {
    if f.Holds? then Some(f.doc) else None
  }

  class ConfigFile {
    var content: FileState

    constructor ()
      ensures content == Missing
    {
      content := Missing;
    }
  }

  method KeepEntries(disk: Collection, incoming: Collection, baseline: set<string>) returns (result: Collection)
    ensures result == Kept(disk, incoming, baseline)
  {
    result := map[];
    var left := disk.Keys;
    while left != {}
      invariant left <= disk.Keys
      invariant forall k :: k in result <==> k in disk && k !in left && k != PROTO && !Deletes(k, incoming, baseline)
      invariant forall k :: k in result ==> k in disk && result[k] == disk[k]
      decreases |left|
    {
      var k :| k in left;
      left := left - {k};
      if !Deletes(k, incoming, baseline) {
        result := Assign(result, k, disk[k]);
      }
    }
  }

  /** Object.assign. */
  method AssignAll(target: Collection, source: Collection) returns (result: Collection)
    ensures result == target + (source - {PROTO})
  {
    result := target;
    var left := source.Keys;
    ghost var done: Collection := map[];
    while left != {}
      invariant left <= source.Keys
      invariant done == map k | k in source && k !in left && k != PROTO :: source[k]
      invariant result == target + done
      decreases |left|
    {
      var k :| k in left;
      left := left - {k};
      result := Assign(result, k, source[k]);
      done := Assign(done, k, source[k]);
    }
    assert done == source - {PROTO};
  }

  method MergeCollection(disk: Collection, incoming: Collection, baseline: set<string>) returns (result: Collection)
    ensures result == MergedCollection(disk, incoming, baseline)
  {
    result := KeepEntries(disk, incoming, baseline);
    result := AssignAll(result, incoming);
  }

  class ConfigStore {
    const file: ConfigFile
    var data: Option<Doc>
    var baseline: Baseline

    constructor (file: ConfigFile)
      ensures this.file == file && data == None && baseline == Baseline({}, {})
    {
      this.file := file;
      data := None;
      baseline := Baseline({}, {});
    }

    /** The first load reads the file; later ones return the cached data. */
    method Load() returns (r: Result<Doc, ConfigError>)
      modifies this, file
      ensures old(data).Some? ==> r == Ok(old(data).value) && data == old(data) && baseline == old(baseline)
                                  && file.content == old(file.content)
      ensures old(data).None? && old(file.content).Corrupt? ==>
        r == Err(CorruptFile) && data == None && baseline == old(baseline) && file.content == old(file.content)
      ensures old(data).None? && !old(file.content).Corrupt? ==>
        && data == Some(Opened(old(file.content))) && r == Ok(data.value) && baseline == BaselineOf(data.value)
        && file.content == if LegacyEndpoint(old(file.content))
                           then Holds(Merged(Disk(old(file.content)), data.value, baseline)) else old(file.content)
    {
      if data.Some? {
        return Ok(data.value);
      }
      match file.content {
        case Missing =>
          data := Some(EMPTY);
          baseline := BaselineOf(EMPTY);
        case Corrupt =>
          return Err(CorruptFile);
        case Holds(raw) =>
          data := Some(Normalize(raw));
          baseline := BaselineOf(data.value);
          if LegacyEndpoint(file.content) {
            var _ := Save();
          }
      }
      r := Ok(data.value);
    }

    method Save() returns (r: Result<(), ConfigError>)
      modifies this, file
      ensures data == old(data)
      ensures data.None? ==> r == Err(NothingToSave) && baseline == old(baseline) && file.content == old(file.content)
      ensures data.Some? ==>
        && r == Ok(()) && baseline == BaselineOf(data.value)
        && file.content == Holds(Merged(Disk(old(file.content)), data.value, old(baseline)))
    {
      if data.None? {
        return Err(NothingToSave);
      }
      var disk := Disk(file.content);
      if disk.None? {
        file.content := Holds(data.value);
      } else {
        var devices := MergeCollection(disk.value.devices, data.value.devices, baseline.devices);
        var remotes := MergeCollection(disk.value.remotes, data.value.remotes, baseline.remotes);
        var default := if data.value.default.Some? then data.value.default else disk.value.default;
        file.content := Holds(Doc(disk.value.settings + data.value.settings, default, devices, remotes));
      }
      baseline := BaselineOf(data.value);
      r := Ok(());
    }

    /** removeLock once the data is loaded; isLock tells which records the lock view shows. */
    method RemoveLock(name: string, isLock: Json -> bool) returns (r: Result<(), ConfigError>)
      requires data.Some?
      modifies this, file
      ensures r.Err? <==>
        !(name in old(data.value.devices) && isLock(old(data.value.devices)[name])) && name !in INHERITED
      ensures r.Err? ==> data == old(data) && file.content == old(file.content) && baseline == old(baseline)
      ensures r.Ok? ==> data == Some(old(data.value).(devices := old(data.value.devices) - {name},
                                                      default := Undefaulted(old(data.value.default), name)))
      ensures r.Ok? ==> file.content == Holds(Merged(Disk(old(file.content)), data.value, old(baseline)))
      ensures r.Ok? && data.value.default.Some? ==>
        file.content.Holds? && file.content.doc.default == data.value.default
        && data.value.default.value.lock != Some(name)
      ensures r.Ok? && old(data.value.default).Some? && old(data.value.default).value.lock != Some(name) ==>
        data.value.default == old(data.value.default)
      ensures r.Ok? && name in old(baseline.devices) && name !in INHERITED ==>
        file.content.Holds? && name !in file.content.doc.devices
    {
      if !(name in data.value.devices && isLock(data.value.devices[name])) && name !in INHERITED {
        return Err(UnknownName);
      }
      data := Some(data.value.(devices := data.value.devices - {name}));
      if data.value.default.Some? && data.value.default.value.lock == Some(name) {
        data := Some(data.value.(default := Some(data.value.default.value.(lock := None))));
      }
      RemovedIsGone(Disk(file.content), data.value, baseline, name);
      r := Save();
    }
  }

  /** The defaults once a lock of that name is removed. */
  function Undefaulted(d: Option<Default>, name: string): Option<Default> {
    if d.Some? && d.value.lock == Some(name) then Some(d.value.(lock := None)) else d
  }

  lemma RemovedIsGone(disk: Option<Doc>, incoming: Doc, b: Baseline, name: string)
    requires name !in incoming.devices
    ensures name in b.devices && name !in INHERITED ==> name !in Merged(disk, incoming, b).devices
  {
  }

  predicate LegacyEndpoint(f: FileState) {
    f.Holds? && "wsUrl" in f.doc.settings && f.doc.settings["wsUrl"] == LEGACY_WS_URL
  }

  /** What a first load makes of a readable file. */
  function Opened(f: FileState): Doc
    requires !f.Corrupt?
  {
    if f.Holds? then Normalize(f.doc) else EMPTY
  }

  lemma OpenedKeepsFile(f: FileState)
    requires !f.Corrupt?
    ensures var d := Opened(f);
            && (f.Holds? ==> d.devices == f.doc.devices && d.remotes == f.doc.remotes)
            && (f.Missing? ==> d.devices == map[] && d.remotes == map[])
            && (forall k :: f.Holds? && k in f.doc.settings && !(k == "wsUrl" && LegacyEndpoint(f)) ==>
                  k in d.settings && d.settings[k] == f.doc.settings[k])
            && (f.Holds? && f.doc.default.Some? ==> d.default == f.doc.default)
            && d.default.Some? && "wsUrl" in d.settings && d.settings["wsUrl"] != LEGACY_WS_URL
            && (forall k :: k in EMPTY.settings ==> k in d.settings)
  {
  }

  // ---- Runs of any number of stores ----

  type StoreId = int

  datatype Store = Store(data: Option<Doc>, baseline: Baseline)

  datatype State = State(file: FileState, stores: map<StoreId, Store>)

  /** Edit stands for any change a store's owner makes to its data between load and save. */
  datatype Step = Open(i: StoreId) | Load(i: StoreId) | Edit(i: StoreId, d: Doc) | Save(i: StoreId)

  predicate Enabled(s: State, step: Step) {
    match step
    case Open(i) => i !in s.stores
    case Load(i) => i in s.stores && !s.file.Corrupt?
    case Edit(i, _) => i in s.stores && s.stores[i].data.Some?
    case Save(i) => i in s.stores && s.stores[i].data.Some?
  }

  function Next(s: State, step: Step): State
    requires Enabled(s, step)
  {
    match step
    case Open(i) => s.(stores := s.stores[i := Store(None, Baseline({}, {}))])
    case Load(i) =>
      if s.stores[i].data.Some? then s
      else s.(stores := s.stores[i := Store(Some(Opened(s.file)), BaselineOf(Opened(s.file)))])
    case Edit(i, d) => s.(stores := s.stores[i := s.stores[i].(data := Some(d))])
    case Save(i) =>
      var d := s.stores[i].data.value;
      State(Holds(Merged(Disk(s.file), d, s.stores[i].baseline)), s.stores[i := Store(Some(d), BaselineOf(d))])
  }

  predicate Moves(s: State, step: Step, s': State) {
    Enabled(s, step) && s' == Next(s, step)
  }

  /** A run starts with any readable file and no stores. */
  predicate Run(states: seq<State>, steps: seq<Step>) {
    && |states| == |steps| + 1 && states[0].stores == map[] && !states[0].file.Corrupt?
    && forall n :: 0 <= n < |steps| ==> Moves(states[n], steps[n], states[n + 1])
  }

  predicate OnDisk(s: State, col: Column, k: string) {
    s.file.Holds? && k in Of(s.file.doc, col)
  }

  predicate InMemory(s: State, i: StoreId, col: Column, k: string) {
    i in s.stores && s.stores[i].data.Some? && k in Of(s.stores[i].data.value, col)
  }

  predicate InBaseline(s: State, i: StoreId, col: Column, k: string) {
    i in s.stores && k in Known(s.stores[i].baseline, col)
  }

  /** The edits of this step do not remove the key from a store that has it. */
  predicate Spares(s: State, step: Step, col: Column, k: string) {
    step.Edit? && InMemory(s, step.i, col, k) ==> k in Of(step.d, col)
  }

  ghost predicate HeldWhereKnown(s: State, col: Column, k: string) {
    forall i :: InBaseline(s, i, col, k) ==> InMemory(s, i, col, k)
  }

  lemma {:induction false} SparedKeyIsHeld(states: seq<State>, steps: seq<Step>, col: Column, k: string, j: nat)
    requires Run(states, steps) && j <= |steps|
    requires forall n :: 0 <= n < |steps| ==> Spares(states[n], steps[n], col, k)
    ensures HeldWhereKnown(states[j], col, k)
  {
    if j > 0 {
      SparedKeyIsHeld(states, steps, col, k, j - 1);
      assert Moves(states[j - 1], steps[j - 1], states[j]) && Spares(states[j - 1], steps[j - 1], col, k);
      forall i | InBaseline(states[j], i, col, k) ensures InMemory(states[j], i, col, k) {
        assert InBaseline(states[j - 1], i, col, k) ==> InMemory(states[j - 1], i, col, k);
      }
    }
  }

  /**
   * The three-way merge, key by key, in any run: right after a save every entry of the store
   * is on disk with the store's value, and another entry of the disk stays, with its own
   * value, unless the store had it before and has deleted it.
   */
  lemma SaveIsThreeWay(states: seq<State>, steps: seq<Step>, n: nat, col: Column, k: string)
    requires Run(states, steps) && n < |steps| && steps[n].Save? && k != PROTO
    ensures states[n + 1].file.Holds?
    ensures OnDisk(states[n + 1], col, k) <==>
      InMemory(states[n], steps[n].i, col, k)
      || (OnDisk(states[n], col, k) && (k in INHERITED || !InBaseline(states[n], steps[n].i, col, k)))
    ensures OnDisk(states[n + 1], col, k) ==>
      Of(states[n + 1].file.doc, col)[k]
      == if InMemory(states[n], steps[n].i, col, k) then Of(states[n].stores[steps[n].i].data.value, col)[k]
         else Of(states[n].file.doc, col)[k]
  {
    assert Moves(states[n], steps[n], states[n + 1]);
  }

  /** The settings and the defaults of a save win over the disk's; settings it lacks stay. */
  lemma SaveKeepsSettings(states: seq<State>, steps: seq<Step>, n: nat, k: string)
    requires Run(states, steps) && n < |steps| && steps[n].Save?
    ensures var s, after := states[n], states[n + 1].file;
            var d := s.stores[steps[n].i].data.value;
            && after.Holds?
            && (k in d.settings ==> k in after.doc.settings && after.doc.settings[k] == d.settings[k])
            && (k !in d.settings && s.file.Holds? && k in s.file.doc.settings ==>
                  k in after.doc.settings && after.doc.settings[k] == s.file.doc.settings[k])
            && (d.default.Some? ==> after.doc.default == d.default)
            && (d.default.None? && s.file.Holds? ==> after.doc.default == s.file.doc.default)
  {
    assert Moves(states[n], steps[n], states[n + 1]);
  }

  predicate FirstLoad(s: State, step: Step) {
    step.Load? && step.i in s.stores && s.stores[step.i].data.None?
  }

  /** A save followed by the first load of another store hands over every entry and setting. */
  lemma LoadReadsSave(states: seq<State>, steps: seq<Step>, n: nat, col: Column, k: string)
    requires Run(states, steps) && n + 1 < |steps| && steps[n].Save? && FirstLoad(states[n + 1], steps[n + 1])
    requires k != PROTO
    ensures var saved, loaded := states[n].stores[steps[n].i].data.value, states[n + 2].stores[steps[n + 1].i].data;
            && loaded.Some?
            && (k in Of(saved, col) ==> k in Of(loaded.value, col) && Of(loaded.value, col)[k] == Of(saved, col)[k])
            && (k in saved.settings && !(k == "wsUrl" && saved.settings[k] == LEGACY_WS_URL) ==>
                  k in loaded.value.settings && loaded.value.settings[k] == saved.settings[k])
            && (saved.default.Some? ==> loaded.value.default == saved.default)
            && loaded.value.settings["wsUrl"] != LEGACY_WS_URL
  {
    assert Moves(states[n + 1], steps[n + 1], states[n + 2]);
    SaveIsThreeWay(states, steps, n, col, k);
    SaveKeepsSettings(states, steps, n, k);
    OpenedKeepsFile(states[n + 1].file);
  }

  /**
   * A key that no store deletes stays on disk once written, through every interleaving and
   * however old the snapshots of the saving stores are.
   */
  lemma {:induction false} UndeletedKeyStays(
      states: seq<State>, steps: seq<Step>, col: Column, k: string, a: nat, b: nat)
    requires Run(states, steps) && a <= b <= |steps| && k != PROTO
    requires forall n :: 0 <= n < |steps| ==> Spares(states[n], steps[n], col, k)
    requires OnDisk(states[a], col, k)
    ensures OnDisk(states[b], col, k)
  {
    if a < b {
      UndeletedKeyStays(states, steps, col, k, a, b - 1);
      SparedKeyIsHeld(states, steps, col, k, b - 1);
      assert Moves(states[b - 1], steps[b - 1], states[b]);
      if steps[b - 1].Save? {
        assert InBaseline(states[b - 1], steps[b - 1].i, col, k) ==> InMemory(states[b - 1], steps[b - 1].i, col, k);
      }
    }
  }

  /** Its value, too, is untouched by the saves of stores that do not hold the key. */
  lemma {:induction false} ValueStaysThroughForeignSaves(
      states: seq<State>, steps: seq<Step>, col: Column, k: string, a: nat, b: nat)
    requires Run(states, steps) && a <= b <= |steps| && k != PROTO
    requires forall n :: 0 <= n < |steps| ==> Spares(states[n], steps[n], col, k)
    requires OnDisk(states[a], col, k)
    requires forall n :: a <= n < b && steps[n].Save? ==> !InMemory(states[n], steps[n].i, col, k)
    ensures OnDisk(states[b], col, k) && Of(states[b].file.doc, col)[k] == Of(states[a].file.doc, col)[k]
  {
    if a < b {
      ValueStaysThroughForeignSaves(states, steps, col, k, a, b - 1);
      SparedKeyIsHeld(states, steps, col, k, b - 1);
      assert Moves(states[b - 1], steps[b - 1], states[b]);
      if steps[b - 1].Save? {
        assert !InBaseline(states[b - 1], steps[b - 1].i, col, k);
      }
    }
  }

  /** So the value on disk is that of the last save that held the key. */
  lemma ValueIsLastSavers(states: seq<State>, steps: seq<Step>, col: Column, k: string, a: nat, b: nat)
    requires Run(states, steps) && a < b <= |steps| && k != PROTO
    requires forall n :: 0 <= n < |steps| ==> Spares(states[n], steps[n], col, k)
    requires steps[a].Save? && InMemory(states[a], steps[a].i, col, k)
    requires forall n :: a < n < b && steps[n].Save? ==> !InMemory(states[n], steps[n].i, col, k)
    ensures OnDisk(states[b], col, k)
    ensures Of(states[b].file.doc, col)[k] == Of(states[a].stores[steps[a].i].data.value, col)[k]
  {
    SaveIsThreeWay(states, steps, a, col, k);
    ValueStaysThroughForeignSaves(states, steps, col, k, a + 1, b);
  }

  /** A store remembers the keys of its last load or save until its next save. */
  lemma {:induction false} BaselineIsRemembered(states: seq<State>, steps: seq<Step>, i: StoreId, a: nat, b: nat)
    requires Run(states, steps) && a <= b <= |steps|
    requires i in states[a].stores && states[a].stores[i].data.Some?
    requires forall n :: a <= n < b ==> steps[n] != Save(i)
    ensures i in states[b].stores && states[b].stores[i].data.Some?
    ensures states[b].stores[i].baseline == states[a].stores[i].baseline
  {
    if a < b {
      BaselineIsRemembered(states, steps, i, a, b - 1);
      assert Moves(states[b - 1], steps[b - 1], states[b]);
    }
  }

  /**
   * A key that a store had when it last loaded or saved, and has deleted since, is gone right
   * after its next save, whatever others did meanwhile; except for an inherited name, which
   * stays exactly if the disk still had it.
   */
  lemma DeletedKeyIsGone(states: seq<State>, steps: seq<Step>, i: StoreId, col: Column, k: string, a: nat, b: nat)
    requires Run(states, steps) && a < b < |steps|
    requires steps[a] == Save(i) || (steps[a] == Load(i) && FirstLoad(states[a], steps[a]))
    requires InMemory(states[a + 1], i, col, k)
    requires forall n :: a < n < b ==> steps[n] != Save(i)
    requires steps[b] == Save(i) && !InMemory(states[b], i, col, k)
    ensures OnDisk(states[b + 1], col, k) <==> OnDisk(states[b], col, k) && k in INHERITED && k != PROTO
  {
    assert Moves(states[a], steps[a], states[a + 1]);
    assert Moves(states[b], steps[b], states[b + 1]);
    BaselineIsRemembered(states, steps, i, a + 1, b);
  }

  /** The concrete failure: a deleted lock named "constructor" is still on disk after the save. */
  lemma DeletedConstructorStays(rec: Json, settings: map<string, Json>)
    ensures var disk := Doc(settings, None, map["constructor" := rec], map[]);
            var edited := disk.(devices := map[]);
            "constructor" in Merged(Some(disk), edited, BaselineOf(disk)).devices
  {
    var disk := Doc(settings, None, map["constructor" := rec], map[]);
    assert "constructor" in Kept(disk.devices, map[], disk.devices.Keys);
  }

  /** An entry named __proto__ does not survive any save over an existing file. */
  lemma ProtoIsDropped(s: State, i: StoreId, col: Column)
    requires Enabled(s, Save(i)) && s.file.Holds?
    ensures !OnDisk(Next(s, Save(i)), col, PROTO)
  {
  }
}
