/**
 * Token storage (packages/core/src/tokens.js): the freshness order, the merge of a save with
 * what is on disk, and FileTokenStore. LockedFile shows that saves under the lock are saves one
 * at a time.
 */
module Tokens {
  import opened Wrappers

  /** A property that is missing, null, or a string. */
  datatype Field = Absent | Null | Text(s: string)

  predicate Truthy(f: Field) {
    f.Text? && f.s != ""
  }

  datatype StoredTokens = StoredTokens(
    clientId: Field,
    idToken: Field,
    refreshToken: Field,
    accessToken: Field,
    deviceKey: Field,
    deviceGroupKey: Field,
    devicePassword: Field,
    username: Field,
    lastRefresh: Field)

  /** Date.parse in ms (None for NaN), and the exp claim of a token in seconds (0 without one). */
  datatype Clock = Clock(parse: string -> Option<real>, exp: string -> real)

  function Max(x: real, y: real): real {
    if x < y then y else x
  }

  /** The time stamp of the last refresh, 0 when unknown. */
  function StampMs(c: Clock, f: Field): real {
    if f.Text? && c.parse(f.s).Some? then c.parse(f.s).value else 0.0
  }

  function ExpMs(c: Clock, f: Field): real {
    if f.Text? then c.exp(f.s) * 1000.0 else 0.0
  }

  function Freshness(c: Clock, t: StoredTokens): real {
    Max(StampMs(c, t.lastRefresh), ExpMs(c, t.idToken))
  }

  function DiskFreshness(c: Clock, disk: Option<StoredTokens>): real {
    if disk.Some? then Freshness(c, disk.value) else 0.0
  }

  function Keep(disk: Field, incoming: Field): Field {
    if disk.Absent? then incoming else disk
  }

  function Merge(c: Clock, disk: Option<StoredTokens>, incoming: StoredTokens): StoredTokens {
    if disk.None? || incoming.idToken.Null? || Freshness(c, disk.value) <= Freshness(c, incoming) then incoming
    else
      incoming.(idToken := Keep(disk.value.idToken, incoming.idToken),
                accessToken := Keep(disk.value.accessToken, incoming.accessToken),
                refreshToken := Keep(disk.value.refreshToken, incoming.refreshToken),
                lastRefresh := Keep(disk.value.lastRefresh, incoming.lastRefresh))
  }

  // ---- FileTokenStore ----

  datatype FileState = Missing | Corrupt | Holds(tokens: StoredTokens)

  datatype LoadError = CorruptFile

  /** What a save finds on disk: a corrupt file is overwritten, not merged. */
  function Disk(f: FileState): Option<StoredTokens> {
    if f.Holds? then Some(f.tokens) else None
  }

  class TokenFile {
    var content: FileState

    constructor ()
      ensures content == Missing
    {
      content := Missing;
    }
  }

  class FileTokenStore {
    const file: TokenFile
    const clock: Clock

    constructor (file: TokenFile, clock: Clock)
      ensures this.file == file && this.clock == clock
    {
      this.file := file;
      this.clock := clock;
    }

    method Load() returns (r: Result<Option<StoredTokens>, LoadError>)
      ensures r == if file.content.Corrupt? then Err(CorruptFile) else Ok(Disk(file.content))
    {
      match file.content
      case Missing => r := Ok(None);
      case Corrupt => r := Err(CorruptFile);
      case Holds(t) => r := Ok(Some(t));
    }

    method Save(t: StoredTokens)
      modifies file
      ensures file.content == Holds(Merge(clock, Disk(old(file.content)), t))
    {
      var disk: Option<StoredTokens> := None;
      var loaded := Load();
      if loaded.Ok? {
        disk := loaded.value;
      }
      file.content := Holds(Merge(clock, disk, t));
    }

    method Clear()
      modifies file
      ensures file.content == Missing
    {
      file.content := Missing;
    }
  }

  /** Freshness is the later of the two dates that can be read, or the epoch where one cannot. */
  lemma FreshnessIsLatest(c: Clock, t: StoredTokens)
    ensures var f := Freshness(c, t);
            var stamp := if t.lastRefresh.Text? && c.parse(t.lastRefresh.s).Some? then c.parse(t.lastRefresh.s).value
                         else 0.0;
            var exp := if t.idToken.Text? then 1000.0 * c.exp(t.idToken.s) else 0.0;
            f >= stamp && f >= exp && (f == stamp || f == exp)
  {
  }

  /** Only the four auth fields can come from the disk, and only those it has, when it is strictly fresher. */
  lemma MergedField(c: Clock, d: StoredTokens, t: StoredTokens)
    ensures var m := Merge(c, Some(d), t);
            && m.clientId == t.clientId && m.username == t.username && m.deviceKey == t.deviceKey
            && m.deviceGroupKey == t.deviceGroupKey && m.devicePassword == t.devicePassword
            && (Freshness(c, d) <= Freshness(c, t) || t.idToken.Null? ==> m == t)
            && (Freshness(c, d) > Freshness(c, t) && !t.idToken.Null? ==>
                  && (d.idToken != Absent ==> m.idToken == d.idToken)
                  && (d.accessToken != Absent ==> m.accessToken == d.accessToken)
                  && (d.refreshToken != Absent ==> m.refreshToken == d.refreshToken)
                  && (d.lastRefresh != Absent ==> m.lastRefresh == d.lastRefresh)
                  && (d.refreshToken == Absent ==> m.refreshToken == t.refreshToken))
  {
  }

  // ---- Freshness of a merge ----

  /** The part of a stored state that is as fresh as 0 and survives a merge. */
  predicate KeepsZero(c: Clock, t: StoredTokens) {
    (t.lastRefresh != Absent && StampMs(c, t.lastRefresh) == 0.0) || (t.idToken != Absent && ExpMs(c, t.idToken) == 0.0)
  }

  /** Either the save is not dated before 1970, or the disk is dated, or not fresher than the save. */
  predicate DatedEnough(c: Clock, disk: Option<StoredTokens>, incoming: StoredTokens) {
    Freshness(c, incoming) >= 0.0
    || (disk.Some? && (Freshness(c, disk.value) <= Freshness(c, incoming)
                       || Freshness(c, disk.value) != 0.0 || KeepsZero(c, disk.value)))
  }

  /**
   * A save leaves the fresher of the two states' freshness on disk, except when the saved
   * tokens are dated before 1970 and the disk has nothing dated to keep.
   */
  lemma MergeKeepsFreshestExactlyWhen(c: Clock, disk: Option<StoredTokens>, incoming: StoredTokens)
    requires !incoming.idToken.Null?
    ensures DatedEnough(c, disk, incoming) <==>
      Freshness(c, Merge(c, disk, incoming)) == Max(DiskFreshness(c, disk), Freshness(c, incoming))
  {
    var merged := Merge(c, disk, incoming);
    assert Freshness(c, merged) == Max(StampMs(c, merged.lastRefresh), ExpMs(c, merged.idToken));
    if disk.Some? {
      assert Freshness(c, disk.value) == Max(StampMs(c, disk.value.lastRefresh), ExpMs(c, disk.value.idToken));
    }
  }

  /** For a given save the rule holds over every disk state exactly when it is not dated before 1970. */
  lemma MergeKeepsFreshest(c: Clock, incoming: StoredTokens)
    requires !incoming.idToken.Null?
    ensures Freshness(c, incoming) >= 0.0 <==>
      (forall disk :: Freshness(c, Merge(c, disk, incoming)) == Max(DiskFreshness(c, disk), Freshness(c, incoming)))
  {
    forall disk
      ensures Freshness(c, incoming) >= 0.0 ==>
        Freshness(c, Merge(c, disk, incoming)) == Max(DiskFreshness(c, disk), Freshness(c, incoming))
    {
      MergeKeepsFreshestExactlyWhen(c, disk, incoming);
    }
    MergeKeepsFreshestExactlyWhen(c, None, incoming);
  }

  /** A concrete failure: over no file, tokens dated one second before 1970. */
  lemma SaveBefore1970(t: StoredTokens)
    requires t.idToken == Text("token") && t.lastRefresh == Text("1969-12-31T23:59:59Z")
    ensures var c := Clock(_ => Some(-1000.0), _ => -1.0);
            DiskFreshness(c, None) == 0.0 && Freshness(c, Merge(c, None, t)) == -1000.0
  {
  }

  /** The save that drops expired tokens writes exactly what it was given, whatever the disk holds. */
  lemma DiscardIsHonoured(c: Clock, disk: Option<StoredTokens>, incoming: StoredTokens)
    requires incoming.idToken.Null?
    ensures Merge(c, disk, incoming) == incoming
  {
  }

  // ---- Runs of saves ----

  datatype Auth = Auth(idToken: Field, accessToken: Field, refreshToken: Field, lastRefresh: Field)

  function AuthOf(t: StoredTokens): Auth {
    Auth(t.idToken, t.accessToken, t.refreshToken, t.lastRefresh)
  }

  predicate AuthDefined(t: StoredTokens) {
    t.idToken != Absent && t.accessToken != Absent && t.refreshToken != Absent && t.lastRefresh != Absent
  }

  /** A save that is not a discard and not dated before 1970. */
  predicate Ordinary(c: Clock, t: StoredTokens) {
    !t.idToken.Null? && Freshness(c, t) >= 0.0
  }

  /** The disk after saves by any processes, from snapshots of any age. */
  function AfterSaves(c: Clock, disk: Option<StoredTokens>, saves: seq<StoredTokens>): Option<StoredTokens> {
    if saves == [] then disk
    else Some(Merge(c, AfterSaves(c, disk, saves[..|saves| - 1]), saves[|saves| - 1]))
  }

  function Freshest(c: Clock, disk: Option<StoredTokens>, saves: seq<StoredTokens>): real {
    if saves == [] then DiskFreshness(c, disk)
    else Max(Freshest(c, disk, saves[..|saves| - 1]), Freshness(c, saves[|saves| - 1]))
  }

  lemma {:induction false} FreshnessNeverDrops(c: Clock, disk: Option<StoredTokens>, saves: seq<StoredTokens>)
    requires forall i :: 0 <= i < |saves| ==> Ordinary(c, saves[i])
    ensures DiskFreshness(c, AfterSaves(c, disk, saves)) == Freshest(c, disk, saves)
    ensures forall k :: 0 <= k <= |saves| ==>
      DiskFreshness(c, AfterSaves(c, disk, saves[..k])) <= DiskFreshness(c, AfterSaves(c, disk, saves))
  {
    if saves == [] {
      assert saves[..0] == saves;
    } else {
      var before := saves[..|saves| - 1];
      FreshnessNeverDrops(c, disk, before);
      MergeKeepsFreshestExactlyWhen(c, AfterSaves(c, disk, before), saves[|saves| - 1]);
      forall k | 0 <= k <= |saves|
        ensures DiskFreshness(c, AfterSaves(c, disk, saves[..k])) <= DiskFreshness(c, AfterSaves(c, disk, saves))
      {
        if k == |saves| {
          assert saves[..k] == saves;
        } else {
          assert before[..k] == saves[..k];
        }
      }
    }
  }

  /** Save k reaches the maximum, and no later save does. */
  predicate LastFreshest(c: Clock, saves: seq<StoredTokens>, k: nat) {
    && k < |saves|
    && (forall i :: 0 <= i < |saves| ==> Freshness(c, saves[i]) <= Freshness(c, saves[k]))
    && (forall i :: k < i < |saves| ==> Freshness(c, saves[i]) < Freshness(c, saves[k]))
  }

  /**
   * The tokens on disk are never a mixture: after saves over any disk state, those a discard
   * leaves included, they are those of the last save that reached the maximal freshness.
   */
  lemma {:induction false} TokensOfLastFreshest(
      c: Clock, disk: Option<StoredTokens>, saves: seq<StoredTokens>, k: nat)
    requires forall i :: 0 <= i < |saves| ==> Ordinary(c, saves[i]) && AuthDefined(saves[i])
    requires LastFreshest(c, saves, k) && DiskFreshness(c, disk) <= Freshness(c, saves[k])
    ensures AfterSaves(c, disk, saves).Some?
    ensures AuthOf(AfterSaves(c, disk, saves).value) == AuthOf(saves[k])
  {
    var last := |saves| - 1;
    var before := saves[..last];
    assert forall i :: 0 <= i < |before| ==> before[i] == saves[i];
    FreshnessNeverDrops(c, disk, before);
    if k == last {
      FreshestAtMost(c, disk, before, Freshness(c, saves[k]));
    } else {
      TokensOfLastFreshest(c, disk, before, k);
      FreshestAtLeast(c, disk, before, k);
    }
  }

  /** And when the disk is strictly fresher than every save, its four fields stay. */
  lemma {:induction false} FresherDiskKeepsItsTokens(c: Clock, d: StoredTokens, saves: seq<StoredTokens>)
    requires AuthDefined(d)
    requires forall i :: 0 <= i < |saves| ==> Ordinary(c, saves[i]) && Freshness(c, saves[i]) < Freshness(c, d)
    ensures AuthOf(AfterSaves(c, Some(d), saves).value) == AuthOf(d)
  {
    if saves != [] {
      FresherDiskKeepsItsTokens(c, d, saves[..|saves| - 1]);
    }
  }

  lemma {:induction false} FreshestAtMost(c: Clock, disk: Option<StoredTokens>, saves: seq<StoredTokens>, bound: real)
    requires DiskFreshness(c, disk) <= bound && forall i :: 0 <= i < |saves| ==> Freshness(c, saves[i]) <= bound
    ensures Freshest(c, disk, saves) <= bound
  {
    if saves != [] {
      FreshestAtMost(c, disk, saves[..|saves| - 1], bound);
    }
  }

  lemma {:induction false} FreshestAtLeast(c: Clock, disk: Option<StoredTokens>, saves: seq<StoredTokens>, k: nat)
    requires k < |saves|
    ensures Freshness(c, saves[k]) <= Freshest(c, disk, saves)
  {
    if k < |saves| - 1 {
      FreshestAtLeast(c, disk, saves[..|saves| - 1], k);
    }
  }

  /** Device fields always follow the save, never the disk. */
  lemma DeviceFollowsSave(c: Clock, disk: Option<StoredTokens>, incoming: StoredTokens)
    ensures var merged := Merge(c, disk, incoming);
            && merged.deviceKey == incoming.deviceKey
            && merged.deviceGroupKey == incoming.deviceGroupKey
            && merged.devicePassword == incoming.devicePassword
  {
  }
}
