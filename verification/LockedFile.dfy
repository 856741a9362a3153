/**
 * What the lock is for: FileTokenStore.save and clear (packages/core/src/tokens.js:188-207) and
 * ConfigStore.save (config.js:475-496) re-read the file, merge and write it inside fn. Here
 * these are three steps of processes that share one lock and one file, and any other process
 * may move between two of them.
 */
module LockedFile {
  import opened Wrappers
  import FileLock
  import Tokens
  import Config

  type Pid = FileLock.Pid

  /** How far fn has come; a job is what the save is to merge into the file. */
  datatype Work<V, J> = Called(job: J) | Reread(job: J, disk: V) | Merged(job: J, result: V) | Written

  /** log: the jobs written so far, in the order of their writes. */
  datatype State<V, J> = State(lock: FileLock.State, file: V, work: map<Pid, Work<V, J>>, log: seq<J>)

  datatype Step<J> =
    | Lock(step: FileLock.Step)
    | Begin(p: Pid, job: J)
    | ReadFile(p: Pid)
    | Merge(p: Pid)
    | WriteFile(p: Pid)

  predicate Enabled<V, J>(s: State<V, J>, step: Step<J>) {
    match step
    case Lock(l) => FileLock.Enabled(s.lock, l)
    case Begin(p, _) => FileLock.Inside(s.lock, p) && p !in s.work
    case ReadFile(p) => p in s.work && s.work[p].Called?
    case Merge(p) => p in s.work && s.work[p].Reread?
    case WriteFile(p) => p in s.work && s.work[p].Merged?
  }

  /** fn ends when it returns, throws, or its process dies: at any point of its work. */
  predicate EndsFn(l: FileLock.Step) {
    l.Finish? || l.Crash?
  }

  /** apply: the file that a job makes of a file. */
  function Next<V, J>(staleMs: nat, apply: (V, J) -> V, s: State<V, J>, step: Step<J>): State<V, J>
    requires Enabled(s, step)
  {
    match step
    case Lock(l) =>
      s.(lock := FileLock.Next(staleMs, s.lock, l), work := if EndsFn(l) then s.work - {l.p} else s.work)
    case Begin(p, job) => s.(work := s.work[p := Called(job)])
    case ReadFile(p) => s.(work := s.work[p := Reread(s.work[p].job, s.file)])
    case Merge(p) => s.(work := s.work[p := Merged(s.work[p].job, apply(s.work[p].disk, s.work[p].job))])
    case WriteFile(p) =>
      s.(file := s.work[p].result, log := s.log + [s.work[p].job], work := s.work[p := Written])
  }

  function Perform<V, J>(staleMs: nat, apply: (V, J) -> V, s: State<V, J>, steps: seq<Step<J>>): Option<State<V, J>>
    decreases |steps|
  {
    if steps == [] then Some(s)
    else if Enabled(s, steps[0]) then Perform(staleMs, apply, Next(staleMs, apply, s, steps[0]), steps[1..])
    else None
  }

  /** Each lock step of the run is safe. */
  ghost predicate Safely<V, J>(staleMs: nat, apply: (V, J) -> V, s: State<V, J>, steps: seq<Step<J>>)
    decreases |steps|
  {
    steps != [] && Enabled(s, steps[0]) ==>
      && (steps[0].Lock? ==> FileLock.Safe(staleMs, s.lock, steps[0].step))
      && Safely(staleMs, apply, Next(staleMs, apply, s, steps[0]), steps[1..])
  }

  /** The same jobs, one at a time. */
  function OneByOne<V, J>(apply: (V, J) -> V, file: V, jobs: seq<J>): V {
    if jobs == [] then file else apply(OneByOne(apply, file, jobs[..|jobs| - 1]), jobs[|jobs| - 1])
  }

  /** Work in progress is that of the process inside fn, on what the file still holds. */
  ghost predicate Current<V, J>(apply: (V, J) -> V, s: State<V, J>, p: Pid) {
    p in s.work ==>
      && FileLock.Inside(s.lock, p)
      && (s.work[p].Reread? ==> s.work[p].disk == s.file)
      && (s.work[p].Merged? ==> s.work[p].result == apply(s.file, s.work[p].job))
  }

  ghost predicate Serial<V, J>(apply: (V, J) -> V, file: V, s: State<V, J>) {
    && FileLock.Exclusive(s.lock)
    && (forall p :: Current(apply, s, p))
    && s.file == OneByOne(apply, file, s.log)
  }

  lemma InsideStays(staleMs: nat, s: FileLock.State, l: FileLock.Step, p: Pid)
    requires FileLock.Enabled(s, l) && FileLock.Inside(s, p) && !(EndsFn(l) && l.p == p)
    ensures FileLock.Inside(FileLock.Next(staleMs, s, l), p)
  {
  }

  lemma LogGrows<V, J>(apply: (V, J) -> V, file: V, log: seq<J>, job: J)
    ensures OneByOne(apply, file, log + [job]) == apply(OneByOne(apply, file, log), job)
  {
    assert (log + [job])[..|log + [job]| - 1] == log;
  }

  lemma StepKeepsSerial<V, J>(staleMs: nat, apply: (V, J) -> V, file: V, s: State<V, J>, step: Step<J>)
    requires Serial(apply, file, s) && Enabled(s, step)
    requires step.Lock? ==> FileLock.Safe(staleMs, s.lock, step.step)
    ensures Serial(apply, file, Next(staleMs, apply, s, step))
  {
    var s' := Next(staleMs, apply, s, step);
    if step.Lock? {
      FileLock.ExclusiveStep(staleMs, s.lock, step.step);
    }
    if step.WriteFile? {
      assert Current(apply, s, step.p);
      LogGrows(apply, file, s.log, s.work[step.p].job);
    }
    forall p ensures Current(apply, s', p) {
      assert Current(apply, s, p);
      if p in s'.work {
        if step.Lock? {
          InsideStays(staleMs, s.lock, step.step, p);
        } else if p in s.work && p != step.p && step.p in s.work {
          assert Current(apply, s, step.p);
          FileLock.OneInside(s.lock, p, step.p);
        }
      }
    }
  }

  /**
   * However the processes interleave, and wherever they crash, as long as the lock's steps are
   * safe the file is what the same saves make of it one at a time: no save is lost.
   */
  lemma {:induction false} SavesAreSerial<V, J>(
      staleMs: nat, apply: (V, J) -> V, file: V, s: State<V, J>, steps: seq<Step<J>>, end: State<V, J>)
    requires Serial(apply, file, s) && Safely(staleMs, apply, s, steps)
    requires Perform(staleMs, apply, s, steps) == Some(end)
    ensures Serial(apply, file, end)
    decreases |steps|
  {
    if steps != [] {
      StepKeepsSerial(staleMs, apply, file, s, steps[0]);
      SavesAreSerial(staleMs, apply, file, Next(staleMs, apply, s, steps[0]), steps[1..], end);
    }
  }

  function Start<V, J>(lock: FileLock.State, file: V): State<V, J> {
    State(lock, file, map[], [])
  }

  lemma StartIsSerial<V, J>(apply: (V, J) -> V, lock: FileLock.State, file: V)
    requires FileLock.Init(lock)
    ensures Serial<V, J>(apply, file, Start(lock, file))
  {
    FileLock.InitIsExclusive(lock);
  }

  /** With two processes inside, the save that is written first is lost: the last one never read it. */
  lemma TwoInsideLoseASave<V, J>(staleMs: nat, apply: (V, J) -> V, s: State<V, J>, p: Pid, q: Pid)
    requires p in s.work && s.work[p].Called? && q in s.work && s.work[q].Called? && p != q
    ensures var steps := [ReadFile(p), ReadFile(q), Merge(p), Merge(q), WriteFile(p), WriteFile(q)];
            var after := Perform(staleMs, apply, s, steps);
            && after.Some? && after.value.log == s.log + [s.work[p].job] + [s.work[q].job]
            && after.value.file == apply(s.file, s.work[q].job)
  {
    var s1 := Next(staleMs, apply, s, ReadFile(p));
    var s2 := Next(staleMs, apply, s1, ReadFile(q));
    var s3 := Next(staleMs, apply, s2, Merge(p));
    var s4 := Next(staleMs, apply, s3, Merge(q));
    var s5 := Next(staleMs, apply, s4, WriteFile(p));
    var s6 := Next(staleMs, apply, s5, WriteFile(q));
    PerformFirst(staleMs, apply, s5, WriteFile(q), []);
    PerformFirst(staleMs, apply, s4, WriteFile(p), [WriteFile(q)]);
    PerformFirst(staleMs, apply, s3, Merge(q), [WriteFile(p), WriteFile(q)]);
    PerformFirst(staleMs, apply, s2, Merge(p), [Merge(q), WriteFile(p), WriteFile(q)]);
    PerformFirst(staleMs, apply, s1, ReadFile(q), [Merge(p), Merge(q), WriteFile(p), WriteFile(q)]);
    PerformFirst(staleMs, apply, s, ReadFile(p), [ReadFile(q), Merge(p), Merge(q), WriteFile(p), WriteFile(q)]);
  }

  lemma PerformFirst<V, J>(staleMs: nat, apply: (V, J) -> V, s: State<V, J>, step: Step<J>, more: seq<Step<J>>)
    requires Enabled(s, step)
    ensures Perform(staleMs, apply, s, [step] + more) == Perform(staleMs, apply, Next(staleMs, apply, s, step), more)
  {
    assert ([step] + more)[1..] == more;
  }

  // ---- The token file ----

  type TokenDisk = Option<Tokens.StoredTokens>

  /** FileTokenStore.clear takes the same lock. */
  datatype TokenJob = Save(tokens: Tokens.StoredTokens) | Clear

  function TokenFile(c: Tokens.Clock): (TokenDisk, TokenJob) -> TokenDisk {
    (disk, job: TokenJob) => if job.Save? then Some(Tokens.Merge(c, disk, job.tokens)) else None
  }

  /** The saves after the last clear, and what they found. */
  function SavesSince(jobs: seq<TokenJob>): seq<Tokens.StoredTokens> {
    if jobs == [] then []
    else
      var last := |jobs| - 1;
      if jobs[last].Clear? then [] else SavesSince(jobs[..last]) + [jobs[last].tokens]
  }

  function DiskSince(disk: TokenDisk, jobs: seq<TokenJob>): TokenDisk {
    if Clear in jobs then None else disk
  }

  lemma {:induction false} OneByOneIsAfterSaves(c: Tokens.Clock, disk: TokenDisk, jobs: seq<TokenJob>)
    ensures OneByOne(TokenFile(c), disk, jobs) == Tokens.AfterSaves(c, DiskSince(disk, jobs), SavesSince(jobs))
  {
    if jobs != [] {
      var last := |jobs| - 1;
      var before := jobs[..last];
      if jobs[last].Save? {
        OneByOneIsAfterSaves(c, disk, before);
        var saves := SavesSince(before);
        assert jobs == before + [jobs[last]] && (Clear in jobs <==> Clear in before);
        assert (saves + [jobs[last].tokens])[..|saves|] == saves;
      }
    }
  }

  /**
   * Saves and clears of several processes under the lock: the disk is that of the same jobs in
   * the order of their writes. So, since the last clear, its freshness is the maximum written
   * and its tokens are those of the last save that reached it.
   */
  lemma TokenSavesUnderLock(
      staleMs: nat, c: Tokens.Clock, lock: FileLock.State, disk: TokenDisk, steps: seq<Step<TokenJob>>,
      end: State<TokenDisk, TokenJob>, k: nat)
    requires FileLock.Init(lock) && Safely(staleMs, TokenFile(c), Start(lock, disk), steps)
    requires Perform(staleMs, TokenFile(c), Start(lock, disk), steps) == Some(end)
    requires forall t :: t in SavesSince(end.log) ==> Tokens.Ordinary(c, t) && Tokens.AuthDefined(t)
    ensures var found, saves := DiskSince(disk, end.log), SavesSince(end.log);
            && end.file == Tokens.AfterSaves(c, found, saves)
            && Tokens.DiskFreshness(c, end.file) == Tokens.Freshest(c, found, saves)
            && (Tokens.LastFreshest(c, saves, k) && Tokens.DiskFreshness(c, found) <= Tokens.Freshness(c, saves[k]) ==>
                  end.file.Some? && Tokens.AuthOf(end.file.value) == Tokens.AuthOf(saves[k]))
  {
    var found, saves := DiskSince(disk, end.log), SavesSince(end.log);
    StartIsSerial<TokenDisk, TokenJob>(TokenFile(c), lock, disk);
    SavesAreSerial(staleMs, TokenFile(c), disk, Start(lock, disk), steps, end);
    OneByOneIsAfterSaves(c, disk, end.log);
    Tokens.FreshnessNeverDrops(c, found, saves);
    if Tokens.LastFreshest(c, saves, k) && Tokens.DiskFreshness(c, found) <= Tokens.Freshness(c, saves[k]) {
      Tokens.TokensOfLastFreshest(c, found, saves, k);
    }
  }

  // ---- The configuration file ----

  type ConfigDisk = Option<Config.Doc>

  /** A store's data and the keys it remembers, as its save finds them. */
  datatype ConfigJob = ConfigJob(incoming: Config.Doc, baseline: Config.Baseline)

  function SaveConfig(disk: ConfigDisk, job: ConfigJob): ConfigDisk {
    Some(Config.Merged(disk, job.incoming, job.baseline))
  }

  predicate Keeps(job: ConfigJob, col: Config.Column, k: string) {
    k in Config.Known(job.baseline, col) ==> k in Config.Of(job.incoming, col)
  }

  lemma {:induction false} KeptKeyStaysOneByOne(disk: ConfigDisk, jobs: seq<ConfigJob>, col: Config.Column, k: string)
    requires k != Config.PROTO && forall i :: 0 <= i < |jobs| ==> Keeps(jobs[i], col, k)
    requires (disk.Some? && k in Config.Of(disk.value, col))
      || exists i :: 0 <= i < |jobs| && k in Config.Of(jobs[i].incoming, col)
    ensures var after := OneByOne(SaveConfig, disk, jobs); after.Some? && k in Config.Of(after.value, col)
  {
    if jobs != [] {
      var last := |jobs| - 1;
      var before := jobs[..last];
      assert Keeps(jobs[last], col, k);
      if k !in Config.Of(jobs[last].incoming, col) {
        if !(disk.Some? && k in Config.Of(disk.value, col)) {
          var i :| 0 <= i < |jobs| && k in Config.Of(jobs[i].incoming, col);
          assert before[i] == jobs[i];
        }
        KeptKeyStaysOneByOne(disk, before, col, k);
      }
    }
  }

  /** The value of an entry that no save deletes is that of the last save that held it. */
  lemma {:induction false} LastSaversValue(
      disk: ConfigDisk, jobs: seq<ConfigJob>, col: Config.Column, k: string, l: nat)
    requires k != Config.PROTO && forall i :: 0 <= i < |jobs| ==> Keeps(jobs[i], col, k)
    requires l < |jobs| && k in Config.Of(jobs[l].incoming, col)
    requires forall i :: l < i < |jobs| ==> k !in Config.Of(jobs[i].incoming, col)
    ensures var after := OneByOne(SaveConfig, disk, jobs);
            && after.Some? && k in Config.Of(after.value, col)
            && Config.Of(after.value, col)[k] == Config.Of(jobs[l].incoming, col)[k]
  {
    var last := |jobs| - 1;
    assert Keeps(jobs[last], col, k);
    if l < last {
      LastSaversValue(disk, jobs[..last], col, k, l);
    }
  }

  /** Saves of several stores under the lock: the value of an entry is that of the last save that held it. */
  lemma ConfigValueUnderLock(
      staleMs: nat, lock: FileLock.State, disk: ConfigDisk, steps: seq<Step<ConfigJob>>,
      end: State<ConfigDisk, ConfigJob>, col: Config.Column, k: string, l: nat)
    requires FileLock.Init(lock) && Safely(staleMs, SaveConfig, Start(lock, disk), steps)
    requires Perform(staleMs, SaveConfig, Start(lock, disk), steps) == Some(end)
    requires k != Config.PROTO && forall i :: 0 <= i < |end.log| ==> Keeps(end.log[i], col, k)
    requires l < |end.log| && k in Config.Of(end.log[l].incoming, col)
    requires forall i :: l < i < |end.log| ==> k !in Config.Of(end.log[i].incoming, col)
    ensures end.file.Some? && k in Config.Of(end.file.value, col)
    ensures Config.Of(end.file.value, col)[k] == Config.Of(end.log[l].incoming, col)[k]
  {
    StartIsSerial<ConfigDisk, ConfigJob>(SaveConfig, lock, disk);
    SavesAreSerial(staleMs, SaveConfig, disk, Start(lock, disk), steps, end);
    LastSaversValue(disk, end.log, col, k, l);
  }

  /**
   * And an entry that the last save deleted, known to its store and not named like an inherited
   * property, is gone, whatever the other processes inside and outside the lock did meanwhile.
   */
  lemma ConfigDeleteUnderLock(
      staleMs: nat, lock: FileLock.State, disk: ConfigDisk, steps: seq<Step<ConfigJob>>,
      end: State<ConfigDisk, ConfigJob>, col: Config.Column, k: string)
    requires FileLock.Init(lock) && Safely(staleMs, SaveConfig, Start(lock, disk), steps)
    requires Perform(staleMs, SaveConfig, Start(lock, disk), steps) == Some(end)
    requires end.log != [] && !Keeps(end.log[|end.log| - 1], col, k) && k !in Config.INHERITED
    ensures end.file.Some? && k !in Config.Of(end.file.value, col)
  {
    StartIsSerial<ConfigDisk, ConfigJob>(SaveConfig, lock, disk);
    SavesAreSerial(staleMs, SaveConfig, disk, Start(lock, disk), steps, end);
  }

  /** Saves of several stores under the lock: an entry on disk, or written by any save, is lost by none. */
  lemma ConfigSavesUnderLock(
      staleMs: nat, lock: FileLock.State, disk: ConfigDisk, steps: seq<Step<ConfigJob>>,
      end: State<ConfigDisk, ConfigJob>, col: Config.Column, k: string)
    requires FileLock.Init(lock) && Safely(staleMs, SaveConfig, Start(lock, disk), steps)
    requires Perform(staleMs, SaveConfig, Start(lock, disk), steps) == Some(end)
    requires k != Config.PROTO && forall i :: 0 <= i < |end.log| ==> Keeps(end.log[i], col, k)
    requires (disk.Some? && k in Config.Of(disk.value, col))
      || exists i :: 0 <= i < |end.log| && k in Config.Of(end.log[i].incoming, col)
    ensures end.file == OneByOne(SaveConfig, disk, end.log)
    ensures end.file.Some? && k in Config.Of(end.file.value, col)
  {
    StartIsSerial<ConfigDisk, ConfigJob>(SaveConfig, lock, disk);
    SavesAreSerial(staleMs, SaveConfig, disk, Start(lock, disk), steps, end);
    KeptKeyStaysOneByOne(disk, end.log, col, k);
  }
}
