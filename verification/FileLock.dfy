/**
 * withFileLock and isLockStale (packages/core/src/secure-fs.js:137-172, 186-276) as atomic
 * steps of any number of processes over one lock path. Every system call is its own step,
 * so processes interleave between any two of them; a process may crash at any point.
 */
module FileLock {
  import opened Wrappers

  type Pid = int
  type Ino = int

  /** A lock file. Once written it records the pid of its creator. */
  datatype Inode = Inode(owner: Pid, created: nat, mtime: nat, written: bool)

  /** Where a process stands inside withFileLock. */
  datatype Pc =
    | Idle                        // outside, or about to attempt the exclusive create
    | Writing(ino: Ino)           // created the lock, its record not yet written
    | Written(ino: Ino)           // record written, own inode not yet read
    | InFn(ino: Ino)              // running fn
    | Releasing(ino: Ino)         // fn is over, the lock path not yet compared
    | Matched(ino: Ino)           // the lock path showed the own inode
    | Blocked                     // the create failed with EEXIST
    | Opened(ino: Ino)            // opened the existing lock
    | Statted(ino: Ino)           // found it young enough, its record not yet read
    | Judged(ino: Ino)            // judged it stale
    | Renamed(ino: Ino)           // moved the lock path away
    | Compared(ino: Ino, same: bool)
    | Waiting                     // not stale: retry, or give up at the deadline
    | Dead

  datatype State = State(
    now: nat,
    pcs: map<Pid, Pc>,
    lock: Option<Ino>,            // what the lock path names
    inodes: map<Ino, Inode>,      // every lock file ever created
    reaped: map<Pid, Ino>)        // the .reap.<pid> files

  datatype Step =
    | Tick(ms: nat)
    | Create(p: Pid, ino: Ino)  // inode numbers are never reused
    | Write(p: Pid)
    | WriteFails(p: Pid)
    | Enter(p: Pid)
    | Finish(p: Pid)
    | ReleaseStat(p: Pid)
    | ReleaseUnlink(p: Pid)
    | ReleaseAtomically(p: Pid)   // stat, compare and unlink as one step
    | Open(p: Pid)
    | Fstat(p: Pid)
    | Read(p: Pid)
    | Rename(p: Pid)
    | StatReaped(p: Pid, succeeds: bool)
    | Discard(p: Pid)
    | Retry(p: Pid)
    | Crash(p: Pid)

  predicate Enabled(s: State, step: Step) {
    match step
    case Tick(_) => true
    case Create(p, n) => p in s.pcs && s.pcs[p].Idle? && n !in s.inodes
    case Write(p) => p in s.pcs && s.pcs[p].Writing? && s.pcs[p].ino in s.inodes
    case WriteFails(p) => p in s.pcs && s.pcs[p].Writing?
    case Enter(p) => p in s.pcs && s.pcs[p].Written?
    case Finish(p) => p in s.pcs && s.pcs[p].InFn?
    case ReleaseStat(p) => p in s.pcs && s.pcs[p].Releasing?
    case ReleaseUnlink(p) => p in s.pcs && s.pcs[p].Matched?
    case ReleaseAtomically(p) => p in s.pcs && s.pcs[p].Releasing?
    case Open(p) => p in s.pcs && s.pcs[p].Blocked?
    case Fstat(p) => p in s.pcs && s.pcs[p].Opened? && s.pcs[p].ino in s.inodes
    case Read(p) => p in s.pcs && s.pcs[p].Statted? && s.pcs[p].ino in s.inodes
    case Rename(p) => p in s.pcs && s.pcs[p].Judged?
    case StatReaped(p, _) => p in s.pcs && s.pcs[p].Renamed? && p in s.reaped
    case Discard(p) => p in s.pcs && s.pcs[p].Compared? && p in s.reaped
    case Retry(p) => p in s.pcs && s.pcs[p].Waiting?
    case Crash(p) => p in s.pcs && !s.pcs[p].Dead?
  }

  function At(s: State, p: Pid, pc: Pc): State {
    s.(pcs := s.pcs[p := pc])
  }

  /** kill(pid, 0) fails with ESRCH. */
  predicate Gone(s: State, p: Pid) {
    p !in s.pcs || s.pcs[p].Dead?
  }

  function Next(staleMs: nat, s: State, step: Step): State
    requires Enabled(s, step)
  {
    match step
    case Tick(ms) => s.(now := s.now + ms)
    case Create(p, n) =>
      if s.lock.Some? then At(s, p, Blocked)
      else At(s, p, Writing(n)).(lock := Some(n), inodes := s.inodes[n := Inode(p, s.now, s.now, false)])
    case Write(p) =>
      var n := s.pcs[p].ino;
      At(s, p, Written(n)).(inodes := s.inodes[n := s.inodes[n].(mtime := s.now, written := true)])
    case WriteFails(p) => At(s, p, Idle)
    case Enter(p) => At(s, p, InFn(s.pcs[p].ino))
    case Finish(p) => At(s, p, Releasing(s.pcs[p].ino))
    case ReleaseStat(p) => At(s, p, if s.lock == Some(s.pcs[p].ino) then Matched(s.pcs[p].ino) else Idle)
    case ReleaseUnlink(p) => At(s, p, Idle).(lock := None)
    case ReleaseAtomically(p) => At(s, p, Idle).(lock := if s.lock == Some(s.pcs[p].ino) then None else s.lock)
    case Open(p) => At(s, p, if s.lock.Some? then Opened(s.lock.value) else Waiting)
    case Fstat(p) =>
      var m := s.pcs[p].ino;
      At(s, p, if s.now - s.inodes[m].mtime > staleMs then Judged(m) else Statted(m))
    case Read(p) =>
      var m := s.pcs[p].ino;
      At(s, p, if s.inodes[m].written && Gone(s, s.inodes[m].owner) then Judged(m) else Waiting)
    case Rename(p) =>
      if s.lock.None? then At(s, p, Idle)
      else At(s, p, Renamed(s.pcs[p].ino)).(lock := None, reaped := s.reaped[p := s.lock.value])
    case StatReaped(p, succeeds) =>
      At(s, p, Compared(s.pcs[p].ino, !succeeds || s.reaped[p] == s.pcs[p].ino))
    case Discard(p) =>
      At(s, p, Idle).(lock := if s.pcs[p].same then s.lock else Some(s.reaped[p]), reaped := s.reaped - {p})
    case Retry(p) => At(s, p, Idle)
    case Crash(p) => At(s, p, Dead)
  }

  predicate Init(s: State) {
    && (forall p :: p in s.pcs ==> s.pcs[p].Idle?)
    && s.lock == None && s.inodes == map[] && s.reaped == map[]
  }

  /** A run: the states a sequence of steps goes through. */
  predicate Run(staleMs: nat, states: seq<State>, steps: seq<Step>) {
    && |states| == |steps| + 1 && Init(states[0])
    && forall i :: 0 <= i < |steps| ==> Moves(staleMs, states[i], steps[i], states[i + 1])
  }

  predicate Moves(staleMs: nat, s: State, step: Step, s': State) {
    Enabled(s, step) && s' == Next(staleMs, s, step)
  }

  /** The lock a process holds, from its create to the end of its release. */
  function Held(pc: Pc): Option<Ino> {
    match pc
    case Writing(n) => Some(n)
    case Written(n) => Some(n)
    case InFn(n) => Some(n)
    case Releasing(n) => Some(n)
    case Matched(n) => Some(n)
    case _ => None
  }

  predicate Holds(s: State, p: Pid, n: Ino) {
    HeldBy(s, p) == Some(n)
  }

  function HeldBy(s: State, p: Pid): Option<Ino> {
    if p in s.pcs then Held(s.pcs[p]) else None
  }

  /** The inode a process has judged stale and is about to reap, or reaping. */
  function ReapedBy(s: State, p: Pid): Option<Ino> {
    if p !in s.pcs then None
    else
      match s.pcs[p]
      case Judged(m) => Some(m)
      case Renamed(m) => Some(m)
      case Compared(m, _) => Some(m)
      case _ => None
  }

  // ---- What every run keeps ----

  predicate Known(s: State, p: Pid) {
    && (p in s.pcs && (s.pcs[p].Opened? || s.pcs[p].Statted?) ==> s.pcs[p].ino in s.inodes)
    && (ReapedBy(s, p).Some? ==> ReapedBy(s, p).value in s.inodes)
    && (HeldBy(s, p).Some? ==> HeldBy(s, p).value in s.inodes && s.inodes[HeldBy(s, p).value].owner == p)
    && (p in s.reaped ==> s.reaped[p] in s.inodes)
  }

  predicate Dated(s: State, n: Ino) {
    n in s.inodes ==> s.inodes[n].created <= s.inodes[n].mtime <= s.now
  }

  /** Every lock file a process has met exists, and only its creator ever holds one. */
  ghost predicate Owned(s: State) {
    && (forall n :: Dated(s, n))
    && (s.lock.Some? ==> s.lock.value in s.inodes)
    && (forall p :: Known(s, p))
  }

  lemma OwnedStep(staleMs: nat, s: State, step: Step)
    requires Owned(s) && Enabled(s, step)
    ensures Owned(Next(staleMs, s, step))
  {
    var s' := Next(staleMs, s, step);
    if !step.Tick? {
      assert Known(s, step.p);
    }
    forall n ensures Dated(s', n) {
      assert Dated(s, n);
    }
    forall p ensures Known(s', p) {
      assert Known(s, p);
    }
  }

  lemma {:induction false} RunIsOwned(staleMs: nat, states: seq<State>, steps: seq<Step>, i: nat)
    requires Run(staleMs, states, steps) && i <= |steps|
    ensures Owned(states[i])
  {
    if i > 0 {
      RunIsOwned(staleMs, states, steps, i - 1);
      assert Moves(staleMs, states[i - 1], steps[i - 1], states[i]);
      OwnedStep(staleMs, states[i - 1], steps[i - 1]);
    }
  }

  // ---- Mutual exclusion ----

  /** A reaping rename still finds the inode that was judged, or nothing. */
  predicate HitsItsTarget(s: State, step: Step) {
    step.Rename? && s.lock.Some? ==> ReapedBy(s, step.p) == s.lock
  }

  /** A verdict by age is never passed on a lock that a live process holds. */
  ghost predicate VerdictInTime(staleMs: nat, s: State, step: Step) {
    step.Fstat? && step.p in s.pcs && s.pcs[step.p].Opened? && s.pcs[step.p].ino in s.inodes ==>
      forall q :: HeldBy(s, q) == Some(s.pcs[step.p].ino) ==> s.now - s.inodes[s.pcs[step.p].ino].mtime <= staleMs
  }

  /** The two guards of the source at which exclusion can be lost: the rename and the age test. */
  ghost predicate Safe(staleMs: nat, s: State, step: Step) {
    HitsItsTarget(s, step) && VerdictInTime(staleMs, s, step)
  }

  /** A holder's lock is the one the path names; what a process reaps is what it judged. */
  predicate Secure(s: State, p: Pid) {
    && (HeldBy(s, p).Some? ==> s.lock == HeldBy(s, p))
    && (p in s.pcs && s.pcs[p].Renamed? && p in s.reaped ==> s.reaped[p] == s.pcs[p].ino)
    && (p in s.pcs && s.pcs[p].Compared? ==> s.pcs[p].same)
  }

  predicate Apart(s: State, p: Pid, q: Pid) {
    ReapedBy(s, p).Some? ==> ReapedBy(s, p) != HeldBy(s, q)
  }

  ghost predicate Exclusive(s: State) {
    && Owned(s)
    && (forall p :: Secure(s, p))
    && (forall p, q :: Apart(s, p, q))
  }

  /** A stale verdict is passed only on a lock that no live process holds. */
  lemma StaleVerdictMeansUnheld(staleMs: nat, s: State, step: Step, q: Pid)
    requires Exclusive(s) && VerdictInTime(staleMs, s, step) && Enabled(s, step) && (step.Fstat? || step.Read?)
    ensures Apart(Next(staleMs, s, step), step.p, q)
  {
    assert Known(s, q) && Apart(s, step.p, q);
  }

  lemma ExclusiveStep(staleMs: nat, s: State, step: Step)
    requires Exclusive(s) && Enabled(s, step) && Safe(staleMs, s, step)
    ensures Exclusive(Next(staleMs, s, step))
  {
    var s' := Next(staleMs, s, step);
    OwnedStep(staleMs, s, step);
    forall p ensures Secure(s', p) {
      SecureStep(staleMs, s, step, p);
    }
    forall p, q ensures Apart(s', p, q) {
      ApartStep(staleMs, s, step, p, q);
    }
  }

  /** A step keeps the invariant exactly when it is safe. */
  lemma ExclusiveStepExactlyWhenSafe(staleMs: nat, s: State, step: Step)
    requires Exclusive(s) && Enabled(s, step)
    ensures Exclusive(Next(staleMs, s, step)) <==> Safe(staleMs, s, step)
  {
    var s' := Next(staleMs, s, step);
    if Safe(staleMs, s, step) {
      ExclusiveStep(staleMs, s, step);
    } else if !HitsItsTarget(s, step) {
      assert !Secure(s', step.p);
    } else {
      var q :| HeldBy(s, q) == Some(s.pcs[step.p].ino) && s.now - s.inodes[s.pcs[step.p].ino].mtime > staleMs;
      assert !Apart(s', step.p, q);
    }
  }

  lemma SecureStep(staleMs: nat, s: State, step: Step, p: Pid)
    requires Exclusive(s) && Enabled(s, step) && HitsItsTarget(s, step)
    ensures Secure(Next(staleMs, s, step), p)
  {
    assert Secure(s, p) && Known(s, p);
    if !step.Tick? {
      assert Secure(s, step.p) && Known(s, step.p) && Apart(s, step.p, p);
    }
  }

  lemma ApartStep(staleMs: nat, s: State, step: Step, p: Pid, q: Pid)
    requires Exclusive(s) && Enabled(s, step) && Safe(staleMs, s, step)
    ensures Apart(Next(staleMs, s, step), p, q)
  {
    assert Apart(s, p, q) && Known(s, p);
    if (step.Fstat? || step.Read?) && p == step.p {
      StaleVerdictMeansUnheld(staleMs, s, step, q);
    }
  }

  /** A run all of whose steps are safe. */
  ghost predicate SafeRun(staleMs: nat, states: seq<State>, steps: seq<Step>) {
    Run(staleMs, states, steps) && forall i :: 0 <= i < |steps| ==> Safe(staleMs, states[i], steps[i])
  }

  lemma InitIsExclusive(s: State)
    requires Init(s)
    ensures Exclusive(s)
  {
  }

  lemma {:induction false} SafeRunIsExclusive(staleMs: nat, states: seq<State>, steps: seq<Step>, i: nat)
    requires SafeRun(staleMs, states, steps) && i <= |steps|
    ensures Exclusive(states[i])
  {
    if i == 0 {
      InitIsExclusive(states[0]);
    } else {
      SafeRunIsExclusive(staleMs, states, steps, i - 1);
      assert Moves(staleMs, states[i - 1], steps[i - 1], states[i]) && Safe(staleMs, states[i - 1], steps[i - 1]);
      ExclusiveStep(staleMs, states[i - 1], steps[i - 1]);
    }
  }

  /** A run keeps the invariant throughout exactly when all its steps are safe. */
  lemma RunIsExclusiveExactlyWhenSafe(staleMs: nat, states: seq<State>, steps: seq<Step>)
    requires Run(staleMs, states, steps)
    ensures (forall i :: 0 <= i <= |steps| ==> Exclusive(states[i])) <==> SafeRun(staleMs, states, steps)
  {
    if SafeRun(staleMs, states, steps) {
      forall i | 0 <= i <= |steps| ensures Exclusive(states[i]) {
        SafeRunIsExclusive(staleMs, states, steps, i);
      }
    }
    if forall i :: 0 <= i <= |steps| ==> Exclusive(states[i]) {
      forall i | 0 <= i < |steps| ensures Safe(staleMs, states[i], steps[i]) {
        assert Moves(staleMs, states[i], steps[i], states[i + 1]);
        ExclusiveStepExactlyWhenSafe(staleMs, states[i], steps[i]);
      }
    }
  }

  predicate Inside(s: State, p: Pid) {
    p in s.pcs && s.pcs[p].InFn?
  }

  /** At most one live process runs fn. */
  lemma MutualExclusion(staleMs: nat, states: seq<State>, steps: seq<Step>, i: nat, p: Pid, q: Pid)
    requires SafeRun(staleMs, states, steps) && i <= |steps|
    requires Inside(states[i], p) && Inside(states[i], q)
    ensures p == q
  {
    SafeRunIsExclusive(staleMs, states, steps, i);
    OneInside(states[i], p, q);
  }

  lemma OneInside(s: State, p: Pid, q: Pid)
    requires Exclusive(s) && Inside(s, p) && Inside(s, q)
    ensures p == q
  {
    assert Secure(s, p) && Secure(s, q) && Known(s, p) && Known(s, q);
  }

  // ---- Holders that keep within staleMs ----

  /** No live holder has held its lock for longer than staleMs. */
  ghost predicate Timely(staleMs: nat, s: State) {
    forall p :: InTime(staleMs, s, p)
  }

  predicate InTime(staleMs: nat, s: State, p: Pid) {
    HeldBy(s, p).Some? && HeldBy(s, p).value in s.inodes ==> s.now - s.inodes[HeldBy(s, p).value].created <= staleMs
  }

  /** When every holder lets go within staleMs of its create, only the renames are left to watch. */
  lemma TimelyRunIsSafe(staleMs: nat, states: seq<State>, steps: seq<Step>)
    requires Run(staleMs, states, steps)
    requires forall i :: 0 <= i < |steps| ==> Timely(staleMs, states[i])
    requires forall i :: 0 <= i < |steps| ==> HitsItsTarget(states[i], steps[i])
    ensures SafeRun(staleMs, states, steps)
  {
    forall i | 0 <= i < |steps| ensures Safe(staleMs, states[i], steps[i]) {
      RunIsOwned(staleMs, states, steps, i);
      assert Timely(staleMs, states[i]) && HitsItsTarget(states[i], steps[i]);
      TimelyVerdict(staleMs, states[i], steps[i]);
    }
  }

  lemma TimelyVerdict(staleMs: nat, s: State, step: Step)
    requires Owned(s) && Timely(staleMs, s)
    ensures VerdictInTime(staleMs, s, step)
  {
    if step.Fstat? && step.p in s.pcs && s.pcs[step.p].Opened? && s.pcs[step.p].ino in s.inodes {
      var m := s.pcs[step.p].ino;
      forall q | HeldBy(s, q) == Some(m) ensures s.now - s.inodes[m].mtime <= staleMs {
        assert InTime(staleMs, s, q) && Dated(s, m);
      }
    }
  }

  // ---- Release ----

  /**
   * In any run, however late its holder and whatever was reaped meanwhile, a release that
   * compares and unlinks in one step leaves every other holder's lock in place.
   */
  lemma AtomicReleaseSparesOthers(staleMs: nat, states: seq<State>, steps: seq<Step>, i: nat, q: Pid, n: Ino)
    requires Run(staleMs, states, steps) && i < |steps| && steps[i].ReleaseAtomically? && q != steps[i].p
    requires Holds(states[i], q, n) && states[i].lock == Some(n)
    ensures states[i + 1].lock == Some(n)
  {
    RunIsOwned(staleMs, states, steps, i);
    assert Moves(staleMs, states[i], steps[i], states[i + 1]);
    assert Known(states[i], q) && Known(states[i], steps[i].p);
  }

  /** The two-call release of the source unlinks its own lock in every safe run. */
  lemma SafeReleaseUnlinksItsOwn(staleMs: nat, states: seq<State>, steps: seq<Step>, i: nat, q: Pid)
    requires SafeRun(staleMs, states, steps) && i < |steps| && steps[i].ReleaseUnlink?
    ensures states[i].lock == HeldBy(states[i], steps[i].p) && states[i].lock.Some?
    ensures HeldBy(states[i + 1], q) == None
  {
    SafeRunIsExclusive(staleMs, states, steps, i);
    assert Moves(staleMs, states[i], steps[i], states[i + 1]);
    var s, p := states[i], steps[i].p;
    assert Secure(s, p) && Secure(s, q) && Known(s, p) && Known(s, q);
  }

  predicate Steps(step: Step, p: Pid) {
    !step.Tick? && step.p == p
  }

  /** An unlink of the release always follows a stat that showed the own inode on the lock path. */
  lemma {:induction false} UnlinkFollowsMatch(
      staleMs: nat, states: seq<State>, steps: seq<Step>, i: nat, p: Pid, n: Ino) returns (j: nat)
    requires Run(staleMs, states, steps) && i <= |steps| && p in states[i].pcs && states[i].pcs[p] == Matched(n)
    ensures j < i && steps[j] == ReleaseStat(p) && states[j].lock == Some(n) && HeldBy(states[j], p) == Some(n)
    ensures forall l :: j < l < i ==> !Steps(steps[l], p)
  {
    assert i > 0;
    j := i - 1;
    assert Moves(staleMs, states[j], steps[j], states[i]);
    if !Steps(steps[j], p) {
      j := UnlinkFollowsMatch(staleMs, states, steps, j, p, n);
    }
  }

  /**
   * In any run, safe or not: a release that finds another lock on the path, or none, leaves
   * the path alone, and its process unlinks nothing until it has created a lock again. So a
   * holder that comes back late and was taken over before its stat spares the new owner.
   */
  lemma {:induction false} TakenOverLockIsLeft(
      staleMs: nat, states: seq<State>, steps: seq<Step>, i: nat, j: nat, p: Pid)
    requires Run(staleMs, states, steps) && i < j <= |steps|
    requires steps[i] == ReleaseStat(p) && HeldBy(states[i], p) != states[i].lock
    requires forall l :: i < l < j ==> !(steps[l].Create? && steps[l].p == p)
    ensures states[i + 1].lock == states[i].lock
    ensures HeldBy(states[j], p) == None
    ensures !Enabled(states[j], ReleaseUnlink(p)) && !Enabled(states[j], ReleaseAtomically(p))
  {
    assert Moves(staleMs, states[i], steps[i], states[i + 1]);
    if j > i + 1 {
      TakenOverLockIsLeft(staleMs, states, steps, i, j - 1, p);
      assert Moves(staleMs, states[j - 1], steps[j - 1], states[j]);
    }
  }

  /** A lock leaves the path by an unlink, a rename or a restore; no failure or crash removes it. */
  lemma LockLeavesPathOnlyBy(staleMs: nat, states: seq<State>, steps: seq<Step>, i: nat)
    requires Run(staleMs, states, steps) && i < |steps|
    requires states[i].lock.Some? && states[i + 1].lock != states[i].lock
    ensures match steps[i]
            case ReleaseUnlink(p) => true
            case ReleaseAtomically(p) => HeldBy(states[i], p) == states[i].lock
            case Rename(p) => states[i + 1].lock == None && ReapedBy(states[i], p).Some?
            case Discard(p) => p in states[i].reaped && states[i + 1].lock == Some(states[i].reaped[p])
                               && ReapedBy(states[i], p) != states[i + 1].lock
            case _ => false
  {
    assert Moves(staleMs, states[i], steps[i], states[i + 1]);
    RunCompares(staleMs, states, steps, i);
    assert steps[i].Discard? ==> ComparedRight(states[i], steps[i].p);
  }

  /** A comparison that failed is one of two different inodes. */
  predicate ComparedRight(s: State, p: Pid) {
    p in s.pcs && s.pcs[p].Compared? && !s.pcs[p].same ==> p in s.reaped && s.reaped[p] != s.pcs[p].ino
  }

  lemma {:induction false} RunCompares(staleMs: nat, states: seq<State>, steps: seq<Step>, i: nat)
    requires Run(staleMs, states, steps) && i <= |steps|
    ensures forall p :: ComparedRight(states[i], p)
  {
    if i > 0 {
      RunCompares(staleMs, states, steps, i - 1);
      assert Moves(staleMs, states[i - 1], steps[i - 1], states[i]);
      forall p ensures ComparedRight(states[i], p) {
        assert ComparedRight(states[i - 1], p);
      }
    }
  }

  // ---- Recovery ----

  /** The state a sequence of steps leads to, if each step can be taken. */
  function Perform(staleMs: nat, s: State, steps: seq<Step>): Option<State>
    decreases |steps|
  {
    if steps == [] then Some(s)
    else if Enabled(s, steps[0]) then Perform(staleMs, Next(staleMs, s, steps[0]), steps[1..])
    else None
  }

  lemma {:induction false} PerformAll(staleMs: nat, s: State, first: seq<Step>, more: seq<Step>)
    requires Perform(staleMs, s, first).Some?
    ensures Perform(staleMs, s, first + more) == Perform(staleMs, Perform(staleMs, s, first).value, more)
    decreases |first|
  {
    if first == [] {
      assert first + more == more;
    } else {
      assert (first + more)[1..] == first[1..] + more;
      PerformAll(staleMs, Next(staleMs, s, first[0]), first[1..], more);
    }
  }

  /** Open, fstat and, when the lock is young, read its record. */
  function Judging(staleMs: nat, s: State, p: Pid, m: Ino): seq<Step>
    requires m in s.inodes
  {
    if s.now - s.inodes[m].mtime > staleMs then [Open(p), Fstat(p)] else [Open(p), Fstat(p), Read(p)]
  }

  predicate Abandoned(staleMs: nat, s: State, m: Ino)
    requires m in s.inodes
  {
    s.now - s.inodes[m].mtime > staleMs || (s.inodes[m].written && Gone(s, s.inodes[m].owner))
  }

  lemma JudgesAbandoned(staleMs: nat, s: State, p: Pid, m: Ino)
    requires p in s.pcs && s.pcs[p].Blocked? && s.lock == Some(m) && m in s.inodes
    ensures Perform(staleMs, s, Judging(staleMs, s, p, m))
         == Some(At(s, p, if Abandoned(staleMs, s, m) then Judged(m) else Waiting))
  {
    var s1 := Next(staleMs, s, Open(p));
    var s2 := Next(staleMs, s1, Fstat(p));
    PerformTwo(staleMs, s, Open(p), Fstat(p));
    if s.now - s.inodes[m].mtime > staleMs {
      assert s2 == At(s, p, Judged(m));
    } else {
      PerformAll(staleMs, s, [Open(p), Fstat(p)], [Read(p)]);
      assert [Open(p), Fstat(p)] + [Read(p)] == Judging(staleMs, s, p, m);
      PerformOne(staleMs, s2, Read(p));
      assert Next(staleMs, s2, Read(p)) == At(s, p, if Abandoned(staleMs, s, m) then Judged(m) else Waiting);
    }
  }

  lemma PerformOne(staleMs: nat, s: State, a: Step)
    requires Enabled(s, a)
    ensures Perform(staleMs, s, [a]) == Some(Next(staleMs, s, a))
  {
    assert [a][1..] == [];
  }

  lemma PerformTwo(staleMs: nat, s: State, a: Step, b: Step)
    requires Enabled(s, a) && Enabled(Next(staleMs, s, a), b)
    ensures Perform(staleMs, s, [a, b]) == Some(Next(staleMs, Next(staleMs, s, a), b))
  {
    PerformOne(staleMs, s, a);
    PerformAll(staleMs, s, [a], [b]);
    assert [a] + [b] == [a, b];
    PerformOne(staleMs, Next(staleMs, s, a), b);
  }

  lemma PerformThree(staleMs: nat, s: State, a: Step, b: Step, c: Step)
    requires Enabled(s, a) && Enabled(Next(staleMs, s, a), b) && Enabled(Next(staleMs, Next(staleMs, s, a), b), c)
    ensures Perform(staleMs, s, [a, b, c]) == Some(Next(staleMs, Next(staleMs, Next(staleMs, s, a), b), c))
  {
    PerformTwo(staleMs, s, a, b);
    PerformAll(staleMs, s, [a, b], [c]);
    assert [a, b] + [c] == [a, b, c];
    PerformOne(staleMs, Next(staleMs, Next(staleMs, s, a), b), c);
  }

  lemma ReapsJudged(staleMs: nat, s: State, p: Pid, m: Ino)
    requires p in s.pcs && s.pcs[p] == Judged(m) && s.lock == Some(m)
    ensures Perform(staleMs, s, [Rename(p), StatReaped(p, true), Discard(p)])
         == Some(At(s, p, Idle).(lock := None, reaped := s.reaped - {p}))
  {
    PerformThree(staleMs, s, Rename(p), StatReaped(p, true), Discard(p));
    var s1 := Next(staleMs, s, Rename(p));
    var s2 := Next(staleMs, s1, StatReaped(p, true));
    var s3 := Next(staleMs, s2, Discard(p));
    assert s3.pcs == s.pcs[p := Idle];
    assert s3.reaped == s.reaped - {p};
  }

  /**
   * A rename that moved another lock than the judged one is undone when nobody steps in
   * between: the path names that lock again.
   */
  lemma MissedRenameIsUndone(staleMs: nat, s: State, p: Pid, m: Ino, n: Ino)
    requires p in s.pcs && s.pcs[p] == Judged(m) && s.lock == Some(n) && m != n
    ensures Perform(staleMs, s, [Rename(p), StatReaped(p, true), Discard(p)])
         == Some(At(s, p, Idle).(reaped := s.reaped - {p}))
  {
    PerformThree(staleMs, s, Rename(p), StatReaped(p, true), Discard(p));
    var s1 := Next(staleMs, s, Rename(p));
    var s2 := Next(staleMs, s1, StatReaped(p, true));
    var s3 := Next(staleMs, s2, Discard(p));
    assert s3.pcs == s.pcs[p := Idle];
    assert s3.reaped == s.reaped - {p};
  }

  /**
   * But the restore goes over whatever lock is there by then: a process that got in after the
   * rename is beside the old holder, and its own release leaves the restored lock alone.
   */
  lemma RestoreReplacesLock(staleMs: nat, s: State, p: Pid, q: Pid, r: Pid, m: Ino, n: Ino, o: Ino)
    requires p in s.pcs && s.pcs[p] == Judged(m) && s.lock == Some(n) && m != n
    requires q in s.pcs && s.pcs[q] == InFn(n)
    requires r in s.pcs && s.pcs[r].Idle? && o !in s.inodes && o != n
    ensures var both := Perform(staleMs, s, [Rename(p)] + [Create(r, o), Write(r), Enter(r)]);
            && both.Some? && both.value.lock == Some(o) && Inside(both.value, q) && Inside(both.value, r) && q != r
            && var after := Perform(staleMs, both.value, [StatReaped(p, true), Discard(p)]);
               && after.Some? && after.value.lock == HeldBy(after.value, q) == Some(n)
               && var released := Perform(staleMs, after.value, [Finish(r), ReleaseStat(r)]);
                  released.Some? && released.value.lock == Some(n)
  {
    var enter := [Create(r, o), Write(r), Enter(r)];
    var s1 := Next(staleMs, s, Rename(p));
    PerformOne(staleMs, s, Rename(p));
    AcquiresFree(staleMs, s1, r, o);
    PerformAll(staleMs, s, [Rename(p)], enter);
    RestoreWins(staleMs, Perform(staleMs, s1, enter).value, p, q, r, m, n, o);
  }

  lemma RestoreWins(staleMs: nat, s: State, p: Pid, q: Pid, r: Pid, m: Ino, n: Ino, o: Ino)
    requires p in s.pcs && s.pcs[p] == Renamed(m) && p in s.reaped && s.reaped[p] == n && m != n
    requires q in s.pcs && s.pcs[q] == InFn(n) && r in s.pcs && s.pcs[r] == InFn(o) && o != n
    ensures var after := Perform(staleMs, s, [StatReaped(p, true), Discard(p)]);
            && after.Some? && after.value.lock == HeldBy(after.value, q) == Some(n)
            && var released := Perform(staleMs, after.value, [Finish(r), ReleaseStat(r)]);
               released.Some? && released.value.lock == Some(n)
  {
    PerformTwo(staleMs, s, StatReaped(p, true), Discard(p));
    var after := Next(staleMs, Next(staleMs, s, StatReaped(p, true)), Discard(p));
    PerformTwo(staleMs, after, Finish(r), ReleaseStat(r));
  }

  lemma AcquiresFree(staleMs: nat, s: State, p: Pid, n: Ino)
    requires p in s.pcs && s.pcs[p].Idle? && s.lock == None && n !in s.inodes
    ensures Perform(staleMs, s, [Create(p, n), Write(p), Enter(p)])
         == Some(At(s, p, InFn(n)).(lock := Some(n), inodes := s.inodes[n := Inode(p, s.now, s.now, true)]))
  {
    PerformThree(staleMs, s, Create(p, n), Write(p), Enter(p));
    var s1 := Next(staleMs, s, Create(p, n));
    var s2 := Next(staleMs, s1, Write(p));
    var s3 := Next(staleMs, s2, Enter(p));
    assert s3.pcs == s.pcs[p := InFn(n)];
    assert s3.inodes == s.inodes[n := Inode(p, s.now, s.now, true)];
  }

  function Recovery(staleMs: nat, s: State, p: Pid, m: Ino, n: Ino): seq<Step>
    requires m in s.inodes
  {
    [Create(p, n)] + Judging(staleMs, s, p, m) + [Rename(p), StatReaped(p, true), Discard(p)]
    + [Create(p, n), Write(p), Enter(p)]
  }

  /**
   * A lock left by a crashed process never blocks for good: one process alone, by its own
   * steps and touching no other process, takes it over and enters fn.
   */
  lemma AbandonedLockIsRecovered(staleMs: nat, s: State, p: Pid, m: Ino, n: Ino)
    requires p in s.pcs && s.pcs[p].Idle? && s.lock == Some(m) && m in s.inodes && n !in s.inodes
    requires Abandoned(staleMs, s, m)
    ensures Perform(staleMs, s, Recovery(staleMs, s, p, m, n))
         == Some(At(s, p, InFn(n)).(lock := Some(n), reaped := s.reaped - {p},
                                    inodes := s.inodes[n := Inode(p, s.now, s.now, true)]))
  {
    var s1 := At(s, p, Blocked);
    PerformOne(staleMs, s, Create(p, n));
    JudgesAbandoned(staleMs, s1, p, m);
    var s2 := At(s, p, Judged(m));
    assert At(s1, p, Judged(m)) == s2;
    AbandonedStays(staleMs, s, p, m);
    var judging := Judging(staleMs, s, p, m);
    PerformAll(staleMs, s, [Create(p, n)], judging);
    var reaping := [Rename(p), StatReaped(p, true), Discard(p)];
    ReapsJudged(staleMs, s2, p, m);
    var s3 := At(s2, p, Idle).(lock := None, reaped := s.reaped - {p});
    PerformAll(staleMs, s, [Create(p, n)] + judging, reaping);
    AcquiresFree(staleMs, s3, p, n);
    PerformAll(staleMs, s, [Create(p, n)] + judging + reaping, [Create(p, n), Write(p), Enter(p)]);
    assert s3.pcs[p := InFn(n)] == s.pcs[p := InFn(n)];
  }

  lemma AbandonedStays(staleMs: nat, s: State, p: Pid, m: Ino)
    requires p in s.pcs && s.pcs[p].Idle? && m in s.inodes
    ensures Judging(staleMs, s, p, m) == Judging(staleMs, At(s, p, Blocked), p, m)
    ensures Abandoned(staleMs, s, m) == Abandoned(staleMs, At(s, p, Blocked), m)
  {
  }

  lemma ReleasesOwn(staleMs: nat, s: State, q: Pid, m: Ino)
    requires q in s.pcs && s.pcs[q] == InFn(m) && s.lock == Some(m)
    ensures Perform(staleMs, s, [Finish(q), ReleaseStat(q), ReleaseUnlink(q)]) == Some(At(s, q, Idle).(lock := None))
  {
    PerformThree(staleMs, s, Finish(q), ReleaseStat(q), ReleaseUnlink(q));
    assert s.pcs[q := Releasing(m)][q := Matched(m)][q := Idle] == s.pcs[q := Idle];
  }

  /** A waiting process gets the lock that the holder releases, and only the two of them are touched. */
  lemma LockIsHandedOver(staleMs: nat, s: State, p: Pid, q: Pid, m: Ino, n: Ino)
    requires q in s.pcs && s.pcs[q] == InFn(m) && s.lock == Some(m)
    requires p in s.pcs && s.pcs[p].Waiting? && n !in s.inodes
    ensures var steps := [Finish(q), ReleaseStat(q), ReleaseUnlink(q)] + [Retry(p)]
                         + [Create(p, n), Write(p), Enter(p)];
            Perform(staleMs, s, steps)
            == Some(s.(pcs := s.pcs[q := Idle][p := InFn(n)], lock := Some(n),
                       inodes := s.inodes[n := Inode(p, s.now, s.now, true)]))
  {
    var release := [Finish(q), ReleaseStat(q), ReleaseUnlink(q)];
    ReleasesOwn(staleMs, s, q, m);
    var s1 := At(s, q, Idle).(lock := None);
    PerformAll(staleMs, s, release, [Retry(p)]);
    PerformOne(staleMs, s1, Retry(p));
    var s2 := At(s1, p, Idle);
    PerformAll(staleMs, s, release + [Retry(p)], [Create(p, n), Write(p), Enter(p)]);
    AcquiresFree(staleMs, s2, p, n);
    assert s2.pcs[p := InFn(n)] == s.pcs[q := Idle][p := InFn(n)];
  }

  /**
   * A lock ages from the write of its record, however long that took after the create; while it
   * is young and its holder alive, a process that finds it only waits.
   */
  lemma LockAgesFromItsWrite(staleMs: nat, s: State, p: Pid, q: Pid, m: Ino, before: nat, after: nat)
    requires q in s.pcs && s.pcs[q].Idle? && s.lock == None && m !in s.inodes
    requires p in s.pcs && s.pcs[p].Blocked? && p != q
    ensures var held := Perform(staleMs, s, [Create(q, m), Tick(before), Write(q)] + [Enter(q), Tick(after)]);
            && held.Some? && Inside(held.value, q) && held.value.lock == Some(m) && m in held.value.inodes
            && Perform(staleMs, held.value, Judging(staleMs, held.value, p, m))
               == Some(At(held.value, p, if after > staleMs then Judged(m) else Waiting))
  {
    PerformThree(staleMs, s, Create(q, m), Tick(before), Write(q));
    var s1 := Perform(staleMs, s, [Create(q, m), Tick(before), Write(q)]).value;
    PerformTwo(staleMs, s1, Enter(q), Tick(after));
    PerformAll(staleMs, s, [Create(q, m), Tick(before), Write(q)], [Enter(q), Tick(after)]);
    JudgesAbandoned(staleMs, Perform(staleMs, s1, [Enter(q), Tick(after)]).value, p, m);
  }

  // ---- Why the rename hypothesis is needed ----

  /**
   * A process that judged one inode and then renames another, live holder's lock, lets a
   * third process in beside that holder: the inode comparison comes after the path is free.
   */
  lemma LateRenameLetsTwoIn(staleMs: nat, s: State, p: Pid, q: Pid, r: Pid, n: Ino)
    requires p in s.pcs && s.pcs[p].Judged? && Inside(s, q) && s.lock.Some?
    requires r in s.pcs && s.pcs[r].Idle? && n !in s.inodes
    ensures var after := Perform(staleMs, s, [Rename(p), Create(r, n), Write(r), Enter(r)]);
            after.Some? && Inside(after.value, q) && Inside(after.value, r) && q != r
  {
    var s1 := Next(staleMs, s, Rename(p));
    PerformOne(staleMs, s, Rename(p));
    AcquiresFree(staleMs, s1, r, n);
    PerformAll(staleMs, s, [Rename(p)], [Create(r, n), Write(r), Enter(r)]);
    assert [Rename(p)] + [Create(r, n), Write(r), Enter(r)] == [Rename(p), Create(r, n), Write(r), Enter(r)];
  }

  /**
   * The hypothesis cannot be dropped anywhere: in any state that satisfies the invariant, a
   * process with a verdict beside another inside fn is about to miss its target, and with one
   * more process two are inside without any time passing.
   */
  lemma VerdictBesideHolderLetsTwoIn(staleMs: nat, s: State, p: Pid, q: Pid, r: Pid, n: Ino)
    requires Exclusive(s) && p in s.pcs && s.pcs[p].Judged? && Inside(s, q)
    requires r in s.pcs && s.pcs[r].Idle? && n !in s.inodes
    ensures !HitsItsTarget(s, Rename(p))
    ensures var after := Perform(staleMs, s, [Rename(p), Create(r, n), Write(r), Enter(r)]);
            after.Some? && after.value.now == s.now && Inside(after.value, q) && Inside(after.value, r) && q != r
  {
    assert Secure(s, q) && Apart(s, p, q);
    LateRenameLetsTwoIn(staleMs, s, p, q, r, n);
    NowOnlyTicks(staleMs, s, [Rename(p), Create(r, n), Write(r), Enter(r)]);
  }

  /** What a process that crashes while holding the lock leaves behind. */
  lemma CrashLeavesLock(staleMs: nat, s: State, c: Pid, a: Ino)
    requires c in s.pcs && s.pcs[c].Idle? && s.lock == None && a !in s.inodes
    ensures Perform(staleMs, s, [Create(c, a), Write(c), Enter(c)] + [Crash(c)])
         == Some(At(s, c, Dead).(lock := Some(a), inodes := s.inodes[a := Inode(c, s.now, s.now, true)]))
  {
    AcquiresFree(staleMs, s, c, a);
    PerformAll(staleMs, s, [Create(c, a), Write(c), Enter(c)], [Crash(c)]);
    var s1 := At(s, c, InFn(a)).(lock := Some(a), inodes := s.inodes[a := Inode(c, s.now, s.now, true)]);
    PerformOne(staleMs, s1, Crash(c));
    assert s1.pcs[c := Dead] == s.pcs[c := Dead];
  }

  lemma JudgesFromIdle(staleMs: nat, s: State, p: Pid, a: Ino, n: Ino)
    requires p in s.pcs && s.pcs[p].Idle? && s.lock == Some(a) && a in s.inodes && n !in s.inodes
    requires Abandoned(staleMs, s, a)
    ensures Perform(staleMs, s, [Create(p, n)] + Judging(staleMs, s, p, a)) == Some(At(s, p, Judged(a)))
  {
    PerformOne(staleMs, s, Create(p, n));
    AbandonedStays(staleMs, s, p, a);
    var s1 := At(s, p, Blocked);
    JudgesAbandoned(staleMs, s1, p, a);
    PerformAll(staleMs, s, [Create(p, n)], Judging(staleMs, s, p, a));
    assert At(s1, p, Judged(a)) == At(s, p, Judged(a));
  }

  /**
   * From the start, with no time passing at all (so that every holder is in time), two
   * reapers of one crashed holder and a fourth process reach a state where two processes run
   * fn together.
   */
  lemma TwoReapersBreakExclusion(staleMs: nat, s: State, c: Pid, p: Pid, q: Pid, r: Pid)
    requires Init(s) && {c, p, q, r} <= s.pcs.Keys
    requires c != p && c != q && c != r && p != q && p != r && q != r
    ensures exists steps ::
      var after := Perform(staleMs, s, steps);
      after.Some? && after.value.now == s.now && Inside(after.value, q) && Inside(after.value, r)
  {
    var crash := [Create(c, 0), Write(c), Enter(c)] + [Crash(c)];
    CrashLeavesLock(staleMs, s, c, 0);
    var s1 := Perform(staleMs, s, crash).value;
    var judge := [Create(p, 1)] + Judging(staleMs, s1, p, 0);
    JudgesFromIdle(staleMs, s1, p, 0, 1);
    var s2 := At(s1, p, Judged(0));
    PerformAll(staleMs, s, crash, judge);
    var recover := Recovery(staleMs, s2, q, 0, 1);
    AbandonedLockIsRecovered(staleMs, s2, q, 0, 1);
    var s3 := Perform(staleMs, s2, recover).value;
    PerformAll(staleMs, s, crash + judge, recover);
    var late := [Rename(p), Create(r, 2), Write(r), Enter(r)];
    LateRenameLetsTwoIn(staleMs, s3, p, q, r, 2);
    PerformAll(staleMs, s, crash + judge + recover, late);
    NowOnlyTicks(staleMs, s3, late);
    assert Perform(staleMs, s, crash + judge + recover + late) == Perform(staleMs, s3, late);
  }

  lemma {:induction false} NowOnlyTicks(staleMs: nat, s: State, steps: seq<Step>)
    requires Perform(staleMs, s, steps).Some?
    requires forall i :: 0 <= i < |steps| ==> !steps[i].Tick?
    ensures Perform(staleMs, s, steps).value.now == s.now
    decreases |steps|
  {
    if steps != [] {
      NowOnlyTicks(staleMs, Next(staleMs, s, steps[0]), steps[1..]);
    }
  }

  // ---- Why holders must be in time: the two-call release ----

  /** Every step can be taken, and every reaping rename on the way finds what it judged. */
  predicate EveryRenameHits(staleMs: nat, s: State, steps: seq<Step>)
    decreases |steps|
  {
    steps == []
    || (Enabled(s, steps[0]) && HitsItsTarget(s, steps[0])
        && EveryRenameHits(staleMs, Next(staleMs, s, steps[0]), steps[1..]))
  }

  lemma {:induction false} NoRenameMisses(staleMs: nat, s: State, steps: seq<Step>)
    requires Perform(staleMs, s, steps).Some? && forall i :: 0 <= i < |steps| ==> !steps[i].Rename?
    ensures EveryRenameHits(staleMs, s, steps)
    decreases |steps|
  {
    if steps != [] {
      NoRenameMisses(staleMs, Next(staleMs, s, steps[0]), steps[1..]);
    }
  }

  lemma {:induction false} HitsConcat(staleMs: nat, s: State, first: seq<Step>, more: seq<Step>)
    requires EveryRenameHits(staleMs, s, first) && Perform(staleMs, s, first).Some?
    requires EveryRenameHits(staleMs, Perform(staleMs, s, first).value, more)
    ensures EveryRenameHits(staleMs, s, first + more)
    decreases |first|
  {
    if first == [] {
      assert first + more == more;
    } else {
      assert (first + more)[1..] == first[1..] + more;
      HitsConcat(staleMs, Next(staleMs, s, first[0]), first[1..], more);
    }
  }

  /** A takeover reaps the very inode it judged. */
  lemma RecoveryHits(staleMs: nat, s: State, p: Pid, m: Ino, n: Ino)
    requires p in s.pcs && s.pcs[p].Idle? && s.lock == Some(m) && m in s.inodes && n !in s.inodes
    requires Abandoned(staleMs, s, m)
    ensures EveryRenameHits(staleMs, s, Recovery(staleMs, s, p, m, n))
  {
    var judging := [Create(p, n)] + Judging(staleMs, s, p, m);
    var s1 := At(s, p, Judged(m));
    JudgesFromIdle(staleMs, s, p, m, n);
    NoRenameMisses(staleMs, s, judging);
    var rest := [StatReaped(p, true), Discard(p)];
    var reaping := [Rename(p), StatReaped(p, true), Discard(p)];
    ReapsJudged(staleMs, s1, p, m);
    assert reaping[1..] == rest;
    NoRenameMisses(staleMs, Next(staleMs, s1, Rename(p)), rest);
    HitsConcat(staleMs, s, judging, reaping);
    PerformAll(staleMs, s, judging, reaping);
    var s2 := At(s1, p, Idle).(lock := None, reaped := s.reaped - {p});
    AcquiresFree(staleMs, s2, p, n);
    var acquiring := [Create(p, n), Write(p), Enter(p)];
    NoRenameMisses(staleMs, s2, acquiring);
    HitsConcat(staleMs, s, judging + reaping, acquiring);
  }

  /** A holder that compared the lock path with its own inode, and then is suspended past staleMs. */
  lemma SuspendsBeforeUnlink(staleMs: nat, s: State, p: Pid, m: Ino)
    requires p in s.pcs && s.pcs[p] == InFn(m) && s.lock == Some(m)
    ensures Perform(staleMs, s, [Finish(p), ReleaseStat(p), Tick(staleMs + 1)])
         == Some(At(s, p, Matched(m)).(now := s.now + staleMs + 1))
  {
    PerformThree(staleMs, s, Finish(p), ReleaseStat(p), Tick(staleMs + 1));
    assert At(At(s, p, Releasing(m)), p, Matched(m)).pcs == At(s, p, Matched(m)).pcs;
  }

  /** The unlink of such a holder removes whatever lock is there by then, and a third process gets in. */
  lemma LateUnlinkRemovesOthersLock(staleMs: nat, s: State, p: Pid, q: Pid, r: Pid, n: Ino)
    requires p in s.pcs && s.pcs[p].Matched? && Inside(s, q)
    requires r in s.pcs && s.pcs[r].Idle? && n !in s.inodes
    ensures Next(staleMs, s, ReleaseUnlink(p)).lock == None && Inside(Next(staleMs, s, ReleaseUnlink(p)), q)
    ensures var late := [ReleaseUnlink(p), Create(r, n), Write(r), Enter(r)];
            var after := Perform(staleMs, s, late);
            && EveryRenameHits(staleMs, s, late)
            && after.Some? && Inside(after.value, q) && Inside(after.value, r) && q != r
  {
    var late := [ReleaseUnlink(p), Create(r, n), Write(r), Enter(r)];
    PerformOne(staleMs, s, ReleaseUnlink(p));
    AcquiresFree(staleMs, Next(staleMs, s, ReleaseUnlink(p)), r, n);
    PerformAll(staleMs, s, [ReleaseUnlink(p)], [Create(r, n), Write(r), Enter(r)]);
    assert [ReleaseUnlink(p)] + [Create(r, n), Write(r), Enter(r)] == late;
    NoRenameMisses(staleMs, s, late);
  }

  /**
   * The age test is where it goes wrong, and always can: in any state with a holder past
   * staleMs between the two calls of its release, one process takes over on target, loses its
   * lock to the holder's unlink, and another gets in beside it.
   */
  lemma LateReleaseBreaksExclusion(staleMs: nat, s: State, p: Pid, q: Pid, r: Pid, m: Ino, n: Ino, o: Ino)
    requires p in s.pcs && s.pcs[p] == Matched(m) && s.lock == Some(m) && m in s.inodes
    requires s.now - s.inodes[m].mtime > staleMs
    requires q in s.pcs && s.pcs[q].Idle? && r in s.pcs && s.pcs[r].Idle? && q != r
    requires n !in s.inodes && o !in s.inodes && n != o
    ensures var steps := Recovery(staleMs, s, q, m, n) + [ReleaseUnlink(p), Create(r, o), Write(r), Enter(r)];
            var after := Perform(staleMs, s, steps);
            && EveryRenameHits(staleMs, s, steps)
            && after.Some? && Inside(after.value, q) && Inside(after.value, r)
  {
    var recover := Recovery(staleMs, s, q, m, n);
    var late := [ReleaseUnlink(p), Create(r, o), Write(r), Enter(r)];
    AbandonedLockIsRecovered(staleMs, s, q, m, n);
    RecoveryHits(staleMs, s, q, m, n);
    var s1 := Perform(staleMs, s, recover).value;
    LateUnlinkRemovesOthersLock(staleMs, s1, p, q, r, o);
    HitsConcat(staleMs, s, recover, late);
    PerformAll(staleMs, s, recover, late);
  }

  /** And in any state with a holder past staleMs inside fn, the takeover alone puts two inside. */
  lemma LateHolderIsJoined(staleMs: nat, s: State, p: Pid, q: Pid, m: Ino, n: Ino)
    requires p in s.pcs && s.pcs[p] == InFn(m) && s.lock == Some(m) && m in s.inodes
    requires s.now - s.inodes[m].mtime > staleMs
    requires q in s.pcs && s.pcs[q].Idle? && n !in s.inodes
    ensures var steps := Recovery(staleMs, s, q, m, n);
            var after := Perform(staleMs, s, steps);
            && EveryRenameHits(staleMs, s, steps)
            && after.Some? && Inside(after.value, p) && Inside(after.value, q) && p != q
  {
    AbandonedLockIsRecovered(staleMs, s, q, m, n);
    RecoveryHits(staleMs, s, q, m, n);
  }

  /** Such a holder exists in a run from the start. */
  lemma LateHolderIsReachable(staleMs: nat, s: State, p: Pid)
    requires Init(s) && p in s.pcs
    ensures exists steps ::
      var after := Perform(staleMs, s, steps);
      && EveryRenameHits(staleMs, s, steps) && after.Some?
      && after.value == At(s, p, Matched(0)).(now := s.now + staleMs + 1, lock := Some(0),
                                              inodes := map[0 := Inode(p, s.now, s.now, true)])
  {
    var hold := [Create(p, 0), Write(p), Enter(p)];
    AcquiresFree(staleMs, s, p, 0);
    NoRenameMisses(staleMs, s, hold);
    var s1 := Perform(staleMs, s, hold).value;
    var suspend := [Finish(p), ReleaseStat(p), Tick(staleMs + 1)];
    SuspendsBeforeUnlink(staleMs, s1, p, 0);
    NoRenameMisses(staleMs, s1, suspend);
    HitsConcat(staleMs, s, hold, suspend);
    PerformAll(staleMs, s, hold, suspend);
    assert s1.pcs[p := Matched(0)] == s.pcs[p := Matched(0)];
    assert EveryRenameHits(staleMs, s, hold + suspend) && Perform(staleMs, s, hold + suspend).Some?;
  }
}
