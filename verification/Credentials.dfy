/**
 * makeCognitoCredentialsProvider (packages/core/src/aws-credentials.js:282-442): a cache, one
 * refresh in flight that every caller joins, and one re-resolution of the identity. A refresh
 * runs in the segments between its awaits; calls and the clock interleave with them.
 */
module Credentials {
  import opened Wrappers

  /** Temporary credentials; tag stands for the three key strings. */
  datatype Creds = Creds(tag: int, identityId: string, expirationMs: int)

  /** A GetCredentialsForIdentity response, with or without its own identity. */
  datatype Issued = Issued(tag: int, identityId: Option<string>, expirationMs: int)

  function CredsOf(i: Issued, id: string): Creds {
    Creds(i.tag, if i.identityId.Some? && i.identityId.value != "" then i.identityId.value else id, i.expirationMs)
  }

  datatype Error = ResourceNotFound | Validation | NotAuthorized | Other

  predicate Recoverable(e: Error) {
    e.ResourceNotFound? || e.Validation?
  }

  /** Where a refresh stands: waiting for the token, an identity, or credentials; or finished. */
  datatype Pc =
    | AwaitToken
    | AwaitIdentity
    | AwaitCredentials(id: string)
    | AwaitIdentityAgain
    | AwaitCredentialsAgain(id: string)
    | Succeeded(creds: Creds)
    | Failed(error: Error)

  type Rid = int
  type CallId = int

  /** resolvedAgain counts the identity look-ups after the first attempt at credentials failed. */
  datatype Refresh = Refresh(pc: Pc, firstError: Option<Error>, resolvedAgain: nat, cleaned: bool)

  datatype Answer = FromCache(creds: Creds, at: int) | Joined(refresh: Rid)

  datatype State = State(
    now: int,
    cached: Option<Creds>,
    identityId: Option<string>,
    inflight: Option<Rid>,
    stored: Option<Creds>,            // the persistent store
    refreshes: map<Rid, Refresh>,
    calls: map<CallId, Answer>)

  /** Construction: a stored record brings back the cache and the identity. */
  function Init(now: int, stored: Option<Creds>): State {
    State(now, stored, if stored.Some? then Some(stored.value.identityId) else None, None, stored, map[], map[])
  }

  /** fresh numbers name calls and refreshes; saves tells whether the persistent store accepts the write. */
  datatype Step =
    | Tick(ms: nat)
    | Call(c: CallId, r: Rid)
    | Token(r: Rid, failure: Option<Error>)
    | Identity(r: Rid, identity: Result<string, Error>)
    | Credentials(r: Rid, issued: Result<Issued, Error>, saves: bool)
    | Finally(r: Rid)
    | ClearCache(saves: bool)

  predicate Fresh(s: State, marginMs: int) {
    s.cached.Some? && s.cached.value.expirationMs - marginMs > s.now
  }

  predicate Finished(p: Pc) {
    p.Succeeded? || p.Failed?
  }

  predicate Enabled(s: State, step: Step) {
    match step
    case Call(c, r) => c !in s.calls && r !in s.refreshes
    case Token(r, _) => r in s.refreshes && s.refreshes[r].pc.AwaitToken?
    case Identity(r, _) =>
      r in s.refreshes && (s.refreshes[r].pc.AwaitIdentity? || s.refreshes[r].pc.AwaitIdentityAgain?)
    case Credentials(r, _, _) =>
      r in s.refreshes && (s.refreshes[r].pc.AwaitCredentials? || s.refreshes[r].pc.AwaitCredentialsAgain?)
    case Finally(r) => r in s.refreshes && Finished(s.refreshes[r].pc) && !s.refreshes[r].cleaned
    case _ => true
  }

  function Set(s: State, r: Rid, f: Refresh): State {
    s.(refreshes := s.refreshes[r := f])
  }

  function Next(marginMs: int, s: State, step: Step): State
    requires Enabled(s, step)
  {
    match step
    case Tick(ms) => s.(now := s.now + ms)
    case Call(c, r) =>
      if Fresh(s, marginMs) then s.(calls := s.calls[c := FromCache(s.cached.value, s.now)])
      else if s.inflight.Some? then s.(calls := s.calls[c := Joined(s.inflight.value)])
      else Set(s, r, Refresh(AwaitToken, None, 0, false)).(inflight := Some(r), calls := s.calls[c := Joined(r)])
    case Token(r, failure) =>
      var f := s.refreshes[r];
      Set(s, r, f.(pc := if failure.Some? then Failed(failure.value)
                         else if s.identityId.Some? then AwaitCredentials(s.identityId.value) else AwaitIdentity))
    case Identity(r, identity) =>
      var f := s.refreshes[r];
      if f.pc.AwaitIdentity? then
        Set(s, r, f.(pc := if identity.Err? then Failed(identity.error) else AwaitCredentials(identity.value)))
      else
        Set(s, r, f.(pc := if identity.Err? then Failed(identity.error) else AwaitCredentialsAgain(identity.value),
                     resolvedAgain := f.resolvedAgain + 1))
    case Credentials(r, issued, saves) =>
      var f := s.refreshes[r];
      if issued.Ok? then
        var c := CredsOf(issued.value, f.pc.id);
        Set(s, r, f.(pc := Succeeded(c))).(
          cached := Some(c), identityId := Some(c.identityId), stored := if saves then Some(c) else s.stored)
      else if f.pc.AwaitCredentials? && Recoverable(issued.error) then
        Set(s, r, f.(pc := AwaitIdentityAgain, firstError := Some(issued.error))).(identityId := None)
      else Set(s, r, f.(pc := Failed(issued.error)))
    case Finally(r) => Set(s, r, s.refreshes[r].(cleaned := true)).(inflight := None)
    case ClearCache(saves) => s.(cached := None, identityId := None, stored := if saves then None else s.stored)
  }

  function Perform(marginMs: int, s: State, steps: seq<Step>): Option<State>
    decreases |steps|
  {
    if steps == [] then Some(s)
    else if Enabled(s, steps[0]) then Perform(marginMs, Next(marginMs, s, steps[0]), steps[1..])
    else None
  }

  // ---- What every run keeps ----

  predicate AgainOnlyAfterRecoverable(f: Refresh) {
    && f.resolvedAgain <= 1
    && (f.pc.AwaitIdentityAgain? ==> f.resolvedAgain == 0)
    && (f.pc.AwaitToken? || f.pc.AwaitIdentity? || f.pc.AwaitCredentials? ==> f.resolvedAgain == 0)
    && (f.resolvedAgain > 0 || f.pc.AwaitIdentityAgain? || f.pc.AwaitCredentialsAgain? ==>
          f.firstError.Some? && Recoverable(f.firstError.value))
  }

  predicate RefreshOk(s: State, r: Rid) {
    r in s.refreshes ==>
      && AgainOnlyAfterRecoverable(s.refreshes[r])
      && (s.refreshes[r].cleaned ==> Finished(s.refreshes[r].pc))
      && (!s.refreshes[r].cleaned ==> s.inflight == Some(r))
  }

  predicate CallOk(s: State, marginMs: int, c: CallId) {
    c in s.calls ==>
      match s.calls[c]
      case FromCache(creds, at) => creds.expirationMs - marginMs > at
      case Joined(r) => r in s.refreshes
  }

  ghost predicate Valid(s: State, marginMs: int) {
    && (s.inflight.Some? ==> s.inflight.value in s.refreshes && !s.refreshes[s.inflight.value].cleaned)
    && (forall r :: RefreshOk(s, r))
    && (forall c :: CallOk(s, marginMs, c))
  }

  lemma StepKeepsValid(marginMs: int, s: State, step: Step)
    requires Valid(s, marginMs) && Enabled(s, step)
    ensures Valid(Next(marginMs, s, step), marginMs)
  {
    var s' := Next(marginMs, s, step);
    if !step.Tick? && !step.ClearCache? {
      assert RefreshOk(s, step.r);
    }
    forall r ensures RefreshOk(s', r) {
      assert RefreshOk(s, r);
    }
    forall c ensures CallOk(s', marginMs, c) {
      assert CallOk(s, marginMs, c);
    }
  }

  lemma {:induction false} EveryRunIsValid(marginMs: int, s: State, steps: seq<Step>, end: State)
    requires Valid(s, marginMs) && Perform(marginMs, s, steps) == Some(end)
    ensures Valid(end, marginMs)
    decreases |steps|
  {
    if steps != [] {
      StepKeepsValid(marginMs, s, steps[0]);
      EveryRunIsValid(marginMs, Next(marginMs, s, steps[0]), steps[1..], end);
    }
  }

  lemma InitIsValid(now: int, stored: Option<Creds>, marginMs: int)
    ensures Valid(Init(now, stored), marginMs)
  {
    var s := Init(now, stored);
    assert forall r :: RefreshOk(s, r);
    assert forall c :: CallOk(s, marginMs, c);
  }

  /** At most one refresh is in flight, and it is the one that new callers join. */
  lemma SingleFlight(marginMs: int, now: int, stored: Option<Creds>, steps: seq<Step>, s: State, r: Rid, q: Rid)
    requires Perform(marginMs, Init(now, stored), steps) == Some(s)
    requires r in s.refreshes && q in s.refreshes && !Finished(s.refreshes[r].pc) && !Finished(s.refreshes[q].pc)
    ensures r == q && s.inflight == Some(r)
  {
    InitIsValid(now, stored, marginMs);
    EveryRunIsValid(marginMs, Init(now, stored), steps, s);
    assert RefreshOk(s, r) && RefreshOk(s, q);
  }

  /** A call during a refresh starts no second one: it is answered by the cache or joins. */
  lemma CallDuringRefreshJoins(marginMs: int, s: State, r: Rid, c: CallId, n: Rid)
    requires Valid(s, marginMs) && r in s.refreshes && !Finished(s.refreshes[r].pc) && Enabled(s, Call(c, n))
    ensures var s' := Next(marginMs, s, Call(c, n));
            && s'.refreshes == s.refreshes && c in s'.calls
            && s'.calls[c] == if s.cached.Some? && s.cached.value.expirationMs > s.now + marginMs
                              then FromCache(s.cached.value, s.now) else Joined(r)
  {
    assert RefreshOk(s, r);
  }

  /**
   * A call starts a refresh exactly when nothing is cached beyond the margin and none is in
   * flight, and then it waits for that one; otherwise it takes the cached credentials or joins.
   */
  lemma CallStartsRefreshExactlyWhen(
      marginMs: int, now: int, stored: Option<Creds>, steps: seq<Step>, s: State, c: CallId, n: Rid)
    requires Perform(marginMs, Init(now, stored), steps) == Some(s) && Enabled(s, Call(c, n))
    ensures var s' := Next(marginMs, s, Call(c, n));
            var kept := s.cached.Some? && s.cached.value.expirationMs > s.now + marginMs;
            && c in s'.calls && s'.cached == s.cached
            && (n in s'.refreshes <==> !kept && s.inflight.None?)
            && s'.refreshes.Keys == s.refreshes.Keys + (if n in s'.refreshes then {n} else {})
            && s'.calls[c] == (if kept then FromCache(s.cached.value, s.now)
                               else Joined(if s.inflight.Some? then s.inflight.value else n))
            && (!kept ==> s'.calls[c].refresh in s'.refreshes && !s'.refreshes[s'.calls[c].refresh].cleaned)
  {
    InitIsValid(now, stored, marginMs);
    EveryRunIsValid(marginMs, Init(now, stored), steps, s);
    assert s.inflight.Some? ==> RefreshOk(s, s.inflight.value);
  }

  // ---- How a refresh ends ----

  lemma PerformFirst(marginMs: int, s: State, step: Step, more: seq<Step>)
    requires Enabled(s, step)
    ensures Perform(marginMs, s, [step] + more) == Perform(marginMs, Next(marginMs, s, step), more)
  {
    assert ([step] + more)[1..] == more;
  }

  /** The identity the credentials are for: the one of the response, or else the one asked with. */
  predicate CredentialsFor(creds: Creds, issued: Issued, id: string) {
    && creds.tag == issued.tag && creds.expirationMs == issued.expirationMs
    && (issued.identityId.None? || issued.identityId == Some("") ==> creds.identityId == id)
    && (issued.identityId.Some? && issued.identityId.value != "" ==> creds.identityId == issued.identityId.value)
  }

  /** What the end of a successful refresh leaves. */
  predicate Delivered(s: State, r: Rid, c: CallId, issued: Issued, id: string) {
    && s.cached.Some? && CredentialsFor(s.cached.value, issued, id)
    && s.identityId == Some(s.cached.value.identityId) && s.stored == s.cached
    && r in s.refreshes && Finished(s.refreshes[r].pc) && Answered(s, c) == Some(Ok(s.cached.value))
  }

  /**
   * A whole refresh: with a token, it asks with the identity known, looking one up only when
   * none is, and its callers get the issued credentials, which are cached and persisted.
   */
  lemma RefreshDelivers(marginMs: int, s: State, r: Rid, c: CallId, found: string, issued: Issued)
    requires r in s.refreshes && s.refreshes[r].pc.AwaitToken? && c in s.calls && s.calls[c] == Joined(r)
    ensures s.identityId.Some? ==>
      var end := Perform(marginMs, s, [Token(r, None), Step.Credentials(r, Ok(issued), true)]);
      end.Some? && Delivered(end.value, r, c, issued, s.identityId.value)
    ensures s.identityId.None? ==>
      var end := Perform(marginMs, s, [Token(r, None), Identity(r, Ok(found)), Step.Credentials(r, Ok(issued), true)]);
      end.Some? && Delivered(end.value, r, c, issued, found)
  {
    var s1 := Next(marginMs, s, Token(r, None));
    if s.identityId.Some? {
      PerformFirst(marginMs, s, Token(r, None), [Step.Credentials(r, Ok(issued), true)]);
      PerformFirst(marginMs, s1, Step.Credentials(r, Ok(issued), true), []);
    } else {
      var s2 := Next(marginMs, s1, Identity(r, Ok(found)));
      PerformFirst(marginMs, s, Token(r, None), [Identity(r, Ok(found)), Step.Credentials(r, Ok(issued), true)]);
      PerformFirst(marginMs, s1, Identity(r, Ok(found)), [Step.Credentials(r, Ok(issued), true)]);
      PerformFirst(marginMs, s2, Step.Credentials(r, Ok(issued), true), []);
    }
  }

  /**
   * The first refusal of credentials is recovered from exactly when it is ResourceNotFound or
   * Validation: the identity is forgotten, looked up again, and credentials are asked for with
   * the new one. Any other refusal, and any second one, ends the refresh with that error.
   */
  lemma RecoversExactlyWhen(
      marginMs: int, s: State, r: Rid, c: CallId, first: Error, second: Error, found: string, issued: Issued)
    requires r in s.refreshes && s.refreshes[r].pc.AwaitCredentials? && c in s.calls && s.calls[c] == Joined(r)
    ensures var refused := Next(marginMs, s, Step.Credentials(r, Err(first), true));
            && (Enabled(refused, Identity(r, Ok(found))) <==> first == ResourceNotFound || first == Validation)
            && (first != ResourceNotFound && first != Validation ==>
                  Answered(refused, c) == Some(Err(first)) && refused.identityId == s.identityId)
            && refused.cached == s.cached && refused.stored == s.stored
    ensures first == ResourceNotFound || first == Validation ==>
      var again := Next(marginMs, Next(marginMs, s, Step.Credentials(r, Err(first), true)), Identity(r, Ok(found)));
      && again.identityId == None && Enabled(again, Step.Credentials(r, Ok(issued), true))
      && Delivered(Next(marginMs, again, Step.Credentials(r, Ok(issued), true)), r, c, issued, found)
      && Answered(Next(marginMs, again, Step.Credentials(r, Err(second), true)), c) == Some(Err(second))
  {
  }

  // ---- Clearing the cache ----

  predicate NoneUnderWay(s: State) {
    forall r :: r in s.refreshes ==> Finished(s.refreshes[r].pc)
  }

  /** The run calls nothing. */
  predicate Uncalled(marginMs: int, s: State, steps: seq<Step>, end: State) {
    Perform(marginMs, s, steps) == Some(end) && forall i :: 0 <= i < |steps| ==> !steps[i].Call?
  }

  lemma {:induction false} ClearedStaysCleared(marginMs: int, s: State, steps: seq<Step>, end: State)
    requires s.cached == None && NoneUnderWay(s) && Uncalled(marginMs, s, steps, end)
    ensures end.cached == None
    decreases |steps|
  {
    if steps != [] {
      ClearedStaysCleared(marginMs, Next(marginMs, s, steps[0]), steps[1..], end);
    }
  }

  /** From any stage a refresh can still succeed, without any call. */
  lemma CanStillSucceed(marginMs: int, s: State, r: Rid, issued: Issued) returns (steps: seq<Step>, end: State)
    requires r in s.refreshes && !Finished(s.refreshes[r].pc)
    ensures Uncalled(marginMs, s, steps, end) && end.cached.Some?
    decreases if s.refreshes[r].pc.AwaitToken? then 2
              else if s.refreshes[r].pc.AwaitIdentity? || s.refreshes[r].pc.AwaitIdentityAgain? then 1 else 0
  {
    var pc := s.refreshes[r].pc;
    var step := if pc.AwaitToken? then Token(r, None)
                else if pc.AwaitIdentity? || pc.AwaitIdentityAgain? then Identity(r, Ok("id"))
                else Step.Credentials(r, Ok(issued), true);
    var s' := Next(marginMs, s, step);
    var more: seq<Step> := [];
    end := s';
    if step.Token? || step.Identity? {
      more, end := CanStillSucceed(marginMs, s', r, issued);
    }
    steps := [step] + more;
    PerformFirst(marginMs, s, step, more);
  }

  /**
   * A cleared cache stays empty until the next call exactly when no refresh is under way: one
   * that is puts its credentials back, for the identity that was to be forgotten.
   */
  lemma ClearLastsExactlyWhen(marginMs: int, s: State, saves: bool)
    ensures var cleared := Next(marginMs, s, ClearCache(saves));
            (forall steps, end :: Uncalled(marginMs, cleared, steps, end) ==> end.cached == None) <==> NoneUnderWay(s)
  {
    var cleared := Next(marginMs, s, ClearCache(saves));
    if NoneUnderWay(s) {
      forall steps, end | Uncalled(marginMs, cleared, steps, end) ensures end.cached == None {
        ClearedStaysCleared(marginMs, cleared, steps, end);
      }
    } else {
      var r :| r in s.refreshes && !Finished(s.refreshes[r].pc);
      var steps, end := CanStillSucceed(marginMs, cleared, r, Issued(0, None, 0));
      assert Uncalled(marginMs, cleared, steps, end) && end.cached.Some?;
    }
  }

  /** The answer of a call, once there is one. */
  function Answered(s: State, c: CallId): Option<Result<Creds, Error>> {
    if c !in s.calls then None
    else
      match s.calls[c]
      case FromCache(creds, _) => Some(Ok(creds))
      case Joined(r) =>
        if r !in s.refreshes then None
        else
          match s.refreshes[r].pc
          case Succeeded(creds) => Some(Ok(creds))
          case Failed(e) => Some(Err(e))
          case _ => None
  }

  /** Every caller of one refresh gets the same answer, and it never changes afterwards. */
  lemma {:induction false} AnswerIsSharedAndFinal(
      marginMs: int, s: State, steps: seq<Step>, end: State, c: CallId, d: CallId)
    requires Perform(marginMs, s, steps) == Some(end) && c in s.calls && d in s.calls && s.calls[c] == s.calls[d]
    ensures Answered(end, c) == Answered(end, d)
    ensures Answered(s, c).Some? ==> Answered(end, c) == Answered(s, c)
    decreases |steps|
  {
    if steps != [] {
      AnswerIsSharedAndFinal(marginMs, Next(marginMs, s, steps[0]), steps[1..], end, c, d);
    }
  }

  /** What a call gets from the cache stays valid for longer than the margin. */
  lemma CachedAnswerHasMargin(marginMs: int, now: int, stored: Option<Creds>, steps: seq<Step>, s: State, c: CallId)
    requires Perform(marginMs, Init(now, stored), steps) == Some(s)
    requires c in s.calls && s.calls[c].FromCache?
    ensures s.calls[c].creds.expirationMs > s.calls[c].at + marginMs
  {
    InitIsValid(now, stored, marginMs);
    EveryRunIsValid(marginMs, Init(now, stored), steps, s);
    assert CallOk(s, marginMs, c);
  }

  /** A refresh looks the identity up again at most once, and only after a recoverable error. */
  lemma IdentityResolvedAgainAtMostOnce(
      marginMs: int, now: int, stored: Option<Creds>, steps: seq<Step>, s: State, r: Rid)
    requires Perform(marginMs, Init(now, stored), steps) == Some(s) && r in s.refreshes
    ensures var f := s.refreshes[r];
            && f.resolvedAgain <= 1
            && (f.resolvedAgain == 1 ==> f.firstError == Some(ResourceNotFound) || f.firstError == Some(Validation))
  {
    InitIsValid(now, stored, marginMs);
    EveryRunIsValid(marginMs, Init(now, stored), steps, s);
    assert RefreshOk(s, r);
  }

  /** The persistent store accepts the writes of this step. */
  predicate Persists(step: Step) {
    match step
    case Credentials(_, _, saves) => saves
    case ClearCache(saves) => saves
    case _ => true
  }

  /** The store holds what is cached, and a known identity is that of the cache. */
  predicate Persisted(s: State) {
    s.stored == s.cached && (s.identityId.Some? ==> s.cached.Some? && s.identityId.value == s.cached.value.identityId)
  }

  lemma {:induction false} RunKeepsPersisted(marginMs: int, s: State, steps: seq<Step>, end: State)
    requires Persisted(s) && Perform(marginMs, s, steps) == Some(end)
    requires forall i :: 0 <= i < |steps| ==> Persists(steps[i])
    ensures Persisted(end)
    decreases |steps|
  {
    if steps != [] {
      assert Persists(steps[0]);
      RunKeepsPersisted(marginMs, Next(marginMs, s, steps[0]), steps[1..], end);
    }
  }

  /** A refused write leaves the persisted copy as it was. */
  lemma {:induction false} RefusedWritesKeepStore(marginMs: int, s: State, steps: seq<Step>, end: State)
    requires Perform(marginMs, s, steps) == Some(end)
    requires forall i :: 0 <= i < |steps| ==>
      match steps[i] case Credentials(_, _, saves) => !saves case ClearCache(saves) => !saves case _ => true
    ensures end.stored == s.stored
    decreases |steps|
  {
    if steps != [] {
      RefusedWritesKeepStore(marginMs, Next(marginMs, s, steps[0]), steps[1..], end);
    }
  }

  /**
   * Over every run whose writes are accepted, a process started at any moment has the same
   * credentials in its cache, and the identity the running one knows.
   */
  lemma RestartKeepsCredentials(
      marginMs: int, now: int, stored: Option<Creds>, steps: seq<Step>, s: State, later: int)
    requires Perform(marginMs, Init(now, stored), steps) == Some(s)
    requires forall i :: 0 <= i < |steps| ==> Persists(steps[i])
    ensures Init(later, s.stored).cached == s.cached
    ensures s.identityId.Some? ==> Init(later, s.stored).identityId == s.identityId
  {
    RunKeepsPersisted(marginMs, Init(now, stored), steps, s);
  }

  // ---- The provider's closure ----

  /** refreshes and calls are the promises it has handed out. */
  class Provider {
    const marginMs: int
    var now: int
    var cached: Option<Creds>
    var identityId: Option<string>
    var inflight: Option<Rid>
    var stored: Option<Creds>
    var refreshes: map<Rid, Refresh>
    var calls: map<CallId, Answer>

    function View(): State
      reads this
    {
      State(now, cached, identityId, inflight, stored, refreshes, calls)
    }

    constructor (marginMs: int, now: int, stored: Option<Creds>)
      ensures this.marginMs == marginMs && View() == Init(now, stored) && Valid(View(), marginMs)
    {
      this.marginMs, this.now, this.stored := marginMs, now, stored;
      cached, identityId := None, None;
      if stored.Some? {
        identityId := Some(stored.value.identityId);
        cached := stored;
      }
      inflight, refreshes, calls := None, map[], map[];
      InitIsValid(now, stored, marginMs);
    }

    method GetCredentials(c: CallId, r: Rid)
      requires Valid(View(), marginMs) && c !in calls && r !in refreshes
      modifies this
      ensures View() == Next(marginMs, old(View()), Call(c, r)) && Valid(View(), marginMs)
    {
      StepKeepsValid(marginMs, View(), Call(c, r));
      if cached.Some? && cached.value.expirationMs - marginMs > now {
        calls := calls[c := FromCache(cached.value, now)];
        return;
      }
      if inflight.None? {
        refreshes := refreshes[r := Refresh(AwaitToken, None, 0, false)];
        inflight := Some(r);
      }
      calls := calls[c := Joined(inflight.value)];
    }

    /** The await of getIdToken returns or throws: go on with the identity known by now, if any. */
    method OnToken(r: Rid, failure: Option<Error>)
      requires Valid(View(), marginMs) && Enabled(View(), Token(r, failure))
      modifies `refreshes
      ensures View() == Next(marginMs, old(View()), Token(r, failure)) && Valid(View(), marginMs)
    {
      StepKeepsValid(marginMs, View(), Token(r, failure));
      var f := refreshes[r];
      if failure.Some? {
        refreshes := refreshes[r := f.(pc := Failed(failure.value))];
      } else if identityId.Some? {
        refreshes := refreshes[r := f.(pc := AwaitCredentials(identityId.value))];
      } else {
        refreshes := refreshes[r := f.(pc := AwaitIdentity)];
      }
    }

    /** The await of resolveIdentityId returns or throws, the first or the second time. */
    method OnIdentity(r: Rid, identity: Result<string, Error>)
      requires Valid(View(), marginMs) && Enabled(View(), Identity(r, identity))
      modifies `refreshes
      ensures View() == Next(marginMs, old(View()), Identity(r, identity)) && Valid(View(), marginMs)
    {
      StepKeepsValid(marginMs, View(), Identity(r, identity));
      var f := refreshes[r];
      if f.pc.AwaitIdentityAgain? {
        f := f.(resolvedAgain := f.resolvedAgain + 1);
      }
      if identity.Err? {
        refreshes := refreshes[r := f.(pc := Failed(identity.error))];
      } else if f.pc.AwaitIdentity? {
        refreshes := refreshes[r := f.(pc := AwaitCredentials(identity.value))];
      } else {
        refreshes := refreshes[r := f.(pc := AwaitCredentialsAgain(identity.value))];
      }
    }

    /** The await of fetchCredentialsFor returns or throws, the first or the second time. */
    method OnCredentials(r: Rid, issued: Result<Issued, Error>, saves: bool)
      requires Valid(View(), marginMs) && Enabled(View(), Step.Credentials(r, issued, saves))
      modifies `cached, `identityId, `stored, `refreshes
      ensures View() == Next(marginMs, old(View()), Step.Credentials(r, issued, saves)) && Valid(View(), marginMs)
    {
      StepKeepsValid(marginMs, View(), Step.Credentials(r, issued, saves));
      var f := refreshes[r];
      if issued.Ok? {
        cached := Some(CredsOf(issued.value, f.pc.id));
        identityId := Some(cached.value.identityId);
        if saves {
          stored := cached;
        }
        refreshes := refreshes[r := f.(pc := Succeeded(cached.value))];
      } else if f.pc.AwaitCredentials? && Recoverable(issued.error) {
        identityId := None;
        refreshes := refreshes[r := f.(pc := AwaitIdentityAgain, firstError := Some(issued.error))];
      } else {
        refreshes := refreshes[r := f.(pc := Failed(issued.error))];
      }
    }

    method OnFinally(r: Rid)
      requires Valid(View(), marginMs) && Enabled(View(), Finally(r))
      modifies `inflight, `refreshes
      ensures View() == Next(marginMs, old(View()), Finally(r)) && Valid(View(), marginMs)
    {
      StepKeepsValid(marginMs, View(), Finally(r));
      refreshes := refreshes[r := refreshes[r].(cleaned := true)];
      inflight := None;
    }

    method ClearTheCache(saves: bool)
      requires Valid(View(), marginMs)
      modifies `cached, `identityId, `stored
      ensures View() == Next(marginMs, old(View()), ClearCache(saves)) && Valid(View(), marginMs)
    {
      StepKeepsValid(marginMs, View(), ClearCache(saves));
      cached := None;
      identityId := None;
      if saves {
        stored := None;
      }
    }
  }
}
