/**
 * The login flows of packages/core/src/auth.js as they change the stored tokens: refresh,
 * rejected refresh, login, device login, stale device, bootstrap and logout. Every await is a
 * point where other processes may save, so a flow works from a snapshot of any age.
 */
module Auth {
  import opened Wrappers
  import opened Tokens

  const CONSUMER_CLIENT_ID := "6ialca0p8u0lsgvbmvsljfm305"
  const DEFAULT_CLIENT_ID := CONSUMER_CLIENT_ID

  /** What one ConfirmDevice call confirmed. */
  datatype Device = Device(key: string, groupKey: string, password: string)

  /** An AuthenticationResult; its IdToken is never empty where it is used. */
  datatype AuthResult = AuthResult(idToken: string, accessToken: Field, refreshToken: Field)

  predicate Complete(d: Device) {
    d.key != "" && d.groupKey != "" && d.password != ""
  }

  datatype Pending = Pending(clientId: string, username: string)

  datatype AuthError = NoTokens | CorruptTokens | WrongClient | IncompleteDevice | NoRefreshToken | MissingInput

  predicate HasConfirmedDevice(t: StoredTokens) {
    Truthy(t.deviceKey) && Truthy(t.deviceGroupKey) && Truthy(t.devicePassword)
  }

  /** assertAppLoginTokens with requireConfirmedDevice; aud reads the aud claim of a token. */
  function LoginError(aud: string -> Option<string>, t: StoredTokens, requireAud: bool): Option<AuthError> {
    var audience := if Truthy(t.idToken) then aud(t.idToken.s) else None;
    var clientId :=
      if Truthy(t.clientId) then t.clientId.s
      else if audience.Some? && audience.value != "" then audience.value
      else DEFAULT_CLIENT_ID;
    if requireAud && audience != Some(CONSUMER_CLIENT_ID) then Some(WrongClient)
    else if audience.Some? && audience.value != "" && audience.value != CONSUMER_CLIENT_ID then Some(WrongClient)
    else if clientId != CONSUMER_CLIENT_ID then Some(WrongClient)
    else if Truthy(t.deviceKey) && !HasConfirmedDevice(t) then Some(IncompleteDevice)
    else None
  }

  /** getValidIdToken answers from the store, or needs a refresh with these parameters. */
  datatype Answer = Valid(idToken: string) | Refresh(refreshToken: string, deviceKey: Option<string>)

  function ValidOrRefresh(c: Clock, aud: string -> Option<string>, f: FileState, now: real, marginSec: real)
    : Result<Answer, AuthError>
  {
    match f
    case Corrupt => Err(CorruptTokens)
    case Missing => Err(NoTokens)
    case Holds(t) =>
      if LoginError(aud, t, false).Some? then Err(LoginError(aud, t, false).value)
      else if Truthy(t.idToken) && c.exp(t.idToken.s) - now > marginSec then Ok(Valid(t.idToken.s))
      else if !Truthy(t.refreshToken) then Err(NoRefreshToken)
      else Ok(Refresh(t.refreshToken.s, if Truthy(t.deviceKey) then Some(t.deviceKey.s) else None))
  }

  // ---- The states the flows save ----

  function OrNull(f: Field): Field {
    if f.Absent? then Null else f
  }

  function Refreshed(t: StoredTokens, r: AuthResult, now: string): StoredTokens {
    t.(idToken := Text(r.idToken),
       accessToken := if Truthy(r.accessToken) then r.accessToken else t.accessToken,
       refreshToken := if Truthy(r.refreshToken) then r.refreshToken else t.refreshToken,
       lastRefresh := Text(now))
  }

  function Rejected(t: StoredTokens): StoredTokens {
    StoredTokens(
      clientId := t.clientId, username := t.username,
      idToken := Null, accessToken := Null, refreshToken := Null, lastRefresh := Null,
      deviceKey := OrNull(t.deviceKey), deviceGroupKey := OrNull(t.deviceGroupKey),
      devicePassword := OrNull(t.devicePassword))
  }

  function LoggedIn(s: Pending, r: AuthResult, device: Option<Device>, now: string): StoredTokens {
    StoredTokens(
      clientId := Text(s.clientId), username := Text(s.username),
      idToken := Text(r.idToken), accessToken := r.accessToken, refreshToken := r.refreshToken,
      lastRefresh := Text(now),
      deviceKey := if device.Some? then Text(device.value.key) else Null,
      deviceGroupKey := if device.Some? then Text(device.value.groupKey) else Null,
      devicePassword := if device.Some? then Text(device.value.password) else Null)
  }

  function WithoutDevice(t: StoredTokens): StoredTokens {
    t.(deviceKey := Null, deviceGroupKey := Null, devicePassword := Null)
  }

  function Imported(values: StoredTokens, now: string): StoredTokens {
    values.(clientId := Text(CONSUMER_CLIENT_ID),
            accessToken := if Truthy(values.accessToken) then values.accessToken else Null,
            username := if Truthy(values.username) then values.username else Null,
            lastRefresh := Text(now))
  }

  function DeviceOf(t: StoredTokens): Device
    requires HasConfirmedDevice(t)
  {
    Device(t.deviceKey.s, t.deviceGroupKey.s, t.devicePassword.s)
  }

  // ---- Runs of any number of flows over one file ----

  type FlowId = int

  /** confirmed: every triple that ConfirmDevice confirmed, or that was imported as one. */
  datatype State = State(file: FileState, snapshots: map<FlowId, StoredTokens>, confirmed: set<Device>)

  datatype Step =
    | Load(f: FlowId)
    | RefreshOk(f: FlowId, r: AuthResult, now: string)
    | RefreshRejected(f: FlowId)
    | LoginWithoutDevice(s: Pending, r: AuthResult, now: string)
    | LoginConfirming(s: Pending, r: AuthResult, d: Device, now: string)
    | LoginByDevice(f: FlowId, s: Pending, r: AuthResult, now: string)
    | DeviceRejected(f: FlowId)
    | Bootstrap(values: StoredTokens, now: string)
    | Logout
    | Corrupt

  predicate Enabled(aud: string -> Option<string>, s: State, step: Step) {
    match step
    case Load(_) => s.file.Holds?
    case RefreshOk(f, _, _) => f in s.snapshots && LoginError(aud, s.snapshots[f], false) == None
    case RefreshRejected(f) => f in s.snapshots && LoginError(aud, s.snapshots[f], false) == None
    case LoginConfirming(_, _, d, _) => Complete(d)
    case LoginByDevice(f, _, _, _) => f in s.snapshots && HasConfirmedDevice(s.snapshots[f])
    case DeviceRejected(f) => f in s.snapshots
    case Bootstrap(values, _) => LoginError(aud, values, true) == None
    case _ => true
  }

  function Saved(c: Clock, s: State, t: StoredTokens): State {
    s.(file := Holds(Merge(c, Disk(s.file), t)))
  }

  function Next(c: Clock, aud: string -> Option<string>, s: State, step: Step): State
    requires Enabled(aud, s, step)
  {
    match step
    case Load(f) => s.(snapshots := s.snapshots[f := s.file.tokens])
    case RefreshOk(f, r, now) =>
      var t := Refreshed(s.snapshots[f], r, now);
      Saved(c, s, t).(snapshots := s.snapshots[f := t])
    case RefreshRejected(f) => Saved(c, s, Rejected(s.snapshots[f]))
    case LoginWithoutDevice(p, r, now) => Saved(c, s, LoggedIn(p, r, None, now))
    case LoginConfirming(p, r, d, now) =>
      Saved(c, s, LoggedIn(p, r, Some(d), now)).(confirmed := s.confirmed + {d})
    case LoginByDevice(f, p, r, now) => Saved(c, s, LoggedIn(p, r, Some(DeviceOf(s.snapshots[f])), now))
    case DeviceRejected(f) => Saved(c, s, WithoutDevice(s.snapshots[f]))
    case Bootstrap(values, now) =>
      Saved(c, s, Imported(values, now)).(
        confirmed := s.confirmed + if HasConfirmedDevice(values) then {DeviceOf(values)} else {})
    case Logout => s.(file := Missing)
    case Corrupt => s.(file := FileState.Corrupt)
  }

  // ---- The flows take these steps ----

  const THIS_FLOW: FlowId := 0

  /** One running call of an auth function: its snapshot t outlives every await. */
  class Flow {
    const store: FileTokenStore
    const aud: string -> Option<string>
    var t: Option<StoredTokens>

    constructor (store: FileTokenStore, aud: string -> Option<string>)
      ensures this.store == store && this.aud == aud && t == None
    {
      this.store := store;
      this.aud := aud;
      t := None;
    }

    /** This flow alone over the file, as a state of the step system. */
    function View(): State
      reads this, store.file
    {
      State(store.file.content, if t.Some? then map[THIS_FLOW := t.value] else map[], {})
    }

    /** getValidIdToken up to its request. */
    method BeginRefresh(now: real, marginSec: real) returns (r: Result<Answer, AuthError>)
      modifies `t
      ensures r == ValidOrRefresh(store.clock, aud, store.file.content, now, marginSec)
      ensures store.file.content.Holds? ==>
        View() == Next(store.clock, aud, old(View()), Step.Load(THIS_FLOW))
    {
      var loaded := store.Load();
      if loaded.Err? {
        return Err(CorruptTokens);
      }
      t := loaded.value;
      if t.None? {
        return Err(NoTokens);
      }
      var e := LoginError(aud, t.value, false);
      if e.Some? {
        return Err(e.value);
      }
      if Truthy(t.value.idToken) && store.clock.exp(t.value.idToken.s) - now > marginSec {
        return Ok(Valid(t.value.idToken.s));
      }
      if !Truthy(t.value.refreshToken) {
        return Err(NoRefreshToken);
      }
      r := Ok(Refresh(t.value.refreshToken.s, if Truthy(t.value.deviceKey) then Some(t.value.deviceKey.s) else None));
    }

    method RefreshSucceeded(r: AuthResult, now: string)
      requires t.Some? && LoginError(aud, t.value, false) == None
      modifies `t, store.file
      ensures View() == Next(store.clock, aud, old(View()), RefreshOk(THIS_FLOW, r, now))
    {
      t := Some(t.value.(idToken := Text(r.idToken)));
      if Truthy(r.accessToken) {
        t := Some(t.value.(accessToken := r.accessToken));
      }
      if Truthy(r.refreshToken) {
        t := Some(t.value.(refreshToken := r.refreshToken));
      }
      t := Some(t.value.(lastRefresh := Text(now)));
      store.Save(t.value);
    }

    /** The refresh token is no longer valid: its three tokens go, the device stays. */
    method RefreshRejected()
      requires t.Some? && LoginError(aud, t.value, false) == None
      modifies store.file
      ensures View() == Next(store.clock, aud, old(View()), Step.RefreshRejected(THIS_FLOW))
      ensures store.file.content == Holds(Rejected(t.value))
    {
      DiscardIsHonoured(store.clock, Disk(store.file.content), Rejected(t.value));
      store.Save(Rejected(t.value));
    }

    /** loginVerify after an AuthenticationResult; device is what ConfirmDevice returned. */
    method LoginVerified(s: Pending, r: AuthResult, device: Option<Device>, now: string)
      requires device.Some? ==> Complete(device.value)
      modifies store.file
      ensures device.None? ==> View() == Next(store.clock, aud, old(View()), LoginWithoutDevice(s, r, now))
      ensures device.Some? ==>
        View() == Next(store.clock, aud, old(View()), LoginConfirming(s, r, device.value, now)).(confirmed := {})
    {
      store.Save(LoggedIn(s, r, device, now));
    }

    /** loginVerify after DEVICE_SRP_AUTH, which used the device of the snapshot. */
    method DeviceVerified(s: Pending, r: AuthResult, now: string)
      requires t.Some? && HasConfirmedDevice(t.value)
      modifies store.file
      ensures View() == Next(store.clock, aud, old(View()), LoginByDevice(THIS_FLOW, s, r, now))
    {
      store.Save(LoggedIn(s, r, Some(DeviceOf(t.value)), now));
    }

    /** The server no longer knows the device: forget it and log in without one. */
    method DeviceRejected()
      modifies store.file
      ensures View() == if t.None? then old(View())
                        else Next(store.clock, aud, old(View()), Step.DeviceRejected(THIS_FLOW))
    {
      if t.Some? {
        store.Save(WithoutDevice(t.value));
      }
    }

    method Bootstrap(values: StoredTokens, now: string) returns (r: Result<StoredTokens, AuthError>)
      modifies store.file
      ensures r.Ok? <==> Truthy(values.idToken) && Truthy(values.refreshToken) && LoginError(aud, values, true) == None
      ensures r.Ok? ==> r.value == Imported(values, now)
      ensures View() == if r.Err? then old(View())
                        else Next(store.clock, aud, old(View()), Step.Bootstrap(values, now)).(confirmed := {})
    {
      if !Truthy(values.idToken) || !Truthy(values.refreshToken) {
        return Err(MissingInput);
      }
      var e := LoginError(aud, values, true);
      if e.Some? {
        return Err(e.value);
      }
      store.Save(Imported(values, now));
      r := Ok(Imported(values, now));
    }

    method Logout()
      modifies store.file
      ensures View() == Next(store.clock, aud, old(View()), Step.Logout)
    {
      store.Clear();
    }
  }

  function Perform(c: Clock, aud: string -> Option<string>, s: State, steps: seq<Step>): Option<State>
    decreases |steps|
  {
    if steps == [] then Some(s)
    else if Enabled(aud, s, steps[0]) then Perform(c, aud, Next(c, aud, s, steps[0]), steps[1..])
    else None
  }

  /** A device key comes with the group key and password it was confirmed with. */
  predicate Backed(t: StoredTokens, confirmed: set<Device>) {
    Truthy(t.deviceKey) ==> HasConfirmedDevice(t) && DeviceOf(t) in confirmed
  }

  predicate Consistent(s: State) {
    && (s.file.Holds? ==> Backed(s.file.tokens, s.confirmed))
    && (forall f :: f in s.snapshots ==> Backed(s.snapshots[f], s.confirmed))
  }

  lemma SaveIsBacked(c: Clock, s: State, t: StoredTokens)
    requires Backed(t, s.confirmed)
    ensures Backed(Merge(c, Disk(s.file), t), s.confirmed)
  {
    DeviceFollowsSave(c, Disk(s.file), t);
  }

  lemma StepKeepsConsistent(c: Clock, aud: string -> Option<string>, s: State, step: Step)
    requires Consistent(s) && Enabled(aud, s, step)
    ensures Consistent(Next(c, aud, s, step))
  {
    match step
    case RefreshOk(f, r, now) => SaveIsBacked(c, s, Refreshed(s.snapshots[f], r, now));
    case RefreshRejected(f) => SaveIsBacked(c, s, Rejected(s.snapshots[f]));
    case LoginWithoutDevice(p, r, now) => SaveIsBacked(c, s, LoggedIn(p, r, None, now));
    case LoginConfirming(p, r, d, now) =>
      SaveIsBacked(c, s.(confirmed := s.confirmed + {d}), LoggedIn(p, r, Some(d), now));
    case LoginByDevice(f, p, r, now) =>
      SaveIsBacked(c, s, LoggedIn(p, r, Some(DeviceOf(s.snapshots[f])), now));
    case DeviceRejected(f) => SaveIsBacked(c, s, WithoutDevice(s.snapshots[f]));
    case Bootstrap(values, now) =>
      SaveIsBacked(c, Next(c, aud, s, step), Imported(values, now));
      DeviceFollowsSave(c, Disk(s.file), Imported(values, now));
    case _ =>
  }

  /**
   * In every run of any number of flows and processes, a stored device key comes with the
   * group key and password of its own confirmation, whatever the merges did.
   */
  lemma {:induction false} StoredDeviceIsOneConfirmation(
      c: Clock, aud: string -> Option<string>, s: State, steps: seq<Step>)
    requires Consistent(s) && Perform(c, aud, s, steps).Some?
    ensures Consistent(Perform(c, aud, s, steps).value)
    decreases |steps|
  {
    if steps != [] {
      StepKeepsConsistent(c, aud, s, steps[0]);
      StoredDeviceIsOneConfirmation(c, aud, Next(c, aud, s, steps[0]), steps[1..]);
    }
  }

  /**
   * So no run from an empty store ever leaves tokens that getValidIdToken refuses for their
   * device, and the device key it sends is one whose password is on disk with it.
   */
  lemma StoredDeviceNeverBlocksRefresh(
      c: Clock, aud: string -> Option<string>, steps: seq<Step>, s: State, now: real, marginSec: real)
    requires Perform(c, aud, State(Missing, map[], {}), steps) == Some(s)
    ensures var r := ValidOrRefresh(c, aud, s.file, now, marginSec);
            && r != Err(IncompleteDevice)
            && (r.Ok? && r.value.Refresh? && r.value.deviceKey.Some? ==>
                  HasConfirmedDevice(s.file.tokens) && r.value.deviceKey.value == DeviceOf(s.file.tokens).key
                  && DeviceOf(s.file.tokens) in s.confirmed)
  {
    StoredDeviceIsOneConfirmation(c, aud, State(Missing, map[], {}), steps);
  }

  // ---- What getValidIdToken answers ----

  /** Tokens of the consumer app: no audience or client of another, and no device without its secrets. */
  predicate AppTokens(aud: string -> Option<string>, t: StoredTokens) {
    && (t.idToken.Text? && t.idToken.s != "" ==> aud(t.idToken.s) in {None, Some(""), Some(CONSUMER_CLIENT_ID)})
    && (t.clientId.Text? ==> t.clientId.s in {"", CONSUMER_CLIENT_ID})
    && (t.deviceKey.Text? && t.deviceKey.s != "" ==>
          t.deviceGroupKey.Text? && t.deviceGroupKey.s != "" && t.devicePassword.Text? && t.devicePassword.s != "")
  }

  lemma AcceptedExactlyWhenAppTokens(aud: string -> Option<string>, t: StoredTokens)
    ensures LoginError(aud, t, false) == None <==> AppTokens(aud, t)
    ensures LoginError(aud, t, true) == None <==>
      AppTokens(aud, t) && t.idToken.Text? && t.idToken.s != "" && aud(t.idToken.s) == Some(CONSUMER_CLIENT_ID)
  {
  }

  /** The stored token is valid for longer than the margin. */
  predicate StillValid(c: Clock, t: StoredTokens, now: real, marginSec: real) {
    t.idToken.Text? && t.idToken.s != "" && c.exp(t.idToken.s) > now + marginSec
  }

  /**
   * For any file: a token is answered exactly when the stored one is the app's and outlives now
   * by more than the margin, a refresh is asked for exactly when it does not and there is a
   * refresh token, with the stored device if there is one, and otherwise the call is refused.
   */
  lemma AnswerIsExact(
      c: Clock, aud: string -> Option<string>, f: FileState, now: real, marginSec: real, s: string, d: Option<string>)
    ensures var r := ValidOrRefresh(c, aud, f, now, marginSec);
            && (r == Ok(Valid(s)) <==>
                  f.Holds? && AppTokens(aud, f.tokens) && StillValid(c, f.tokens, now, marginSec)
                  && f.tokens.idToken == Text(s))
            && (r == Ok(Answer.Refresh(s, d)) <==>
                  f.Holds? && AppTokens(aud, f.tokens) && !StillValid(c, f.tokens, now, marginSec)
                  && s != "" && f.tokens.refreshToken == Text(s)
                  && d == (if f.tokens.deviceKey.Text? && f.tokens.deviceKey.s != "" then Some(f.tokens.deviceKey.s)
                           else None))
            && (r == Err(NoTokens) <==> f.Missing?) && (r == Err(CorruptTokens) <==> f.Corrupt?)
            && (r == Err(NoRefreshToken) <==>
                  f.Holds? && AppTokens(aud, f.tokens) && !StillValid(c, f.tokens, now, marginSec)
                  && !(f.tokens.refreshToken.Text? && f.tokens.refreshToken.s != ""))
  {
    if f.Holds? {
      AcceptedExactlyWhenAppTokens(aud, f.tokens);
    }
  }

  // ---- What the next call answers ----

  /** The rotation a refresh brings: tokens the response leaves out stay. */
  predicate Rotated(t: StoredTokens, r: AuthResult, t': StoredTokens) {
    && t'.idToken == Text(r.idToken)
    && (r.refreshToken.Text? && r.refreshToken.s != "" ==> t'.refreshToken == r.refreshToken)
    && (!(r.refreshToken.Text? && r.refreshToken.s != "") ==> t'.refreshToken == t.refreshToken)
    && (r.accessToken.Text? && r.accessToken.s != "" ==> t'.accessToken == r.accessToken)
    && (!(r.accessToken.Text? && r.accessToken.s != "") ==> t'.accessToken == t.accessToken)
    && t'.deviceKey == t.deviceKey && t'.deviceGroupKey == t.deviceGroupKey && t'.devicePassword == t.devicePassword
    && t'.clientId == t.clientId && t'.username == t.username
  }

  /**
   * After a successful refresh that the disk is not fresher than, the disk has the rotated
   * tokens, and a call answers with the new one as long as it is valid.
   */
  lemma RefreshIsAnswered(
      c: Clock, aud: string -> Option<string>, s: State, f: FlowId, r: AuthResult, stamp: string, now: real,
      marginSec: real)
    requires Enabled(aud, s, RefreshOk(f, r, stamp)) && r.idToken != ""
    requires c.parse(stamp).Some? && DiskFreshness(c, Disk(s.file)) <= c.parse(stamp).value
    requires aud(r.idToken) == Some(CONSUMER_CLIENT_ID) && c.exp(r.idToken) > now + marginSec
    ensures var s' := Next(c, aud, s, RefreshOk(f, r, stamp));
            && s'.file.Holds? && Rotated(s.snapshots[f], r, s'.file.tokens) && s'.snapshots[f] == s'.file.tokens
            && ValidOrRefresh(c, aud, s'.file, now, marginSec) == Ok(Valid(r.idToken))
  {
    var t := Refreshed(s.snapshots[f], r, stamp);
    FreshnessIsLatest(c, t);
    AcceptedExactlyWhenAppTokens(aud, s.snapshots[f]);
    AnswerIsExact(c, aud, Next(c, aud, s, RefreshOk(f, r, stamp)).file, now, marginSec, r.idToken, None);
  }

  /** And a flow refreshes what it loaded: nothing saved before the load is lost. */
  lemma LoadThenRefresh(c: Clock, aud: string -> Option<string>, s: State, f: FlowId, r: AuthResult, stamp: string)
    requires s.file.Holds? && LoginError(aud, s.file.tokens, false) == None && r.idToken != ""
    requires c.parse(stamp).Some? && Freshness(c, s.file.tokens) <= c.parse(stamp).value
    ensures var after := Perform(c, aud, s, [Load(f), RefreshOk(f, r, stamp)]);
            && after.Some? && after.value.file.Holds? && Rotated(s.file.tokens, r, after.value.file.tokens)
            && after.value.confirmed == s.confirmed
  {
    var s1 := Next(c, aud, s, Load(f));
    assert [Load(f), RefreshOk(f, r, stamp)][1..] == [RefreshOk(f, r, stamp)];
    assert [RefreshOk(f, r, stamp)][1..] == [];
    FreshnessIsLatest(c, Refreshed(s.file.tokens, r, stamp));
    assert Perform(c, aud, s1, [RefreshOk(f, r, stamp)]) == Some(Next(c, aud, s1, RefreshOk(f, r, stamp)));
  }

  /** After a rejected refresh a new login is needed, and the confirmed device is still there for it. */
  lemma RejectionNeedsLogin(c: Clock, aud: string -> Option<string>, s: State, f: FlowId, now: real, marginSec: real)
    requires Enabled(aud, s, RefreshRejected(f))
    ensures var s' := Next(c, aud, s, RefreshRejected(f));
            && ValidOrRefresh(c, aud, s'.file, now, marginSec) == Err(NoRefreshToken)
            && (HasConfirmedDevice(s.snapshots[f]) ==>
                  HasConfirmedDevice(s'.file.tokens) && DeviceOf(s'.file.tokens) == DeviceOf(s.snapshots[f]))
            && s'.file.tokens.username == s.snapshots[f].username
  {
    DiscardIsHonoured(c, Disk(s.file), Rejected(s.snapshots[f]));
    AcceptedExactlyWhenAppTokens(aud, s.snapshots[f]);
    AnswerIsExact(c, aud, Next(c, aud, s, RefreshRejected(f)).file, now, marginSec, "", None);
  }

  /** The device the next refresh would send. */
  function DeviceSent(s: State): Option<string> {
    if s.file.Holds? && s.file.tokens.deviceKey.Text? && s.file.tokens.deviceKey.s != ""
    then Some(s.file.tokens.deviceKey.s) else None
  }

  /**
   * Which device is on disk right after each flow: the one just confirmed, none after a login
   * without one or after a rejection of the device, the one it was done with after a device
   * login, and none after a logout. Whatever another process saved before does not count.
   */
  lemma DeviceAfterFlow(c: Clock, aud: string -> Option<string>, s: State, step: Step)
    requires Enabled(aud, s, step)
    ensures var s' := Next(c, aud, s, step);
            match step
            case LoginConfirming(_, _, d, _) =>
              DeviceSent(s') == Some(d.key) && HasConfirmedDevice(s'.file.tokens) && DeviceOf(s'.file.tokens) == d
              && d in s'.confirmed
            case LoginWithoutDevice(_, _, _) => DeviceSent(s') == None
            case LoginByDevice(f, _, _, _) =>
              HasConfirmedDevice(s'.file.tokens) && DeviceOf(s'.file.tokens) == DeviceOf(s.snapshots[f])
            case DeviceRejected(_) => DeviceSent(s') == None
            case Logout => s'.file.Missing?
            case _ => true
  {
  }

  /**
   * After a login whose tokens the disk is not fresher than, a call answers with its token as
   * long as it is valid, and afterwards refreshes with its refresh token and device.
   */
  lemma LoginIsAnswered(
      c: Clock, aud: string -> Option<string>, s: State, p: Pending, r: AuthResult, d: Device, stamp: string, now: real,
      marginSec: real)
    requires Complete(d) && r.idToken != "" && p.clientId == CONSUMER_CLIENT_ID
    requires c.parse(stamp).Some? && DiskFreshness(c, Disk(s.file)) <= c.parse(stamp).value
    requires aud(r.idToken) == Some(CONSUMER_CLIENT_ID)
    ensures var s' := Next(c, aud, s, LoginConfirming(p, r, d, stamp));
            var answer := ValidOrRefresh(c, aud, s'.file, now, marginSec);
            && (c.exp(r.idToken) > now + marginSec ==> answer == Ok(Valid(r.idToken)))
            && (c.exp(r.idToken) <= now + marginSec && r.refreshToken.Text? && r.refreshToken.s != "" ==>
                  answer == Ok(Answer.Refresh(r.refreshToken.s, Some(d.key))))
            && s'.file.tokens.username == Text(p.username)
  {
    var s' := Next(c, aud, s, LoginConfirming(p, r, d, stamp));
    FreshnessIsLatest(c, LoggedIn(p, r, Some(d), stamp));
    AnswerIsExact(c, aud, s'.file, now, marginSec, r.idToken, None);
    if r.refreshToken.Text? {
      AnswerIsExact(c, aud, s'.file, now, marginSec, r.refreshToken.s, Some(d.key));
    }
  }

  /** The same for an import: it is the app's, and what it left out of the four optional fields is null. */
  lemma BootstrapIsAnswered(
      c: Clock, aud: string -> Option<string>, s: State, values: StoredTokens, stamp: string, now: real,
      marginSec: real)
    requires Enabled(aud, s, Bootstrap(values, stamp))
    requires c.parse(stamp).Some? && DiskFreshness(c, Disk(s.file)) <= c.parse(stamp).value
    requires StillValid(c, values, now, marginSec)
    ensures var s' := Next(c, aud, s, Bootstrap(values, stamp));
            && ValidOrRefresh(c, aud, s'.file, now, marginSec) == Ok(Valid(values.idToken.s))
            && s'.file.tokens.clientId == Text(CONSUMER_CLIENT_ID)
            && s'.file.tokens.refreshToken == values.refreshToken && s'.file.tokens.deviceKey == values.deviceKey
  {
    FreshnessIsLatest(c, Imported(values, stamp));
    AcceptedExactlyWhenAppTokens(aud, values);
    AnswerIsExact(c, aud, Next(c, aud, s, Bootstrap(values, stamp)).file, now, marginSec, values.idToken.s, None);
  }

  /**
   * What a rejected refresh leaves on disk is never fresher than a later save, so the next
   * refresh or login brings its own four tokens, whatever else was on disk before.
   */
  lemma TokensAfterRejection(c: Clock, t: StoredTokens, saves: seq<StoredTokens>, k: nat)
    requires forall i :: 0 <= i < |saves| ==> Ordinary(c, saves[i]) && AuthDefined(saves[i])
    requires LastFreshest(c, saves, k)
    ensures var disk := AfterSaves(c, Some(Rejected(t)), saves);
            disk.Some? && AuthOf(disk.value) == AuthOf(saves[k])
  {
    TokensOfLastFreshest(c, Some(Rejected(t)), saves, k);
  }
}
