/**
 * dispatchTrigger (packages/core/src/lock.js:62-110) on top of the transport: each command
 * waits for its acknowledgement, and may be settled earlier by a state push. Acknowledgements
 * carry no correlation key, so they are matched to commands by order alone.
 */
module LockCommand {
  import opened Wrappers
  import opened Transport
  import Canonical
  import DeviceSync
  import WsClient

  const ACK_KEY := "biz3TriggerLocker:"

  /** How a command ended: by its acknowledgement, refused by it, by a push, or by the transport. */
  datatype Outcome =
    | Acked(body: Body)
    | Rejected(body: Body)
    | ByPush(device: Canonical.Text)
    | TimedOutCommand
    | Failed

  datatype Command = Command(target: Canonical.Text, subscribed: bool, outcome: Option<Outcome>)

  /** succeed and fail: only the first call counts, and it drops the subscription. */
  function Finish(c: Command, o: Outcome): Command {
    if c.outcome.Some? then c else Command(c.target, false, Some(o))
  }

  /** A push settles the command when it names its device, or no device at all. */
  predicate Concerns(c: Command, device: Canonical.Text) {
    DeviceSync.NormalizeUuid(device) == [] || DeviceSync.NormalizeUuid(device) == c.target
  }

  function OnPush(c: Command, device: Canonical.Text): Command {
    if c.subscribed && Concerns(c, device) then Finish(c, ByPush(device)) else c
  }

  /** The outcome of a settled request; refused tells which acknowledgements have success: false. */
  function OutcomeOf(how: Settlement, refused: Body -> bool): Outcome {
    match how
    case Reply(body) => if refused(body) then Rejected(body) else Acked(body)
    case TimedOut => TimedOutCommand
    case ConnectionClosed => Failed
  }

  class Trigger {
    const target: Canonical.Text
    var done: bool
    var subscribed: bool
    var outcome: Option<Outcome>

    ghost predicate Valid()
      reads this
    {
      (done <==> outcome.Some?) && (subscribed <==> !done)
    }

    function View(): Command
      reads this
    {
      Command(target, subscribed, outcome)
    }

    constructor (deviceId: Canonical.Text)
      ensures Valid() && View() == Command(DeviceSync.NormalizeUuid(deviceId), true, None)
    {
      target := DeviceSync.NormalizeUuid(deviceId);
      done, subscribed, outcome := false, true, None;
    }

    method Settle(o: Outcome)
      requires Valid()
      modifies this
      ensures Valid() && View() == Finish(old(View()), o)
    {
      if done {
        return;
      }
      done := true;
      subscribed := false;
      outcome := Some(o);
    }

    method OnStatePush(device: Canonical.Text)
      requires Valid()
      modifies this
      ensures Valid() && View() == OnPush(old(View()), device)
    {
      if !subscribed {
        return;
      }
      var incoming := DeviceSync.NormalizeUuid(device);
      if incoming != [] && incoming != target {
        return;
      }
      Settle(ByPush(device));
    }

    method OnRequestSettled(how: Settlement, refused: Body -> bool)
      requires Valid()
      modifies this
      ensures Valid() && View() == Finish(old(View()), OutcomeOf(how, refused))
    {
      match how
      case Reply(body) =>
        if refused(body) {
          Settle(Rejected(body));
        } else {
          Settle(Acked(body));
        }
      case TimedOut =>
        Settle(TimedOutCommand);
      case ConnectionClosed =>
        Settle(Failed);
    }
  }

  datatype DispatchError = NotConnected

  /** A lock command is never queued: its signature would expire. */
  method DispatchTrigger(client: WsClient.Hub3WsClient, deviceId: Canonical.Text, throws: bool)
    returns (r: Result<(Trigger, Id), DispatchError>)
    requires client.Valid()
    modifies client
    ensures client.Valid()
    ensures r.Err? <==> old(client.status) != Opened
    ensures r.Err? ==> client.View() == old(client.View())
    ensures r.Ok? ==>
      && client.View() == Transport.Next(client.autoReconnect, old(client.View()), Ask(ACK_KEY, throws))
      && r.value.1 == old(client.accepted)
      && fresh(r.value.0) && r.value.0.Valid()
      && r.value.0.View() == Command(DeviceSync.NormalizeUuid(deviceId), true, None)
  {
    if client.status != Opened {
      return Err(NotConnected);
    }
    var trigger := new Trigger(deviceId);
    var id := client.Ask(ACK_KEY, throws);
    r := Ok((trigger, id));
  }

  // ---- Any number of commands in flight ----

  /** settled: requests whose promise is settled but whose continuation has not run yet. */
  datatype LockState = LockState(
    calls: Calls,
    issued: nat,
    commands: map<Id, Command>,
    devices: map<Id, Canonical.Text>,  // the device each command was sent to, as the caller wrote it
    settled: set<Id>,
    sent: seq<Id>,                // commands in the order they were sent
    acks: seq<Body>,              // acknowledgements that met an outstanding command
    answered: seq<Id>)            // and the commands they met

  datatype Step =
    | Dispatch(deviceId: Canonical.Text)
    | Ack(body: Body)
    | Push(device: Canonical.Text)
    | Continue(id: Id)
    | TimesOut(id: Id)
    | Disconnect
    | OtherRequest(key: Key)
    | OtherReply(key: Key, body: Body)

  predicate Enabled(s: LockState, step: Step) {
    match step
    case Continue(id) => id in s.settled && id in s.commands && id in s.calls.requests
                         && s.calls.requests[id].promise.Settled?
    case TimesOut(id) => id in s.calls.timers && id in s.calls.requests
    case OtherRequest(key) => key != ACK_KEY
    case OtherReply(key, _) => key != ACK_KEY
    case _ => true
  }

  function Next(refused: Body -> bool, s: LockState, step: Step): LockState
    requires Enabled(s, step)
  {
    match step
    case Dispatch(deviceId) =>
      s.(calls := Register(s.calls, ACK_KEY, s.issued), issued := s.issued + 1, sent := s.sent + [s.issued],
         commands := s.commands[s.issued := Command(DeviceSync.NormalizeUuid(deviceId), true, None)],
         devices := s.devices[s.issued := deviceId])
    case Ack(body) =>
      var q := Queue(s.calls, ACK_KEY);
      if q == [] then s
      else
        s.(calls := Answer(s.calls, ACK_KEY, body), settled := s.settled + {q[0]},
           acks := s.acks + [body], answered := s.answered + [q[0]])
    case Push(device) =>
      s.(commands := map id | id in s.commands :: OnPush(s.commands[id], device))
    case Continue(id) =>
      var o := OutcomeOf(s.calls.requests[id].promise.how, refused);
      s.(commands := s.commands[id := Finish(s.commands[id], o)], settled := s.settled - {id})
    case TimesOut(id) =>
      s.(calls := Expire(s.calls, id), settled := s.settled + if id in s.commands then {id} else {})
    case Disconnect =>
      s.(calls := RejectAll(s.calls), settled := s.settled + set id | id in s.commands && IsPending(s.calls, id))
    case OtherRequest(key) => s.(calls := Register(s.calls, key, s.issued), issued := s.issued + 1)
    case OtherReply(key, body) => s.(calls := Answer(s.calls, key, body))
  }

  function Perform(refused: Body -> bool, s: LockState, steps: seq<Step>): Option<LockState>
    decreases |steps|
  {
    if steps == [] then Some(s)
    else if Enabled(s, steps[0]) then Perform(refused, Next(refused, s, steps[0]), steps[1..])
    else None
  }

  const INITIAL := LockState(Calls(map[], map[], {}), 0, map[], map[], {}, [], [], [])

  // ---- What every run keeps ----

  /** A command has a request of its own, and ends by what settled that request or by a push. */
  predicate CommandOk(refused: Body -> bool, s: LockState, id: Id) {
    id in s.commands ==>
      var c := s.commands[id];
      && id in s.calls.requests && s.calls.requests[id].key == ACK_KEY
      && id in s.devices && c.target == DeviceSync.NormalizeUuid(s.devices[id])
      && (c.subscribed <==> c.outcome.None?)
      && match c.outcome
         case None => s.calls.requests[id].promise.Waiting? || id in s.settled
         case Some(ByPush(device)) => Concerns(c, device)
         case Some(o) => s.calls.requests[id].promise.Settled?
                         && o == OutcomeOf(s.calls.requests[id].promise.how, refused)
  }

  /** Only commands have requests under this key. */
  predicate OwnKey(s: LockState, id: Id) {
    id in s.calls.requests && s.calls.requests[id].key == ACK_KEY ==> id in s.commands
  }

  predicate Replied(s: LockState, id: Id) {
    id in s.calls.requests && s.calls.requests[id].promise.Settled? && s.calls.requests[id].promise.how.Reply?
  }

  /** A command whose request a reply settled is on the list of answered ones. */
  predicate Listed(s: LockState, id: Id) {
    id in s.commands && Replied(s, id) ==> id in s.answered
  }

  predicate SettledOk(s: LockState, id: Id) {
    id in s.settled ==> id in s.commands && id in s.calls.requests && s.calls.requests[id].promise.Settled?
  }

  predicate AnswersOk(s: LockState) {
    && |s.answered| == |s.acks|
    && Increasing(s.answered)
    && (forall j :: 0 <= j < |s.answered| ==>
          s.answered[j] in s.commands && s.answered[j] in s.calls.requests
          && s.calls.requests[s.answered[j]] == Request(ACK_KEY, Settled(Reply(s.acks[j]))))
  }

  /** Whatever still waits was sent after everything that was answered. */
  predicate Ahead(s: LockState, id: Id) {
    id in Queue(s.calls, ACK_KEY) ==> forall j :: 0 <= j < |s.answered| ==> s.answered[j] < id
  }

  predicate SentOk(s: LockState) {
    && Increasing(s.sent)
    && (forall k :: 0 <= k < |s.sent| ==> s.sent[k] < s.issued && s.sent[k] in s.commands)
    && (forall id :: id in s.commands ==> id in s.sent)
  }

  ghost predicate Orderly(refused: Body -> bool, s: LockState) {
    && Transport.Valid(s.calls, s.issued)
    && AnswersOk(s) && SentOk(s)
    && (forall id :: CommandOk(refused, s, id))
    && (forall id :: OwnKey(s, id) && Listed(s, id) && SettledOk(s, id) && Ahead(s, id))
  }

  // ---- Each step keeps it ----

  /** Other requests come and go: the commands' own requests and their queue are untouched. */
  lemma OthersKeepOrderly(refused: Body -> bool, s: LockState, calls: Calls, issued: nat)
    requires Orderly(refused, s) && Transport.Valid(calls, issued) && s.issued <= issued
    requires forall id :: id in s.commands ==>
      id in s.calls.requests && id in calls.requests && calls.requests[id] == s.calls.requests[id]
    requires forall id :: id in calls.requests && calls.requests[id].key == ACK_KEY ==> id in s.commands
    requires Queue(calls, ACK_KEY) == Queue(s.calls, ACK_KEY)
    ensures Orderly(refused, s.(calls := calls, issued := issued))
  {
    var s' := s.(calls := calls, issued := issued);
    forall id ensures CommandOk(refused, s', id) {
      assert CommandOk(refused, s, id);
    }
    forall id ensures OwnKey(s', id) && Listed(s', id) && SettledOk(s', id) && Ahead(s', id) {
      assert OwnKey(s, id) && Listed(s, id) && SettledOk(s, id) && Ahead(s, id);
      assert id in s.commands ==> Replied(s', id) == Replied(s, id);
    }
  }

  /** Some waiting commands' requests are settled, but not by a reply. */
  lemma FailuresKeepOrderly(refused: Body -> bool, s: LockState, calls: Calls, failed: set<Id>, how: Settlement)
    requires Orderly(refused, s) && Transport.Valid(calls, s.issued) && !how.Reply?
    requires calls.requests.Keys == s.calls.requests.Keys
    requires forall id :: id in calls.requests ==> calls.requests[id].key == s.calls.requests[id].key
    requires forall id :: id in failed ==>
      id in s.commands && id in s.calls.requests && s.calls.requests[id].promise.Waiting?
    requires forall id :: id in s.commands && id in calls.requests ==>
      calls.requests[id] == if id in failed then Request(ACK_KEY, Settled(how)) else s.calls.requests[id]
    requires forall id :: id in Queue(calls, ACK_KEY) ==> id in Queue(s.calls, ACK_KEY)
    ensures Orderly(refused, s.(calls := calls, settled := s.settled + failed))
  {
    var s' := s.(calls := calls, settled := s.settled + failed);
    forall id ensures CommandOk(refused, s', id) {
      assert CommandOk(refused, s, id);
    }
    forall id ensures OwnKey(s', id) && Listed(s', id) && SettledOk(s', id) && Ahead(s', id) {
      assert OwnKey(s, id) && Listed(s, id) && SettledOk(s, id) && Ahead(s, id) && CommandOk(refused, s, id);
    }
  }

  lemma DispatchKeepsOrderly(refused: Body -> bool, s: LockState, deviceId: Canonical.Text)
    requires Orderly(refused, s)
    ensures Orderly(refused, Next(refused, s, Dispatch(deviceId)))
  {
    var s' := Next(refused, s, Dispatch(deviceId));
    RegisterIsValid(s.calls, ACK_KEY, s.issued);
    assert Filed(s.calls, s.issued, s.issued);
    forall id ensures CommandOk(refused, s', id) {
      assert CommandOk(refused, s, id);
    }
    forall id ensures OwnKey(s', id) && Listed(s', id) && SettledOk(s', id) && Ahead(s', id) {
      assert OwnKey(s, id) && Listed(s, id) && SettledOk(s, id) && Ahead(s, id);
      AnsweredIsIssued(refused, s);
    }
  }

  lemma AnsweredIsIssued(refused: Body -> bool, s: LockState)
    requires Orderly(refused, s)
    ensures forall j :: 0 <= j < |s.answered| ==> s.answered[j] < s.issued
  {
    forall j | 0 <= j < |s.answered| ensures s.answered[j] < s.issued {
      assert Filed(s.calls, s.issued, s.answered[j]);
    }
  }

  /** An acknowledgement settles the oldest waiting command. */
  lemma AckKeepsOrderly(refused: Body -> bool, s: LockState, body: Body)
    requires Orderly(refused, s)
    ensures Orderly(refused, Next(refused, s, Ack(body)))
  {
    var s' := Next(refused, s, Ack(body));
    var q := Queue(s.calls, ACK_KEY);
    AnswerIsValid(s.calls, ACK_KEY, body, s.issued);
    if q != [] {
      var first := q[0];
      HeadWaits(s.calls, ACK_KEY, s.issued);
      assert OwnKey(s, first) && Ahead(s, first);
      AnswerShifts(s.calls, body);
      forall id ensures CommandOk(refused, s', id) {
        assert CommandOk(refused, s, id);
      }
      forall id ensures OwnKey(s', id) && Listed(s', id) && SettledOk(s', id) && Ahead(s', id) {
        assert OwnKey(s, id) && Listed(s, id) && SettledOk(s, id) && Ahead(s, id);
        AckKeepsOne(s, body, id);
      }
    }
  }

  lemma HeadWaits(c: Calls, key: Key, issued: int)
    requires Transport.Valid(c, issued) && Queue(c, key) != []
    ensures Queue(c, key)[0] in c.requests && c.requests[Queue(c, key)[0]] == Request(key, Waiting)
    ensures Increasing(Queue(c, key))
  {
    assert QueueOk(c, key) && Filed(c, issued, Queue(c, key)[0]);
    assert Queue(c, key)[0] in Queue(c, key);
  }

  lemma AnswerShifts(c: Calls, body: Body)
    requires Queue(c, ACK_KEY) != [] && Queue(c, ACK_KEY)[0] in c.requests
    ensures var q, c' := Queue(c, ACK_KEY), Answer(c, ACK_KEY, body);
            && Queue(c', ACK_KEY) == q[1..]
            && c'.requests == c.requests[q[0] := Settle(c.requests[q[0]], Reply(body))]
  {
    QueueOfSet(c, ACK_KEY, Queue(c, ACK_KEY)[1..], ACK_KEY);
  }

  lemma AckKeepsOne(s: LockState, body: Body, id: Id)
    requires Queue(s.calls, ACK_KEY) != [] && Increasing(Queue(s.calls, ACK_KEY))
    requires var first := Queue(s.calls, ACK_KEY)[0];
             && first in s.commands && first in s.calls.requests && s.calls.requests[first] == Request(ACK_KEY, Waiting)
    requires OwnKey(s, id) && Listed(s, id) && SettledOk(s, id) && Ahead(s, id)
    ensures var q := Queue(s.calls, ACK_KEY);
            var s' := s.(calls := Answer(s.calls, ACK_KEY, body), settled := s.settled + {q[0]},
                         acks := s.acks + [body], answered := s.answered + [q[0]]);
            OwnKey(s', id) && Listed(s', id) && SettledOk(s', id) && Ahead(s', id)
  {
    var q := Queue(s.calls, ACK_KEY);
    AnswerShifts(s.calls, body);
    assert (s.answered + [q[0]])[|s.answered|] == q[0];
    if id in q[1..] {
      var k :| 0 <= k < |q[1..]| && q[1..][k] == id;
      assert q[k + 1] == id;
    }
  }

  lemma TimeoutKeepsOrderly(refused: Body -> bool, s: LockState, id: Id)
    requires Orderly(refused, s) && Enabled(s, TimesOut(id))
    ensures Orderly(refused, Next(refused, s, TimesOut(id)))
  {
    var c := s.calls;
    var c' := Expire(c, id);
    var key := c.requests[id].key;
    ExpireIsValid(c, id, s.issued);
    assert Filed(c, s.issued, id) && OwnKey(s, id) && CommandOk(refused, s, id) && QueueOk(c, key);
    QueueOfSet(c, key, Transport.Without(Queue(c, key), id), ACK_KEY);
    forall x | x in Queue(c', ACK_KEY) ensures x in Queue(c, ACK_KEY) {
      WithoutKeeps(Queue(c, key), id, x);
    }
    if id in s.commands {
      FailuresKeepOrderly(refused, s, c', {id}, TimedOut);
    } else {
      forall x | x in s.commands ensures x in c'.requests && c'.requests[x] == c.requests[x] {
        assert CommandOk(refused, s, x);
      }
      forall x | x in c'.requests && c'.requests[x].key == ACK_KEY ensures x in s.commands {
        assert OwnKey(s, x);
      }
      OthersKeepOrderly(refused, s, c', s.issued);
      assert s.settled + {} == s.settled;
    }
  }

  lemma DisconnectKeepsOrderly(refused: Body -> bool, s: LockState)
    requires Orderly(refused, s)
    ensures Orderly(refused, Next(refused, s, Disconnect))
  {
    var c := s.calls;
    var failed := set id | id in s.commands && IsPending(c, id);
    RejectAllIsValid(c, s.issued);
    forall id | id in c.requests ensures IsPending(c, id) <==> c.requests[id].promise.Waiting? {
      assert Filed(c, s.issued, id);
    }
    forall id | id in s.commands
      ensures id in c.requests
           && RejectAll(c).requests[id]
              == if id in failed then Request(ACK_KEY, Settled(ConnectionClosed)) else c.requests[id]
    {
      assert CommandOk(refused, s, id);
    }
    FailuresKeepOrderly(refused, s, RejectAll(c), failed, ConnectionClosed);
  }

  lemma OtherRequestKeepsOrderly(refused: Body -> bool, s: LockState, key: Key)
    requires Orderly(refused, s) && key != ACK_KEY
    ensures Orderly(refused, Next(refused, s, OtherRequest(key)))
  {
    var c' := Register(s.calls, key, s.issued);
    RegisterIsValid(s.calls, key, s.issued);
    assert Filed(s.calls, s.issued, s.issued);
    forall id | id in s.commands ensures id in c'.requests && c'.requests[id] == s.calls.requests[id] {
      assert CommandOk(refused, s, id);
    }
    forall id | id in c'.requests && c'.requests[id].key == ACK_KEY ensures id in s.commands {
      assert OwnKey(s, id);
    }
    OthersKeepOrderly(refused, s, c', s.issued + 1);
  }

  lemma OtherReplyKeepsOrderly(refused: Body -> bool, s: LockState, key: Key, body: Body)
    requires Orderly(refused, s) && key != ACK_KEY
    ensures Orderly(refused, Next(refused, s, OtherReply(key, body)))
  {
    var c' := Answer(s.calls, key, body);
    var q := Queue(s.calls, key);
    AnswerIsValid(s.calls, key, body, s.issued);
    if q != [] {
      HeadWaits(s.calls, key, s.issued);
      QueueOfSet(s.calls, key, q[1..], ACK_KEY);
      forall id | id in s.commands ensures id in c'.requests && c'.requests[id] == s.calls.requests[id] {
        assert CommandOk(refused, s, id);
      }
      forall id | id in c'.requests && c'.requests[id].key == ACK_KEY ensures id in s.commands {
        assert OwnKey(s, id);
      }
      OthersKeepOrderly(refused, s, c', s.issued);
    }
  }

  lemma SettlementKeepsOrderly(refused: Body -> bool, s: LockState, step: Step)
    requires Orderly(refused, s) && Enabled(s, step) && (step.Push? || step.Continue?)
    ensures Orderly(refused, Next(refused, s, step))
  {
    var s' := Next(refused, s, step);
    forall id ensures CommandOk(refused, s', id) {
      assert CommandOk(refused, s, id);
    }
    forall id ensures OwnKey(s', id) && Listed(s', id) && SettledOk(s', id) && Ahead(s', id) {
      assert OwnKey(s, id) && Listed(s, id) && SettledOk(s, id) && Ahead(s, id);
    }
  }

  lemma StepKeepsOrderly(refused: Body -> bool, s: LockState, step: Step)
    requires Orderly(refused, s) && Enabled(s, step)
    ensures Orderly(refused, Next(refused, s, step))
  {
    match step
    case Dispatch(d) => DispatchKeepsOrderly(refused, s, d);
    case Ack(body) => AckKeepsOrderly(refused, s, body);
    case TimesOut(id) => TimeoutKeepsOrderly(refused, s, id);
    case Disconnect => DisconnectKeepsOrderly(refused, s);
    case OtherRequest(key) => OtherRequestKeepsOrderly(refused, s, key);
    case OtherReply(key, body) => OtherReplyKeepsOrderly(refused, s, key, body);
    case _ => SettlementKeepsOrderly(refused, s, step);
  }

  lemma {:induction false} EveryRunIsOrderly(refused: Body -> bool, s: LockState, steps: seq<Step>, end: LockState)
    requires Orderly(refused, s) && Perform(refused, s, steps) == Some(end)
    ensures Orderly(refused, end)
    decreases |steps|
  {
    if steps != [] {
      StepKeepsOrderly(refused, s, steps[0]);
      EveryRunIsOrderly(refused, Next(refused, s, steps[0]), steps[1..], end);
    }
  }

  lemma InitialIsOrderly(refused: Body -> bool)
    ensures Orderly(refused, INITIAL)
  {
    NoCallsIsValid();
    assert AnswersOk(INITIAL) && SentOk(INITIAL);
    assert forall id :: CommandOk(refused, INITIAL, id);
    assert forall id :: OwnKey(INITIAL, id) && Listed(INITIAL, id) && SettledOk(INITIAL, id) && Ahead(INITIAL, id);
  }

  /**
   * In every run, with any number of commands in flight, timeouts and disconnects included: a
   * command ends only by a push for its device or for none, or by what settled its own request:
   * acknowledged by a reply that does not refuse, rejected by one that does, timed out, or
   * failed with the connection. Once its request is settled and its continuation has run, it
   * has ended.
   */
  lemma CommandsEndAsTheyShould(refused: Body -> bool, steps: seq<Step>, end: LockState, id: Id)
    requires Perform(refused, INITIAL, steps) == Some(end) && id in end.commands
    ensures id in end.calls.requests && end.calls.requests[id].key == ACK_KEY
    ensures match end.commands[id].outcome
            case Some(ByPush(device)) => id in end.devices && MeantFor(device, end.devices[id])
            case Some(Acked(body)) => end.calls.requests[id].promise == Settled(Reply(body)) && !refused(body)
            case Some(Rejected(body)) => end.calls.requests[id].promise == Settled(Reply(body)) && refused(body)
            case Some(TimedOutCommand) => end.calls.requests[id].promise == Settled(TimedOut)
            case Some(Failed) => end.calls.requests[id].promise == Settled(ConnectionClosed)
            case None => end.calls.requests[id].promise.Waiting? || id in end.settled
  {
    InitialIsOrderly(refused);
    EveryRunIsOrderly(refused, INITIAL, steps, end);
    assert CommandOk(refused, end, id);
    match end.commands[id].outcome
    case Some(ByPush(device)) => ConcernsExactlyWhenMeant(end.commands[id], device, end.devices[id]);
    case _ =>
  }

  /** The push names no device, or the device as far as dashes and case do not count. */
  predicate MeantFor(pushed: Canonical.Text, device: Canonical.Text) {
    DeviceSync.SameUuid(pushed, []) || DeviceSync.SameUuid(pushed, device)
  }

  lemma ConcernsExactlyWhenMeant(c: Command, pushed: Canonical.Text, device: Canonical.Text)
    requires c.target == DeviceSync.NormalizeUuid(device)
    ensures Concerns(c, pushed) <==> MeantFor(pushed, device)
  {
    DeviceSync.NormalizedExactlyWhenSame(pushed, []);
    DeviceSync.NormalizedExactlyWhenSame(pushed, device);
  }

  /** Once the continuation of a settled request runs, its command has ended, and it runs only once. */
  lemma ContinuationEnds(refused: Body -> bool, steps: seq<Step>, s: LockState, id: Id)
    requires Perform(refused, INITIAL, steps) == Some(s) && Enabled(s, Continue(id))
    ensures var s' := Next(refused, s, Continue(id));
            && id in s'.commands && s'.commands[id].outcome.Some? && !s'.commands[id].subscribed
            && !Enabled(s', Continue(id))
  {
    InitialIsOrderly(refused);
    EveryRunIsOrderly(refused, INITIAL, steps, s);
    assert CommandOk(refused, s, id);
  }

  /**
   * Acknowledgements meet commands in the order they were sent: the commands they settled form
   * an increasing list, every reply is on it, and whatever still waits was sent later. A
   * command that a push settled early is on it like any other.
   */
  lemma AcksMeetCommandsInOrder(refused: Body -> bool, steps: seq<Step>, end: LockState, j: nat)
    requires Perform(refused, INITIAL, steps) == Some(end) && j < |end.acks|
    ensures |end.answered| == |end.acks| && Increasing(end.answered)
    ensures end.answered[j] in end.calls.requests
    ensures end.calls.requests[end.answered[j]] == Request(ACK_KEY, Settled(Reply(end.acks[j])))
    ensures forall id :: id in end.commands && Replied(end, id) ==> id in end.answered
    ensures forall id :: id in Queue(end.calls, ACK_KEY) ==> end.answered[j] < id
  {
    InitialIsOrderly(refused);
    EveryRunIsOrderly(refused, INITIAL, steps, end);
    forall id | id in end.commands && Replied(end, id) ensures id in end.answered {
      assert Listed(end, id);
    }
    forall id | id in Queue(end.calls, ACK_KEY) ensures end.answered[j] < id {
      assert Ahead(end, id);
    }
  }

  // ---- Which acknowledgement is whose ----

  /** In increasing lists, the j-th of some elements stands at place j or later. */
  lemma {:induction false} PlaceAtLeast(a: seq<Id>, b: seq<Id>, j: nat) returns (k: nat)
    requires Increasing(a) && Increasing(b) && (forall i :: 0 <= i < |a| ==> a[i] in b) && j < |a|
    ensures j <= k < |b| && b[k] == a[j]
  {
    assert a[j] in b;
    k :| 0 <= k < |b| && b[k] == a[j];
    if j > 0 {
      var l := PlaceAtLeast(a, b, j - 1);
      assert a[j - 1] < a[j];
    }
  }

  /** And the j-th from the end stands at that place from the end, or earlier. */
  lemma {:induction false} PlaceAtMost(a: seq<Id>, b: seq<Id>, j: nat) returns (k: nat)
    requires Increasing(a) && Increasing(b) && (forall i :: 0 <= i < |a| ==> a[i] in b) && j < |a|
    ensures k < |b| && b[k] == a[j] && k + (|a| - j) <= |b|
    decreases |a| - j
  {
    assert a[j] in b;
    k :| 0 <= k < |b| && b[k] == a[j];
    if j + 1 < |a| {
      var l := PlaceAtMost(a, b, j + 1);
      assert a[j] < a[j + 1];
    }
  }

  lemma AllOfThem(a: seq<Id>, b: seq<Id>)
    requires Increasing(a) && Increasing(b) && (forall i :: 0 <= i < |a| ==> a[i] in b) && |a| == |b|
    ensures a == b
  {
    forall j | 0 <= j < |a| ensures a[j] == b[j] {
      var k := PlaceAtLeast(a, b, j);
      var l := PlaceAtMost(a, b, j);
    }
  }

  /**
   * The k-th acknowledgement met the k-th command for all of them, exactly when the first
   * commands, as many as there were acknowledgements, were all answered: none of them timed
   * out, lost its connection or still waits.
   */
  lemma AcksPairExactlyWhenAllReplied(refused: Body -> bool, s: LockState)
    requires Orderly(refused, s)
    ensures |s.acks| <= |s.sent|
    ensures s.answered == s.sent[..|s.acks|] <==> forall k :: 0 <= k < |s.acks| ==> Replied(s, s.sent[k])
  {
    AnsweredFits(refused, s);
    var first := s.sent[..|s.acks|];
    if s.answered == first {
      forall k | 0 <= k < |s.acks| ensures Replied(s, s.sent[k]) {
        assert s.answered[k] == s.sent[k];
      }
    }
    if forall k :: 0 <= k < |s.acks| ==> Replied(s, s.sent[k]) {
      forall k | 0 <= k < |first| ensures first[k] in s.answered {
        assert Listed(s, s.sent[k]) && Replied(s, s.sent[k]);
      }
      AllOfThem(first, s.answered);
    }
  }

  lemma CommandIsSent(s: LockState, id: Id)
    requires SentOk(s) && id in s.commands
    ensures id in s.sent
  {
  }

  lemma AnsweredFits(refused: Body -> bool, s: LockState)
    requires Orderly(refused, s)
    ensures |s.acks| <= |s.sent| && forall j :: 0 <= j < |s.answered| ==> s.answered[j] in s.sent
  {
    forall j | 0 <= j < |s.answered| ensures s.answered[j] in s.sent {
      CommandIsSent(s, s.answered[j]);
    }
    if s.answered != [] {
      var k := PlaceAtLeast(s.answered, s.sent, |s.answered| - 1);
    }
  }

  predicate Calm(step: Step) {
    !step.TimesOut? && !step.Disconnect?
  }

  /** No command failed. */
  predicate NoFailure(s: LockState, id: Id) {
    id in s.commands && id in s.calls.requests ==> s.calls.requests[id].promise.Waiting? || Replied(s, id)
  }

  lemma CalmStepKeepsNoFailure(refused: Body -> bool, s: LockState, step: Step, id: Id)
    requires Orderly(refused, s) && Enabled(s, step) && Calm(step) && NoFailure(s, id)
    ensures NoFailure(Next(refused, s, step), id)
  {
    assert CommandOk(refused, s, id);
    match step
    case Ack(_) =>
      if Queue(s.calls, ACK_KEY) != [] {
        HeadWaits(s.calls, ACK_KEY, s.issued);
      }
    case OtherReply(key, _) =>
      if Queue(s.calls, key) != [] {
        HeadWaits(s.calls, key, s.issued);
      }
    case OtherRequest(_) => assert Filed(s.calls, s.issued, s.issued);
    case Dispatch(_) => assert Filed(s.calls, s.issued, s.issued);
    case _ =>
  }

  lemma {:induction false} CalmRunHasNoFailure(
      refused: Body -> bool, s: LockState, steps: seq<Step>, end: LockState, id: Id)
    requires Orderly(refused, s) && NoFailure(s, id) && Perform(refused, s, steps) == Some(end)
    requires forall i :: 0 <= i < |steps| ==> Calm(steps[i])
    ensures NoFailure(end, id)
    decreases |steps|
  {
    if steps != [] {
      CalmStepKeepsNoFailure(refused, s, steps[0], id);
      StepKeepsOrderly(refused, s, steps[0]);
      CalmRunHasNoFailure(refused, Next(refused, s, steps[0]), steps[1..], end, id);
    }
  }

  /**
   * Without timeouts and disconnects, the k-th acknowledgement is the k-th command's own, even
   * when a push settled that command earlier: no acknowledgement ever shifts to another command.
   */
  lemma CalmRunsPair(refused: Body -> bool, steps: seq<Step>, end: LockState, k: nat)
    requires Perform(refused, INITIAL, steps) == Some(end) && forall i :: 0 <= i < |steps| ==> Calm(steps[i])
    requires k < |end.acks|
    ensures k < |end.sent| && end.sent[k] in end.calls.requests
    ensures end.calls.requests[end.sent[k]] == Request(ACK_KEY, Settled(Reply(end.acks[k])))
  {
    InitialIsOrderly(refused);
    EveryRunIsOrderly(refused, INITIAL, steps, end);
    AnsweredFits(refused, end);
    forall i | 0 <= i < |end.acks| ensures Replied(end, end.sent[i]) {
      CalmRunHasNoFailure(refused, INITIAL, steps, end, end.sent[i]);
      SentBeforeAnswered(refused, end, i);
    }
    AcksPairExactlyWhenAllReplied(refused, end);
    assert end.answered[k] == end.sent[k];
  }

  /** A command among the first, as many as there were acknowledgements, does not wait any more. */
  lemma SentBeforeAnswered(refused: Body -> bool, s: LockState, i: nat)
    requires Orderly(refused, s) && i < |s.acks| && i < |s.sent|
    ensures s.sent[i] in s.commands && s.sent[i] in s.calls.requests
    ensures !s.calls.requests[s.sent[i]].promise.Waiting?
  {
    var id := s.sent[i];
    assert CommandOk(refused, s, id) && Filed(s.calls, s.issued, id) && Ahead(s, id);
    AnsweredFits(refused, s);
    var k := PlaceAtLeast(s.answered, s.sent, i);
    assert id <= s.answered[i];
  }

  // ---- Outcomes ----

  /**
   * In any run a push settles exactly the unsettled commands of its device, or all of them when
   * it names none.
   */
  lemma PushSettlesExactlyConcerned(
      refused: Body -> bool, steps: seq<Step>, s: LockState, device: Canonical.Text, id: Id)
    requires Perform(refused, INITIAL, steps) == Some(s) && id in s.commands
    ensures id in s.devices
    ensures Next(refused, s, Push(device)).commands[id].outcome
         == if s.commands[id].outcome.None? && MeantFor(device, s.devices[id]) then Some(ByPush(device))
            else s.commands[id].outcome
  {
    InitialIsOrderly(refused);
    EveryRunIsOrderly(refused, INITIAL, steps, s);
    assert CommandOk(refused, s, id);
    ConcernsExactlyWhenMeant(s.commands[id], device, s.devices[id]);
  }

  /** The device of a command is the one it was sent to, for good. */
  lemma DeviceIsTheOneSentTo(refused: Body -> bool, s: LockState, steps: seq<Step>, end: LockState, id: Id)
    requires Orderly(refused, s) && Perform(refused, s, steps) == Some(end)
    ensures id in s.devices && id < s.issued ==> id in end.devices && end.devices[id] == s.devices[id]
    ensures steps != [] && steps[0].Dispatch? ==>
      s.issued in end.devices && end.devices[s.issued] == steps[0].deviceId
    decreases |steps|
  {
    if steps != [] {
      var s' := Next(refused, s, steps[0]);
      StepKeepsOrderly(refused, s, steps[0]);
      DeviceIsTheOneSentTo(refused, s', steps[1..], end, id);
      DeviceIsTheOneSentTo(refused, s', steps[1..], end, s.issued);
    }
  }

  /** Once a command has an outcome, no step changes it. */
  lemma OutcomeIsFinal(refused: Body -> bool, s: LockState, step: Step, id: Id)
    requires Orderly(refused, s) && Enabled(s, step) && id in s.commands && s.commands[id].outcome.Some?
    ensures id in Next(refused, s, step).commands && Next(refused, s, step).commands[id] == s.commands[id]
  {
    assert CommandOk(refused, s, id) && Filed(s.calls, s.issued, id);
  }
}
