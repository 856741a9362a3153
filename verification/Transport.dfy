/**
 * Hub3WsClient (packages/core/src/transport.js:128-621): FIFO request/response correlation,
 * timeouts, close and reconnect, and the offline queue with its age limit.
 */
module Transport {
  import opened Wrappers

  /** "action:op" of a frame. */
  type Key = string

  /** The number of a payload, in order of acceptance; a request has the number of its payload. */
  type Id = int

  /** The identity of a received message. */
  type Body = int

  const QUEUE_ENTRY_MAX_AGE_MS := 60000

  // ---- Requests ----

  datatype Settlement = Reply(body: Body) | TimedOut | ConnectionClosed

  /** Twice: its resolver ran again after the promise was settled. */
  datatype Promise = Waiting | Settled(how: Settlement) | Twice

  datatype Request = Request(key: Key, promise: Promise)

  datatype Calls = Calls(
    pending: map<Key, seq<Id>>,     // resolvers, oldest first
    requests: map<Id, Request>,     // every request and its promise
    timers: set<Id>)                // armed request timers

  function Settle(r: Request, how: Settlement): Request {
    r.(promise := if r.promise.Waiting? then Settled(how) else Twice)
  }

  function Queue(c: Calls, key: Key): seq<Id> {
    if key in c.pending then c.pending[key] else []
  }

  function SetQueue(pending: map<Key, seq<Id>>, key: Key, q: seq<Id>): map<Key, seq<Id>> {
    if q == [] then pending - {key} else pending[key := q]
  }

  function Without(q: seq<Id>, id: Id): seq<Id> {
    if q == [] then [] else if q[0] == id then q[1..] else [q[0]] + Without(q[1..], id)
  }

  function Register(c: Calls, key: Key, id: Id): Calls {
    Calls(c.pending[key := Queue(c, key) + [id]], c.requests[id := Request(key, Waiting)], c.timers + {id})
  }

  /** A message settles the first resolver of its key, if there is one. */
  function Answer(c: Calls, key: Key, body: Body): Calls {
    var q := Queue(c, key);
    if q == [] then c
    else
      Calls(SetQueue(c.pending, key, q[1..]),
            if q[0] in c.requests then c.requests[q[0] := Settle(c.requests[q[0]], Reply(body))] else c.requests,
            c.timers - {q[0]})
  }

  function Expire(c: Calls, id: Id): Calls
    requires id in c.requests
  {
    var key := c.requests[id].key;
    Calls(SetQueue(c.pending, key, Without(Queue(c, key), id)),
          c.requests[id := Settle(c.requests[id], TimedOut)],
          c.timers - {id})
  }

  predicate IsPending(c: Calls, id: Id) {
    id in c.requests && id in Queue(c, c.requests[id].key)
  }

  function RejectAll(c: Calls): Calls {
    Calls(map[],
          map id | id in c.requests ::
            if IsPending(c, id) then Settle(c.requests[id], ConnectionClosed) else c.requests[id],
          set id | id in c.timers && !IsPending(c, id))
  }

  // ---- Payloads ----

  datatype Entry = Entry(id: Id, enqueuedAt: int)

  datatype Traffic = Traffic(queue: seq<Entry>, accepted: nat, written: seq<Id>, dropped: seq<Id>, discarded: seq<Id>)

  function Ids(q: seq<Entry>): seq<Id> {
    if q == [] then [] else [q[0].id] + Ids(q[1..])
  }

  predicate Expired(e: Entry, now: int) {
    now - e.enqueuedAt > QUEUE_ENTRY_MAX_AGE_MS
  }

  /** How many entries the flush drops from the head. */
  function StaleHead(q: seq<Entry>, now: int): (n: nat)
    ensures n <= |q|
  {
    if q != [] && Expired(q[0], now) then 1 + StaleHead(q[1..], now) else 0
  }

  /** The next payload is written when the socket is open and the write does not throw. */
  function SendOrQueue(t: Traffic, goesOut: bool, now: int): Traffic {
    if goesOut then t.(accepted := t.accepted + 1, written := t.written + [t.accepted])
    else t.(accepted := t.accepted + 1, queue := t.queue + [Entry(t.accepted, now)])
  }

  function Stale(q: seq<Entry>, now: int): seq<Entry> {
    q[..StaleHead(q, now)]
  }

  function Left(q: seq<Entry>, now: int): seq<Entry> {
    q[StaleHead(q, now)..]
  }

  function Sent(left: seq<Entry>, writes: nat): seq<Entry> {
    if writes < |left| then left[..writes] else left
  }

  function Kept(left: seq<Entry>, writes: nat): seq<Entry> {
    if writes < |left| then left[writes..] else []
  }

  /** The flush, of which the first `writes` writes succeed. */
  function Flush(t: Traffic, now: int, writes: nat): Traffic {
    t.(dropped := t.dropped + Ids(Stale(t.queue, now)),
       written := t.written + Ids(Sent(Left(t.queue, now), writes)),
       queue := Kept(Left(t.queue, now), writes))
  }

  function Discard(t: Traffic): Traffic {
    t.(discarded := t.discarded + Ids(t.queue), queue := [])
  }

  // ---- The connection ----

  datatype Status = Disconnected | Connecting | Opened

  datatype Link = Link(
    status: Status,
    hasWs: bool,
    closedByUser: bool,
    connecting: bool,               // the initial connect has not been answered yet
    reconnectTimer: bool,
    refreshing: nat)                // reconnect callbacks awaiting a token

  predicate IsOpen(l: Link) {
    l.hasWs && l.status == Opened
  }

  function InitWebSocket(l: Link): Link {
    l.(status := Connecting, hasWs := true)
  }

  datatype State = State(now: int, link: Link, calls: Calls, traffic: Traffic)

  /** throws and writes tell which WebSocket writes of the step fail. */
  datatype Step =
    | Tick(ms: nat)
    | Connect
    | Send(throws: bool)
    | Ask(key: Key, throws: bool)
    | Receive(key: Key, body: Body)
    | TimerFires(id: Id)
    | SocketOpens(writes: nat)
    | SocketCloses
    | Close
    | Reconnect
    | ReconnectTimerFires
    | TokenRefreshed

  predicate Enabled(s: State, step: Step) {
    match step
    case TimerFires(id) => id in s.calls.timers && id in s.calls.requests
    case ReconnectTimerFires => s.link.reconnectTimer
    case TokenRefreshed => s.link.refreshing > 0
    case _ => true
  }

  /** The socket closed before the initial connect was answered. */
  predicate FailsInitialConnect(l: Link) {
    !l.closedByUser && l.status != Opened && l.connecting
  }

  function NextLink(autoReconnect: bool, l: Link, step: Step): Link
    requires step == TokenRefreshed ==> l.refreshing > 0
  {
    match step
    case Connect =>
      if l.status == Opened || l.connecting then l
      else InitWebSocket(l.(closedByUser := false, connecting := true))
    case SocketOpens(_) => l.(status := Opened, connecting := false)
    case SocketCloses =>
      var closed := l.(status := Disconnected, hasWs := false);
      if l.closedByUser then closed
      else if FailsInitialConnect(l) then closed.(connecting := false, closedByUser := true)
      else closed.(reconnectTimer := l.reconnectTimer || autoReconnect)
    case Close =>
      l.(status := Disconnected, hasWs := false, closedByUser := true, connecting := false, reconnectTimer := false)
    case Reconnect => if l.closedByUser then l else InitWebSocket(l.(reconnectTimer := false))
    case ReconnectTimerFires => l.(reconnectTimer := false, refreshing := l.refreshing + 1)
    case TokenRefreshed => InitWebSocket(l.(refreshing := l.refreshing - 1))
    case _ => l
  }

  function NextCalls(s: State, step: Step): Calls
    requires Enabled(s, step)
  {
    match step
    case Ask(key, _) => Register(s.calls, key, s.traffic.accepted)
    case Receive(key, body) => Answer(s.calls, key, body)
    case TimerFires(id) => Expire(s.calls, id)
    case SocketCloses => RejectAll(s.calls)
    case Close => RejectAll(s.calls)
    case _ => s.calls
  }

  function NextTraffic(s: State, step: Step): Traffic {
    match step
    case Send(throws) => SendOrQueue(s.traffic, IsOpen(s.link) && !throws, s.now)
    case Ask(_, throws) => SendOrQueue(s.traffic, IsOpen(s.link) && !throws, s.now)
    case SocketOpens(writes) => Flush(s.traffic, s.now, if s.link.hasWs then writes else 0)
    case SocketCloses => if FailsInitialConnect(s.link) then Discard(s.traffic) else s.traffic
    case Close => Discard(s.traffic)
    case _ => s.traffic
  }

  function Next(autoReconnect: bool, s: State, step: Step): State
    requires Enabled(s, step)
  {
    State(if step.Tick? then s.now + step.ms else s.now,
          NextLink(autoReconnect, s.link, step), NextCalls(s, step), NextTraffic(s, step))
  }

  const INITIAL :=
    State(0, Link(Disconnected, false, false, false, false, 0), Calls(map[], map[], {}), Traffic([], 0, [], [], []))

  function Perform(autoReconnect: bool, s: State, steps: seq<Step>): Option<State>
    decreases |steps|
  {
    if steps == [] then Some(s)
    else if Enabled(s, steps[0]) then Perform(autoReconnect, Next(autoReconnect, s, steps[0]), steps[1..])
    else None
  }

  // ---- Each request is settled at most once ----

  predicate Increasing(q: seq<Id>) {
    forall i, j :: 0 <= i < j < |q| ==> q[i] < q[j]
  }

  /** An unsettled request sits in its key's queue with its timer armed; a settled one is gone from both. */
  predicate Filed(c: Calls, issued: int, id: Id) {
    && (id in c.requests ==> 0 <= id < issued && c.requests[id].promise != Twice)
    && (id in c.requests ==> (c.requests[id].promise.Waiting? <==> IsPending(c, id)))
    && (id in c.timers <==> id in c.requests && c.requests[id].promise.Waiting?)
  }

  predicate QueueOk(c: Calls, key: Key) {
    && (key in c.pending ==> c.pending[key] != [])
    && Increasing(Queue(c, key))
    && (forall id :: id in Queue(c, key) ==> id in c.requests && c.requests[id].key == key)
  }

  ghost predicate Valid(c: Calls, issued: int) {
    (forall id :: Filed(c, issued, id)) && (forall key :: QueueOk(c, key))
  }

  lemma {:induction false} WithoutKeeps(q: seq<Id>, id: Id, x: Id)
    requires Increasing(q)
    ensures x in Without(q, id) <==> x in q && x != id
    ensures Increasing(Without(q, id))
  {
    if q != [] {
      WithoutKeeps(q[1..], id, x);
      assert x in q <==> x == q[0] || x in q[1..];
      if q[0] != id {
        forall i | 0 <= i < |Without(q[1..], id)| ensures q[0] < Without(q[1..], id)[i] {
          WithoutKeeps(q[1..], id, Without(q[1..], id)[i]);
        }
      }
    }
  }

  lemma QueueOfSet(c: Calls, key: Key, q: seq<Id>, k: Key)
    ensures Queue(c.(pending := SetQueue(c.pending, key, q)), k) == if k == key then q else Queue(c, k)
  {
  }

  lemma RegisterIsValid(c: Calls, key: Key, issued: nat)
    requires Valid(c, issued)
    ensures Valid(Register(c, key, issued), issued + 1)
  {
    var c', more := Register(c, key, issued), issued + 1;
    assert Filed(c, issued, issued);
    forall id ensures Filed(c', more, id) {
      assert Filed(c, issued, id);
      assert QueueOk(c, key);
      if id in c.requests {
        assert QueueOk(c, c.requests[id].key);
      }
    }
    forall k ensures QueueOk(c', k) {
      assert QueueOk(c, k);
      var q := Queue(c, k);
      forall i | 0 <= i < |q| ensures q[i] < issued {
        assert q[i] in q && Filed(c, issued, q[i]);
      }
    }
  }

  lemma AnswerIsValid(c: Calls, key: Key, body: Body, issued: int)
    requires Valid(c, issued)
    ensures Valid(Answer(c, key, body), issued)
  {
    var q := Queue(c, key);
    var c' := Answer(c, key, body);
    if q != [] {
      assert QueueOk(c, key) && Filed(c, issued, q[0]);
      forall k ensures QueueOk(c', k) {
        assert QueueOk(c, k);
        QueueOfSet(c, key, q[1..], k);
      }
      forall x ensures Filed(c', issued, x) {
        assert Filed(c, issued, x);
        if x in c.requests {
          assert QueueOk(c, c.requests[x].key);
          QueueOfSet(c, key, q[1..], c.requests[x].key);
        }
      }
    }
  }

  lemma ExpireIsValid(c: Calls, id: Id, issued: int)
    requires Valid(c, issued) && id in c.timers && id in c.requests
    ensures Valid(Expire(c, id), issued)
  {
    var c' := Expire(c, id);
    var key := c.requests[id].key;
    var q := Queue(c, key);
    assert QueueOk(c, key) && Filed(c, issued, id);
    forall k ensures QueueOk(c', k) {
      assert QueueOk(c, k);
      QueueOfSet(c, key, Without(q, id), k);
      forall x ensures x in Without(q, id) <==> x in q && x != id {
        WithoutKeeps(q, id, x);
      }
      WithoutKeeps(q, id, id);
    }
    forall x ensures Filed(c', issued, x) {
      assert Filed(c, issued, x);
      WithoutKeeps(q, id, x);
      if x in c.requests {
        assert QueueOk(c, c.requests[x].key);
        QueueOfSet(c, key, Without(q, id), c.requests[x].key);
      }
    }
  }

  lemma RejectAllIsValid(c: Calls, issued: int)
    requires Valid(c, issued)
    ensures Valid(RejectAll(c), issued)
    ensures forall id :: id in c.requests ==>
      RejectAll(c).requests[id]
      == if c.requests[id].promise.Waiting? then Settle(c.requests[id], ConnectionClosed) else c.requests[id]
  {
    var c' := RejectAll(c);
    forall id ensures Filed(c', issued, id) {
      assert Filed(c, issued, id);
    }
    forall id | id in c.requests
      ensures c'.requests[id]
           == if c.requests[id].promise.Waiting? then Settle(c.requests[id], ConnectionClosed) else c.requests[id]
    {
      assert Filed(c, issued, id);
    }
    forall key ensures QueueOk(c', key) {
    }
  }

  lemma MoreIssued(c: Calls, issued: int, more: int)
    requires Valid(c, issued) && issued <= more
    ensures Valid(c, more)
  {
    forall id ensures Filed(c, more, id) {
      assert Filed(c, issued, id);
    }
  }

  lemma StepKeepsValid(autoReconnect: bool, s: State, step: Step)
    requires Valid(s.calls, s.traffic.accepted) && Enabled(s, step)
    ensures Valid(NextCalls(s, step), NextTraffic(s, step).accepted)
  {
    var n := s.traffic.accepted;
    match step
    case Ask(key, throws) => RegisterIsValid(s.calls, key, n);
    case Receive(key, body) => AnswerIsValid(s.calls, key, body, n);
    case TimerFires(id) => ExpireIsValid(s.calls, id, n);
    case SocketCloses => RejectAllIsValid(s.calls, n);
    case Close => RejectAllIsValid(s.calls, n);
    case Send(_) => MoreIssued(s.calls, n, n + 1);
    case _ =>
  }

  /**
   * In every run, each request is unsettled exactly while its resolver sits (once) in its
   * key's non-empty queue with its timer armed, and no resolver ever runs a second time.
   */
  lemma {:induction false} EveryRunIsValid(autoReconnect: bool, s: State, steps: seq<Step>, end: State)
    requires Valid(s.calls, s.traffic.accepted) && Perform(autoReconnect, s, steps) == Some(end)
    ensures Valid(end.calls, end.traffic.accepted)
    decreases |steps|
  {
    if steps != [] {
      StepKeepsValid(autoReconnect, s, steps[0]);
      EveryRunIsValid(autoReconnect, Next(autoReconnect, s, steps[0]), steps[1..], end);
    }
  }

  /** A settled request keeps its settlement through every later step. */
  lemma SettlementIsFinal(s: State, step: Step, id: Id)
    requires Valid(s.calls, s.traffic.accepted) && Enabled(s, step)
    requires id in s.calls.requests && s.calls.requests[id].promise.Settled?
    ensures id in NextCalls(s, step).requests && NextCalls(s, step).requests[id] == s.calls.requests[id]
  {
    var c, n := s.calls, s.traffic.accepted;
    assert Filed(c, n, id);
    match step
    case Receive(key, _) =>
      if Queue(c, key) != [] {
        assert QueueOk(c, key) && Filed(c, n, Queue(c, key)[0]);
      }
    case TimerFires(x) => assert Filed(c, n, x);
    case _ =>
  }

  /** A reply settles the oldest outstanding request of its key, and nothing else. */
  lemma ReplySettlesOldest(c: Calls, issued: int, key: Key, body: Body, id: Id)
    requires Valid(c, issued) && id in c.requests
    ensures var r := c.requests[id];
            Answer(c, key, body).requests[id]
            == if r.key == key && r.promise.Waiting?
                  && (forall x :: x in c.requests && c.requests[x].key == key && c.requests[x].promise.Waiting?
                        ==> id <= x)
               then Request(key, Settled(Reply(body))) else r
  {
    assert Filed(c, issued, id) && QueueOk(c, key);
    var q := Queue(c, key);
    if q != [] {
      var first := q[0];
      assert Filed(c, issued, first);
      forall x | x in c.requests && c.requests[x].key == key && c.requests[x].promise.Waiting? ensures first <= x {
        assert Filed(c, issued, x);
      }
    }
  }

  /** An active reconnect leaves every outstanding request waiting; any close rejects them all. */
  lemma ReconnectKeepsAndCloseRejects(s: State, id: Id)
    requires Valid(s.calls, s.traffic.accepted) && id in s.calls.requests
    ensures NextCalls(s, Reconnect) == s.calls
    ensures NextCalls(s, Close) == NextCalls(s, SocketCloses)
    ensures NextCalls(s, Close).pending == map[] && NextCalls(s, Close).timers == {}
    ensures var r := s.calls.requests[id];
            NextCalls(s, Close).requests[id]
            == if r.promise.Waiting? then Request(r.key, Settled(ConnectionClosed)) else r
  {
    RejectAllIsValid(s.calls, s.traffic.accepted);
    forall x ensures x !in RejectAll(s.calls).timers {
      assert Filed(s.calls, s.traffic.accepted, x);
    }
  }

  /**
   * Why the order of replies is claimed only without timeouts: after a request timed out, its
   * late reply settles the next request of the same key.
   */
  lemma LateReplySettlesNextRequest(c: Calls, key: Key, body: Body, issued: nat)
    requires Valid(c, issued) && Queue(c, key) == []
    ensures var timedOut := Expire(Register(c, key, issued), issued);
            var both := Register(timedOut, key, issued + 1);
            && both.requests[issued].promise == Settled(TimedOut)
            && Answer(both, key, body).requests[issued + 1].promise == Settled(Reply(body))
  {
    var c1 := Register(c, key, issued);
    assert Queue(c1, key) == [issued];
    assert Without([issued], issued) == [];
    var c2 := Expire(c1, issued);
    QueueOfSet(c1, key, [], key);
    assert Queue(c2, key) == [];
    assert Queue(Register(c2, key, issued + 1), key) == [issued + 1];
  }

  // ---- Every accepted payload is in exactly one place ----

  function Count(q: seq<Id>, id: Id): nat {
    if q == [] then 0 else (if q[0] == id then 1 else 0) + Count(q[1..], id)
  }

  /** How often a payload number occurs among written, dropped, discarded and queued payloads. */
  function Places(t: Traffic, id: Id): nat {
    Count(t.written, id) + Count(t.dropped, id) + Count(t.discarded, id) + Count(Ids(t.queue), id)
  }

  predicate AccountedFor(t: Traffic, id: Id) {
    Places(t, id) == if 0 <= id < t.accepted then 1 else 0
  }

  lemma {:induction false} CountConcat(a: seq<Id>, b: seq<Id>, id: Id)
    ensures Count(a + b, id) == Count(a, id) + Count(b, id)
  {
    if a == [] {
      assert a + b == b;
    } else {
      assert (a + b)[1..] == a[1..] + b;
      CountConcat(a[1..], b, id);
    }
  }

  lemma {:induction false} IdsConcat(a: seq<Entry>, b: seq<Entry>)
    ensures Ids(a + b) == Ids(a) + Ids(b)
  {
    if a == [] {
      assert a + b == b;
    } else {
      assert (a + b)[1..] == a[1..] + b;
      IdsConcat(a[1..], b);
      assert Ids(a) == [a[0].id] + Ids(a[1..]);
    }
  }

  lemma IdsOne(e: Entry)
    ensures Ids([e]) == [e.id]
  {
    assert [e][1..] == [];
  }

  lemma {:induction false} IdsLength(q: seq<Entry>)
    ensures |Ids(q)| == |q|
  {
    if q != [] {
      IdsLength(q[1..]);
    }
  }

  /** The parts of the queue at a flush: dropped, written, kept. */
  lemma FlushParts(q: seq<Entry>, now: int, writes: nat)
    ensures Ids(q) == Ids(Stale(q, now)) + (Ids(Sent(Left(q, now), writes)) + Ids(Kept(Left(q, now), writes)))
  {
    var left := Left(q, now);
    assert q == Stale(q, now) + left;
    assert left == Sent(left, writes) + Kept(left, writes);
    IdsConcat(Stale(q, now), left);
    IdsConcat(Sent(left, writes), Kept(left, writes));
  }

  lemma FlushKeepsPlaces(t: Traffic, now: int, writes: nat, id: Id)
    ensures Places(Flush(t, now, writes), id) == Places(t, id)
  {
    FlushParts(t.queue, now, writes);
    var stale, left := Ids(Stale(t.queue, now)), Left(t.queue, now);
    var sent, kept := Ids(Sent(left, writes)), Ids(Kept(left, writes));
    CountConcat(stale, sent + kept, id);
    CountConcat(sent, kept, id);
    CountConcat(t.dropped, stale, id);
    CountConcat(t.written, sent, id);
  }

  lemma SendPlaces(t: Traffic, goesOut: bool, now: int, x: Id)
    ensures Places(SendOrQueue(t, goesOut, now), x) == Places(t, x) + if x == t.accepted then 1 else 0
  {
    var id := t.accepted;
    if goesOut {
      CountConcat(t.written, [id], x);
    } else {
      IdsConcat(t.queue, [Entry(id, now)]);
      IdsOne(Entry(id, now));
      CountConcat(Ids(t.queue), [id], x);
    }
    assert [id][1..] == [];
  }

  lemma DiscardPlaces(t: Traffic, id: Id)
    ensures Places(Discard(t), id) == Places(t, id)
  {
    CountConcat(t.discarded, Ids(t.queue), id);
  }

  lemma StepKeepsAccounts(s: State, step: Step, id: Id)
    requires AccountedFor(s.traffic, id)
    ensures AccountedFor(NextTraffic(s, step), id)
  {
    match step
    case Send(throws) => SendPlaces(s.traffic, IsOpen(s.link) && !throws, s.now, id);
    case Ask(_, throws) => SendPlaces(s.traffic, IsOpen(s.link) && !throws, s.now, id);
    case SocketOpens(writes) => FlushKeepsPlaces(s.traffic, s.now, if s.link.hasWs then writes else 0, id);
    case SocketCloses => DiscardPlaces(s.traffic, id);
    case Close => DiscardPlaces(s.traffic, id);
    case _ =>
  }

  /** At any time each payload accepted so far is exactly one of written, dropped, discarded or queued. */
  lemma {:induction false} EveryPayloadIsInOnePlace(
      autoReconnect: bool, s: State, steps: seq<Step>, end: State, id: Id)
    requires AccountedFor(s.traffic, id) && Perform(autoReconnect, s, steps) == Some(end)
    ensures AccountedFor(end.traffic, id)
    decreases |steps|
  {
    if steps != [] {
      StepKeepsAccounts(s, steps[0], id);
      EveryPayloadIsInOnePlace(autoReconnect, Next(autoReconnect, s, steps[0]), steps[1..], end, id);
    }
  }

  // ---- What a close puts away ----

  lemma {:induction false} RunGrowsOnly(autoReconnect: bool, s: State, steps: seq<Step>, end: State)
    requires Perform(autoReconnect, s, steps) == Some(end)
    ensures s.traffic.written <= end.traffic.written && s.traffic.dropped <= end.traffic.dropped
    ensures s.traffic.discarded <= end.traffic.discarded && s.traffic.accepted <= end.traffic.accepted
    decreases |steps|
  {
    if steps != [] {
      RunGrowsOnly(autoReconnect, Next(autoReconnect, s, steps[0]), steps[1..], end);
    }
  }

  lemma CountOfPrefix(a: seq<Id>, b: seq<Id>, id: Id)
    requires a <= b
    ensures Count(a, id) <= Count(b, id)
  {
    assert b == a + b[|a|..];
    CountConcat(a, b[|a|..], id);
  }

  lemma {:induction false} NotCounted(q: seq<Id>, id: Id)
    ensures Count(q, id) == 0 <==> id !in q
  {
    if q != [] {
      NotCounted(q[1..], id);
      assert id in q <==> id == q[0] || id in q[1..];
    }
  }

  /** What has been dropped or discarded is never written, in any run. */
  lemma GoneIsNeverWritten(autoReconnect: bool, s: State, steps: seq<Step>, end: State, id: Id)
    requires AccountedFor(s.traffic, id) && Perform(autoReconnect, s, steps) == Some(end)
    requires id in s.traffic.dropped || id in s.traffic.discarded
    ensures id !in end.traffic.written
  {
    var t, t' := s.traffic, end.traffic;
    EveryPayloadIsInOnePlace(autoReconnect, s, steps, end, id);
    RunGrowsOnly(autoReconnect, s, steps, end);
    CountOfPrefix(t.dropped, t'.dropped, id);
    CountOfPrefix(t.discarded, t'.discarded, id);
    NotCounted(t.dropped, id);
    NotCounted(t.discarded, id);
    NotCounted(t'.written, id);
  }

  /** The steps that empty the queue: a close by the user, and a loss before the connect is answered. */
  predicate PutsAway(s: State, step: Step) {
    step.Close? || (step.SocketCloses? && !s.link.closedByUser && s.link.status != Opened && s.link.connecting)
  }

  /**
   * After such a step of any client the queue is empty, and no payload accepted before it and
   * unwritten by then is ever written, whatever connections follow.
   */
  lemma PutAwayIsNeverWritten(
      autoReconnect: bool, before: seq<Step>, s: State, step: Step, more: seq<Step>, end: State, id: Id)
    requires Perform(autoReconnect, INITIAL, before) == Some(s) && PutsAway(s, step)
    requires Perform(autoReconnect, Next(autoReconnect, s, step), more) == Some(end)
    requires 0 <= id < s.traffic.accepted && id !in s.traffic.written
    ensures Next(autoReconnect, s, step).traffic.queue == []
    ensures id !in end.traffic.written
  {
    var s' := Next(autoReconnect, s, step);
    InitialIsFine(id);
    EveryPayloadIsInOnePlace(autoReconnect, INITIAL, before, s, id);
    StepKeepsAccounts(s, step, id);
    NotCounted(s.traffic.written, id);
    NotCounted(s'.traffic.dropped, id);
    NotCounted(s'.traffic.discarded, id);
    GoneIsNeverWritten(autoReconnect, s', more, end, id);
  }

  /** No other step discards anything; an open drops the expired ones, and the rest goes out or stays queued. */
  lemma OthersKeepPayloads(autoReconnect: bool, s: State, step: Step, id: Id)
    requires AccountedFor(s.traffic, id) && Enabled(s, step) && !PutsAway(s, step)
    ensures var t, t' := s.traffic, Next(autoReconnect, s, step).traffic;
            && t'.discarded == t.discarded
            && (step.SocketOpens? || t'.dropped == t.dropped)
            && (id in Ids(t.queue) ==>
                  id in t'.written || id in Ids(t'.queue) || (step.SocketOpens? && id in t'.dropped))
            && ((step.Send? || step.Ask?) ==> t.accepted in t'.written || t.accepted in Ids(t'.queue))
  {
    var t, t' := s.traffic, Next(autoReconnect, s, step).traffic;
    StepKeepsAccounts(s, step, id);
    NotCounted(Ids(t.queue), id);
    NotCounted(t.discarded, id);
    NotCounted(t'.written, id);
    NotCounted(t'.dropped, id);
    NotCounted(t'.discarded, id);
    NotCounted(Ids(t'.queue), id);
    if step.Send? || step.Ask? {
      IdsConcat(t.queue, [Entry(t.accepted, s.now)]);
      IdsOne(Entry(t.accepted, s.now));
    }
    if id in Ids(t.queue) && !step.SocketOpens? {
      DroppedOnce(t, id);
    }
  }

  lemma DroppedOnce(t: Traffic, id: Id)
    requires AccountedFor(t, id) && id in Ids(t.queue)
    ensures 0 <= id < t.accepted && id !in t.dropped && id !in t.discarded && id !in t.written
  {
    NotCounted(Ids(t.queue), id);
    NotCounted(t.dropped, id);
    NotCounted(t.discarded, id);
    NotCounted(t.written, id);
  }

  // ---- The queue is ordered by age ----

  predicate Aged(q: seq<Entry>, now: int) {
    && (forall i, j :: 0 <= i < j < |q| ==> q[i].enqueuedAt <= q[j].enqueuedAt)
    && (forall i :: 0 <= i < |q| ==> q[i].enqueuedAt <= now)
  }

  lemma AgedGrows(q: seq<Entry>, id: Id, now: int)
    requires Aged(q, now)
    ensures Aged(q + [Entry(id, now)], now)
  {
  }

  lemma AgedShrinks(q: seq<Entry>, now: int, writes: nat)
    requires Aged(q, now)
    ensures Aged(Kept(Left(q, now), writes), now)
  {
  }

  lemma StepKeepsAged(autoReconnect: bool, s: State, step: Step)
    requires Aged(s.traffic.queue, s.now) && Enabled(s, step)
    ensures Aged(Next(autoReconnect, s, step).traffic.queue, Next(autoReconnect, s, step).now)
  {
    var q := s.traffic.queue;
    match step
    case Send(_) => AgedGrows(q, s.traffic.accepted, s.now);
    case Ask(_, _) => AgedGrows(q, s.traffic.accepted, s.now);
    case SocketOpens(writes) => AgedShrinks(q, s.now, if s.link.hasWs then writes else 0);
    case _ =>
  }

  /** With a clock that never goes back, the oldest payload is at the head. */
  lemma {:induction false} QueueStaysAged(autoReconnect: bool, s: State, steps: seq<Step>, end: State)
    requires Aged(s.traffic.queue, s.now) && Perform(autoReconnect, s, steps) == Some(end)
    ensures Aged(end.traffic.queue, end.now)
    decreases |steps|
  {
    if steps != [] {
      StepKeepsAged(autoReconnect, s, steps[0]);
      QueueStaysAged(autoReconnect, Next(autoReconnect, s, steps[0]), steps[1..], end);
    }
  }

  lemma {:induction false} StaleHeadIsExpired(q: seq<Entry>, now: int, i: nat)
    requires i < |q| && forall i, j :: 0 <= i < j < |q| ==> q[i].enqueuedAt <= q[j].enqueuedAt
    ensures i < StaleHead(q, now) <==> Expired(q[i], now)
  {
    if i > 0 {
      if Expired(q[0], now) {
        StaleHeadIsExpired(q[1..], now, i - 1);
      } else {
        assert q[0].enqueuedAt <= q[i].enqueuedAt;
      }
    }
  }

  /**
   * Dropping from the head alone removes exactly the entries older than a minute: what an open
   * drops is expired, and what it writes or keeps is not.
   */
  lemma OpenDropsExactlyExpired(s: State, writes: nat, i: nat)
    requires Aged(s.traffic.queue, s.now) && i < |s.traffic.queue|
    ensures var t, t' := s.traffic, NextTraffic(s, SocketOpens(writes));
            var n := |t'.dropped| - |t.dropped|;
            && 0 <= n <= |t.queue| && t'.dropped == t.dropped + Ids(t.queue[..n])
            && (i < n <==> Expired(t.queue[i], s.now))
  {
    StaleHeadIsExpired(s.traffic.queue, s.now, i);
    IdsLength(Stale(s.traffic.queue, s.now));
  }

  /** Time counts: an open after a while flushes by the clock of then. */
  lemma TickThenOpen(autoReconnect: bool, s: State, ms: nat, writes: nat)
    ensures Next(autoReconnect, Next(autoReconnect, s, Tick(ms)), SocketOpens(writes)).traffic
         == Flush(s.traffic, s.now + ms, if s.link.hasWs then writes else 0)
  {
  }

  /** And that drops a payload exactly when more than a minute has passed since it was queued. */
  lemma FlushDropsExpired(t: Traffic, now: int, writes: nat, i: nat)
    requires Aged(t.queue, now) && i < |t.queue| && AccountedFor(t, t.queue[i].id)
    ensures t.queue[i].id in Flush(t, now, writes).dropped <==> now - t.queue[i].enqueuedAt > QUEUE_ENTRY_MAX_AGE_MS
  {
    StaleHeadIsExpired(t.queue, now, i);
    AmongTheFirst(t, StaleHead(t.queue, now), i);
  }

  lemma AmongTheFirst(t: Traffic, n: nat, i: nat)
    requires i < |t.queue| && n <= |t.queue| && AccountedFor(t, t.queue[i].id)
    ensures t.queue[i].id in t.dropped + Ids(t.queue[..n]) <==> i < n
  {
    IdsAt(t.queue, i);
    assert Ids(t.queue)[i] in Ids(t.queue);
    DroppedOnce(t, t.queue[i].id);
    if i < n {
      IdsAt(t.queue[..n], i);
      assert Ids(t.queue[..n])[i] == t.queue[i].id;
    } else {
      OnlyOnce(t, n, i);
    }
  }

  /** A payload number occurs once in the queue. */
  lemma OnlyOnce(t: Traffic, n: nat, i: nat)
    requires n <= i < |t.queue| && AccountedFor(t, t.queue[i].id)
    ensures t.queue[i].id !in Ids(t.queue[..n])
  {
    var id := t.queue[i].id;
    assert t.queue == t.queue[..n] + t.queue[n..];
    IdsConcat(t.queue[..n], t.queue[n..]);
    CountConcat(Ids(t.queue[..n]), Ids(t.queue[n..]), id);
    IdsAt(t.queue[n..], i - n);
    assert Ids(t.queue[n..])[i - n] == id;
    NotCounted(Ids(t.queue[n..]), id);
    NotCounted(Ids(t.queue[..n]), id);
  }

  // ---- Wire order ----

  predicate NothingThrows(s: State, step: Step) {
    match step
    case Send(throws) => !throws
    case Ask(_, throws) => !throws
    case SocketOpens(writes) => writes >= |s.traffic.queue|
    case _ => true
  }

  function PerformQuietly(autoReconnect: bool, s: State, steps: seq<Step>): Option<State>
    decreases |steps|
  {
    if steps == [] then Some(s)
    else if Enabled(s, steps[0]) && NothingThrows(s, steps[0]) then
      PerformQuietly(autoReconnect, Next(autoReconnect, s, steps[0]), steps[1..])
    else None
  }

  function Line(t: Traffic): seq<Id> {
    t.written + Ids(t.queue)
  }

  predicate Below(q: seq<Id>, n: int) {
    forall i :: 0 <= i < |q| ==> q[i] < n
  }

  /** Written payloads come before queued ones, each in order. */
  predicate Lined(t: Traffic) {
    Increasing(Line(t)) && Below(Line(t), t.accepted)
  }

  /** An open socket has nothing queued. */
  predicate InOrder(s: State) {
    Lined(s.traffic) && (IsOpen(s.link) ==> s.traffic.queue == [])
  }

  lemma SendKeepsLine(t: Traffic, goesOut: bool, now: int)
    requires Lined(t) && (goesOut ==> t.queue == [])
    ensures Lined(SendOrQueue(t, goesOut, now))
  {
    IdsConcat(t.queue, [Entry(t.accepted, now)]);
    IdsOne(Entry(t.accepted, now));
    assert Line(SendOrQueue(t, goesOut, now)) == Line(t) + [t.accepted];
  }

  lemma CutIncreasing(a: seq<Id>, b: seq<Id>, c: seq<Id>, bound: int)
    requires Increasing(a + (b + c)) && Below(a + (b + c), bound)
    ensures Increasing(a + c) && Below(a + c, bound)
  {
    forall i | 0 <= i < |a + c| ensures (a + c)[i] == (a + (b + c))[if i < |a| then i else i + |b|] {
    }
  }

  lemma FlushKeepsLine(t: Traffic, now: int, writes: nat)
    requires Lined(t)
    ensures Lined(Flush(t, now, writes))
    ensures writes >= |t.queue| ==> Flush(t, now, writes).queue == []
  {
    FlushParts(t.queue, now, writes);
    var stale, left := Ids(Stale(t.queue, now)), Left(t.queue, now);
    var sent, kept := Ids(Sent(left, writes)), Ids(Kept(left, writes));
    CutIncreasing(t.written, stale, sent + kept, t.accepted);
    assert Line(Flush(t, now, writes)) == t.written + (sent + kept);
  }

  lemma DiscardKeepsLine(t: Traffic)
    requires Lined(t)
    ensures Lined(Discard(t))
  {
    assert Ids(t.queue) + [] == Ids(t.queue);
    CutIncreasing(t.written, Ids(t.queue), [], t.accepted);
  }

  lemma StepKeepsOrder(autoReconnect: bool, s: State, step: Step)
    requires InOrder(s) && Enabled(s, step) && NothingThrows(s, step)
    ensures InOrder(Next(autoReconnect, s, step))
  {
    match step
    case Send(_) => SendKeepsLine(s.traffic, IsOpen(s.link), s.now);
    case Ask(_, _) => SendKeepsLine(s.traffic, IsOpen(s.link), s.now);
    case SocketOpens(writes) => FlushKeepsLine(s.traffic, s.now, if s.link.hasWs then writes else 0);
    case SocketCloses => DiscardKeepsLine(s.traffic);
    case Close => DiscardKeepsLine(s.traffic);
    case _ =>
  }

  /** When no write throws, payloads go out in the order they were accepted. */
  lemma {:induction false} WireOrderIsAcceptanceOrder(autoReconnect: bool, s: State, steps: seq<Step>, end: State)
    requires InOrder(s) && PerformQuietly(autoReconnect, s, steps) == Some(end)
    ensures InOrder(end) && Increasing(end.traffic.written)
    decreases |steps|
  {
    if steps == [] {
      var t := s.traffic;
      assert forall i :: 0 <= i < |t.written| ==> t.written[i] == Line(t)[i];
    } else {
      StepKeepsOrder(autoReconnect, s, steps[0]);
      WireOrderIsAcceptanceOrder(autoReconnect, Next(autoReconnect, s, steps[0]), steps[1..], end);
    }
  }

  // ---- Which sockets are opened ----

  /** Given up: no socket, no reconnect timer, and no token refresh that could open one. */
  predicate ShutDown(l: Link) {
    l.closedByUser && !l.reconnectTimer && l.refreshing == 0 && !l.hasWs
  }

  lemma {:induction false} ShutUntilConnect(autoReconnect: bool, s: State, steps: seq<Step>, end: State)
    requires ShutDown(s.link) && Unconnected(autoReconnect, s, steps, end)
    ensures ShutDown(end.link) && end.traffic.written == s.traffic.written
    decreases |steps|
  {
    if steps != [] {
      assert steps[0] in steps;
      assert forall x :: x in steps[1..] ==> x in steps;
      ShutUntilConnect(autoReconnect, Next(autoReconnect, s, steps[0]), steps[1..], end);
    }
  }

  /** A run in which nobody calls connect. */
  predicate Unconnected(autoReconnect: bool, s: State, steps: seq<Step>, end: State) {
    Connect !in steps && Perform(autoReconnect, s, steps) == Some(end)
  }

  /**
   * After a close by the user, or a failed initial connect, can a socket be opened without
   * another connect? Exactly when a token refresh was under way, or, after a failed connect, a
   * reconnect timer was still armed. Otherwise no run has a socket again or writes anything.
   */
  lemma ClosedForGoodExactlyWhen(autoReconnect: bool, s: State, step: Step)
    requires PutsAway(s, step)
    ensures var closed := Next(autoReconnect, s, step);
            (forall steps, end :: Unconnected(autoReconnect, closed, steps, end) ==>
               !end.link.hasWs && end.traffic.written == s.traffic.written)
            <==> s.link.refreshing == 0 && (step.Close? || !s.link.reconnectTimer)
  {
    var closed := Next(autoReconnect, s, step);
    if s.link.refreshing > 0 {
      PerformFirst(autoReconnect, closed, TokenRefreshed, []);
      assert Unconnected(autoReconnect, closed, [TokenRefreshed], Next(autoReconnect, closed, TokenRefreshed));
    } else if step.SocketCloses? && s.link.reconnectTimer {
      var fired := Next(autoReconnect, closed, ReconnectTimerFires);
      PerformFirst(autoReconnect, closed, ReconnectTimerFires, [TokenRefreshed]);
      PerformFirst(autoReconnect, fired, TokenRefreshed, []);
      assert Unconnected(autoReconnect, closed, [ReconnectTimerFires] + [TokenRefreshed],
                         Next(autoReconnect, fired, TokenRefreshed));
    } else {
      forall steps, end | Unconnected(autoReconnect, closed, steps, end)
        ensures !end.link.hasWs && end.traffic.written == s.traffic.written
      {
        ShutUntilConnect(autoReconnect, closed, steps, end);
      }
    }
  }

  lemma PerformFirst(autoReconnect: bool, s: State, step: Step, more: seq<Step>)
    requires Enabled(s, step)
    ensures Perform(autoReconnect, s, [step] + more) == Perform(autoReconnect, Next(autoReconnect, s, step), more)
  {
    assert ([step] + more)[1..] == more;
  }

  /**
   * A loss arms the reconnect timer exactly when the client reconnects by itself and the loss is
   * none the user caused nor one of the initial connect; from there the timer, the token
   * refresh and the open bring the connection back, and what was queued within the last minute
   * goes out.
   */
  lemma LostConnectionComesBack(autoReconnect: bool, s: State, writes: nat, i: nat)
    requires Aged(s.traffic.queue, s.now)
    ensures var lost := Next(autoReconnect, s, SocketCloses);
            && !IsOpen(lost.link)
            && (Enabled(lost, ReconnectTimerFires) <==>
                  s.link.reconnectTimer
                  || (autoReconnect && !s.link.closedByUser && (s.link.status == Opened || !s.link.connecting)))
    ensures Enabled(Next(autoReconnect, s, SocketCloses), ReconnectTimerFires) && !s.link.reconnectTimer ==>
      var back := Perform(autoReconnect, s, [SocketCloses, ReconnectTimerFires, TokenRefreshed, SocketOpens(writes)]);
      && back.Some? && IsOpen(back.value.link) && !back.value.link.closedByUser && !back.value.link.reconnectTimer
      && back.value.link.refreshing == s.link.refreshing
      && (writes >= |s.traffic.queue| && i < |s.traffic.queue|
          && s.now - s.traffic.queue[i].enqueuedAt <= QUEUE_ENTRY_MAX_AGE_MS ==>
            s.traffic.queue[i].id in back.value.traffic.written)
  {
    var s1 := Next(autoReconnect, s, SocketCloses);
    if s1.link.reconnectTimer && !s.link.reconnectTimer {
      var s2 := Next(autoReconnect, s1, ReconnectTimerFires);
      var s3 := Next(autoReconnect, s2, TokenRefreshed);
      PerformFirst(autoReconnect, s3, SocketOpens(writes), []);
      PerformFirst(autoReconnect, s2, TokenRefreshed, [SocketOpens(writes)]);
      PerformFirst(autoReconnect, s1, ReconnectTimerFires, [TokenRefreshed, SocketOpens(writes)]);
      PerformFirst(autoReconnect, s, SocketCloses, [ReconnectTimerFires, TokenRefreshed, SocketOpens(writes)]);
      assert s3.traffic.queue == s.traffic.queue && s3.now == s.now;
      if writes >= |s.traffic.queue| && i < |s.traffic.queue|
         && s.now - s.traffic.queue[i].enqueuedAt <= QUEUE_ENTRY_MAX_AGE_MS {
        OpenWrites(autoReconnect, s3, writes, i);
      }
    }
  }

  /**
   * An active reconnect of a client that was not closed replaces the socket and the timer, and
   * once it opens what was queued within the last minute goes out; after a close it does nothing.
   */
  lemma ReconnectComesBack(autoReconnect: bool, s: State, writes: nat, i: nat)
    requires Aged(s.traffic.queue, s.now)
    ensures s.link.closedByUser ==> Next(autoReconnect, s, Reconnect) == s
    ensures !s.link.closedByUser ==>
      var back := Perform(autoReconnect, s, [Reconnect, SocketOpens(writes)]);
      && !Enabled(Next(autoReconnect, s, Reconnect), ReconnectTimerFires)
      && back.Some? && IsOpen(back.value.link) && !back.value.link.closedByUser && !back.value.link.connecting
      && (writes >= |s.traffic.queue| && i < |s.traffic.queue|
          && s.now - s.traffic.queue[i].enqueuedAt <= QUEUE_ENTRY_MAX_AGE_MS ==>
            s.traffic.queue[i].id in back.value.traffic.written)
  {
    var s1 := Next(autoReconnect, s, Reconnect);
    PerformFirst(autoReconnect, s, Reconnect, [SocketOpens(writes)]);
    PerformFirst(autoReconnect, s1, SocketOpens(writes), []);
    if !s.link.closedByUser && writes >= |s.traffic.queue| && i < |s.traffic.queue|
       && s.now - s.traffic.queue[i].enqueuedAt <= QUEUE_ENTRY_MAX_AGE_MS {
      OpenWrites(autoReconnect, s1, writes, i);
    }
  }

  /**
   * After a close by the user or a failed connect, a connect works again, and what goes out is
   * what is sent from then on: nothing the close put away.
   */
  lemma FreshStartAfterClose(autoReconnect: bool, s: State, step: Step, writes: nat)
    requires PutsAway(s, step)
    ensures var after := Perform(autoReconnect, Next(autoReconnect, s, step),
                                 [Connect, SocketOpens(writes), Send(false)]);
            && after.Some? && IsOpen(after.value.link) && !after.value.link.closedByUser
            && after.value.traffic.written == s.traffic.written + [s.traffic.accepted]
  {
    var s1 := Next(autoReconnect, s, step);
    ConnectThenSendIsWritten(autoReconnect, s1, writes);
    assert Left(s1.traffic.queue, s1.now) == [];
  }

  /** An open writes every payload queued for at most a minute, if no write throws. */
  lemma OpenWrites(autoReconnect: bool, s: State, writes: nat, i: nat)
    requires s.link.hasWs && Aged(s.traffic.queue, s.now) && i < |s.traffic.queue| && writes >= |s.traffic.queue|
    requires s.now - s.traffic.queue[i].enqueuedAt <= QUEUE_ENTRY_MAX_AGE_MS
    ensures s.traffic.queue[i].id in Next(autoReconnect, s, SocketOpens(writes)).traffic.written
  {
    var q := s.traffic.queue;
    StaleHeadIsExpired(q, s.now, i);
    var left := Left(q, s.now);
    assert left[i - StaleHead(q, s.now)] == q[i] && Sent(left, writes) == left;
    IdsAt(left, i - StaleHead(q, s.now));
  }

  lemma {:induction false} IdsAt(q: seq<Entry>, i: nat)
    requires i < |q|
    ensures |Ids(q)| == |q| && Ids(q)[i] == q[i].id
  {
    IdsLength(q);
    if i > 0 {
      IdsAt(q[1..], i - 1);
    }
  }

  /**
   * A client that is not connected: connect and the open of its socket leave it connected and
   * not closed, with nothing queued, and a send then goes straight to the wire.
   */
  lemma ConnectThenSendIsWritten(autoReconnect: bool, s: State, writes: nat)
    requires s.link.status != Opened && !s.link.connecting && writes >= |s.traffic.queue|
    ensures var after := Perform(autoReconnect, s, [Connect, SocketOpens(writes), Send(false)]);
            && after.Some? && IsOpen(after.value.link) && !after.value.link.closedByUser
            && !after.value.link.connecting && after.value.traffic.queue == []
            && after.value.traffic.written
               == s.traffic.written + Ids(Left(s.traffic.queue, s.now)) + [s.traffic.accepted]
  {
    var s1 := Next(autoReconnect, s, Connect);
    var s2 := Next(autoReconnect, s1, SocketOpens(writes));
    PerformFirst(autoReconnect, s2, Send(false), []);
    PerformFirst(autoReconnect, s1, SocketOpens(writes), [Send(false)]);
    PerformFirst(autoReconnect, s, Connect, [SocketOpens(writes), Send(false)]);
  }

  /** While the initial connect is unanswered or the client is open, another connect changes nothing. */
  lemma ConnectAgainChangesNothing(autoReconnect: bool, s: State)
    ensures var once := Next(autoReconnect, s, Connect);
            && Next(autoReconnect, once, Connect) == once
            && (s.link.connecting || s.link.status == Opened ==> once == s)
  {
  }

  /** The initial connect is never pending on a client that is open, or closed by its user. */
  predicate LinkOk(l: Link) {
    l.connecting ==> l.status != Opened && !l.closedByUser
  }

  lemma {:induction false} EveryLinkIsOk(autoReconnect: bool, s: State, steps: seq<Step>, end: State)
    requires LinkOk(s.link) && Perform(autoReconnect, s, steps) == Some(end)
    ensures LinkOk(end.link)
    decreases |steps|
  {
    if steps != [] {
      EveryLinkIsOk(autoReconnect, Next(autoReconnect, s, steps[0]), steps[1..], end);
    }
  }

  lemma NoCallsIsValid()
    ensures Valid(Calls(map[], map[], {}), 0)
  {
    var none := Calls(map[], map[], {});
    assert forall x :: Filed(none, 0, x);
    assert forall key :: QueueOk(none, key);
  }

  lemma InitialIsFine(id: Id)
    ensures Valid(INITIAL.calls, 0) && AccountedFor(INITIAL.traffic, id)
    ensures Aged(INITIAL.traffic.queue, INITIAL.now) && InOrder(INITIAL)
  {
    NoCallsIsValid();
  }

  /** All of it for a new client: whatever happens to it, these hold at any time. */
  lemma EveryClientIsFine(autoReconnect: bool, steps: seq<Step>, end: State, id: Id)
    requires Perform(autoReconnect, INITIAL, steps) == Some(end)
    ensures Valid(end.calls, end.traffic.accepted)
    ensures AccountedFor(end.traffic, id)
    ensures Aged(end.traffic.queue, end.now)
  {
    InitialIsFine(id);
    EveryRunIsValid(autoReconnect, INITIAL, steps, end);
    EveryPayloadIsInOnePlace(autoReconnect, INITIAL, steps, end, id);
    QueueStaysAged(autoReconnect, INITIAL, steps, end);
  }

  /** And if none of its writes throws, it has written its payloads in the order it accepted them. */
  lemma EveryQuietClientKeepsOrder(autoReconnect: bool, steps: seq<Step>, end: State)
    requires PerformQuietly(autoReconnect, INITIAL, steps) == Some(end)
    ensures Increasing(end.traffic.written)
  {
    InitialIsFine(0);
    WireOrderIsAcceptanceOrder(autoReconnect, INITIAL, steps, end);
  }
}
