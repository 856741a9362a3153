/**
 * The methods of Hub3WsClient (packages/core/src/transport.js:128-621) on its own fields,
 * each proved to take the step that Transport describes.
 */
module WsClient {
  import opened Transport

  class Hub3WsClient {
    const autoReconnect: bool
    var now: int                        // Date.now()

    var status: Status
    var hasWs: bool
    var closedByUser: bool
    var connecting: bool
    var reconnectTimer: bool
    var refreshing: nat

    var pending: map<Key, seq<Id>>
    var requests: map<Id, Request>      // the promises handed out
    var timers: set<Id>

    var messageQueue: seq<Entry>
    var accepted: nat
    var written: seq<Id>                // what went to the socket, in order
    var dropped: seq<Id>
    var discarded: seq<Id>

    function LinkView(): Link
      reads this
    {
      Link(status, hasWs, closedByUser, connecting, reconnectTimer, refreshing)
    }

    function CallsView(): Calls
      reads this
    {
      Calls(pending, requests, timers)
    }

    function TrafficView(): Traffic
      reads this
    {
      Traffic(messageQueue, accepted, written, dropped, discarded)
    }

    function View(): State
      reads this
    {
      State(now, LinkView(), CallsView(), TrafficView())
    }

    ghost predicate Valid()
      reads this
    {
      Transport.Valid(CallsView(), accepted)
    }

    constructor (autoReconnect: bool)
      ensures this.autoReconnect == autoReconnect && now == INITIAL.now && LinkView() == INITIAL.link
      ensures CallsView() == INITIAL.calls && TrafficView() == INITIAL.traffic && Valid()
    {
      this.autoReconnect := autoReconnect;
      now, status, hasWs, closedByUser, connecting := 0, Disconnected, false, false, false;
      reconnectTimer, refreshing := false, 0;
      pending, requests, timers := map[], map[], {};
      messageQueue, accepted, written, dropped, discarded := [], 0, [], [], [];
      new;
      NoCallsIsValid();
    }

    // ---- Requests ----

    /** A resolver: clears its timer and settles its promise. It is only ever called on a waiting one. */
    method Resolve(id: Id, how: Settlement)
      requires id in requests && requests[id].promise.Waiting?
      modifies `timers, `requests
      ensures timers == old(timers) - {id} && requests == old(requests)[id := Settle(old(requests[id]), how)]
    {
      timers := timers - {id};
      requests := requests[id := requests[id].(promise := Settled(how))];
    }

    method RegisterPending(key: Key, id: Id)
      modifies `pending
      ensures pending == old(pending)[key := Queue(old(CallsView()), key) + [id]]
    {
      var queue := [];
      if key in pending {
        queue := pending[key];
      }
      pending := pending[key := queue + [id]];
    }

    /** The new promise of a request: its timer is armed and its resolver registered. */
    method NewPromise(key: Key, id: Id)
      modifies `pending, `requests, `timers
      ensures CallsView() == Register(old(CallsView()), key, id)
    {
      requests := requests[id := Request(key, Waiting)];
      timers := timers + {id};
      RegisterPending(key, id);
    }

    method UnregisterPending(key: Key, id: Id)
      modifies `pending
      ensures pending == SetQueue(old(pending), key, Transport.Without(Queue(old(CallsView()), key), id))
    {
      if key !in pending {
        return;
      }
      var queue := pending[key];
      var i := 0;
      while i < |queue| && queue[i] != id
        invariant i <= |queue| && id !in queue[..i]
      {
        i := i + 1;
      }
      WithoutAt(queue, id, i);
      if i < |queue| {
        queue := queue[..i] + queue[i + 1..];
      }
      pending := if queue == [] then pending - {key} else pending[key := queue];
    }

    method RejectAllPending()
      requires Valid()
      modifies `pending, `requests, `timers
      ensures CallsView() == RejectAll(old(CallsView())) && Valid()
    {
      ghost var before := CallsView();
      var keys := pending.Keys;
      while keys != {}
        invariant keys <= pending.Keys && pending == before.pending
        invariant forall id :: id in requests <==> id in before.requests
        invariant forall id :: id in requests ==>
          requests[id] == if IsPending(before, id) && before.requests[id].key !in keys
                          then Settle(before.requests[id], ConnectionClosed) else before.requests[id]
        invariant forall id :: id in timers <==>
          id in before.timers && !(IsPending(before, id) && before.requests[id].key !in keys)
        decreases |keys|
      {
        var key :| key in keys;
        assert QueueOk(before, key);
        forall id | id in pending[key] ensures id in requests && requests[id].promise.Waiting? {
          assert Filed(before, accepted, id);
        }
        RejectQueue(pending[key]);
        keys := keys - {key};
      }
      pending := map[];
      assert forall id :: id in requests ==> requests[id] == RejectAll(before).requests[id];
      assert requests.Keys == RejectAll(before).requests.Keys;
      assert forall id :: id in timers <==> id in RejectAll(before).timers;
      RejectAllIsValid(before, accepted);
    }

    method RejectQueue(queue: seq<Id>)
      requires Increasing(queue)
      requires forall id :: id in queue ==> id in requests && requests[id].promise.Waiting?
      modifies `requests, `timers
      ensures forall id :: id in requests <==> id in old(requests)
      ensures forall id :: id in requests ==>
        requests[id] == if id in queue then Settle(old(requests[id]), ConnectionClosed) else old(requests[id])
      ensures forall id :: id in timers <==> id in old(timers) && id !in queue
    {
      for i := 0 to |queue|
        invariant forall id :: id in requests <==> id in old(requests)
        invariant forall id :: id in requests ==>
          requests[id] == if id in queue[..i] then Settle(old(requests[id]), ConnectionClosed) else old(requests[id])
        invariant forall id :: id in timers <==> id in old(timers) && id !in queue[..i]
      {
        assert queue[..i + 1] == queue[..i] + [queue[i]];
        Resolve(queue[i], ConnectionClosed);
      }
      assert queue[..|queue|] == queue;
    }

    // ---- Payloads ----

    method SendOrQueuePayload(throws: bool)
      modifies `accepted, `written, `messageQueue
      ensures TrafficView() == SendOrQueue(old(TrafficView()), IsOpen(LinkView()) && !throws, now)
    {
      var id := accepted;
      accepted := accepted + 1;
      if hasWs && status == Opened {
        if throws {
          messageQueue := messageQueue + [Entry(id, now)];
        } else {
          written := written + [id];
        }
      } else {
        messageQueue := messageQueue + [Entry(id, now)];
      }
    }

    method DropStale()
      modifies `dropped, `messageQueue
      ensures dropped == old(dropped) + Ids(Stale(old(messageQueue), now))
      ensures messageQueue == Left(old(messageQueue), now)
    {
      ghost var n := 0;
      ghost var all := messageQueue;
      while |messageQueue| > 0 && Expired(messageQueue[0], now)
        invariant n <= |all| && messageQueue == all[n..]
        invariant StaleHead(all, now) == n + StaleHead(messageQueue, now)
        invariant dropped == old(dropped) + Ids(all[..n])
      {
        IdsConcat(all[..n], [all[n]]);
        IdsOne(all[n]);
        assert all[..n + 1] == all[..n] + [all[n]];
        dropped := dropped + [messageQueue[0].id];
        messageQueue := messageQueue[1..];
        n := n + 1;
      }
    }

    /** writes: how many writes to the socket succeed before one throws. */
    method WriteQueued(writes: nat)
      modifies `written, `messageQueue
      ensures var n := if IsOpen(LinkView()) then writes else 0;
              && written == old(written) + Ids(Sent(old(messageQueue), n))
              && messageQueue == Kept(old(messageQueue), n)
    {
      ghost var left := messageQueue;
      ghost var n := 0;
      var allowed := writes;
      while |messageQueue| > 0 && hasWs && status == Opened
        invariant n <= |left| && messageQueue == left[n..] && n + allowed == writes
        invariant n > 0 ==> IsOpen(LinkView())
        invariant written == old(written) + Ids(left[..n])
      {
        var entry := messageQueue[0];
        messageQueue := messageQueue[1..];
        if allowed == 0 {
          messageQueue := [entry] + messageQueue;
          break;
        }
        IdsConcat(left[..n], [left[n]]);
        IdsOne(left[n]);
        assert left[..n + 1] == left[..n] + [left[n]];
        written := written + [entry.id];
        allowed := allowed - 1;
        n := n + 1;
      }
      assert left[..|left|] == left;
    }

    method FlushMessageQueue(writes: nat)
      modifies `dropped, `written, `messageQueue
      ensures TrafficView() == Flush(old(TrafficView()), now, if IsOpen(LinkView()) then writes else 0)
    {
      DropStale();
      WriteQueued(writes);
    }

    method DiscardQueue()
      modifies `discarded, `messageQueue
      ensures TrafficView() == Discard(old(TrafficView()))
    {
      discarded := discarded + Ids(messageQueue);
      messageQueue := [];
    }

    // ---- The steps ----

    method Connect()
      modifies `status, `hasWs, `closedByUser, `connecting
      ensures View() == Next(autoReconnect, old(View()), Step.Connect)
    {
      if status == Opened || connecting {
        return;
      }
      closedByUser := false;
      connecting := true;
      status, hasWs := Connecting, true;
    }

    method Send(throws: bool)
      requires Valid()
      modifies this
      ensures View() == Next(autoReconnect, old(View()), Step.Send(throws)) && Valid()
    {
      StepKeepsValid(autoReconnect, View(), Step.Send(throws));
      SendOrQueuePayload(throws);
    }

    /** request: register a resolver, arm its timer, send or queue the payload. */
    method Ask(key: Key, throws: bool) returns (id: Id)
      requires Valid()
      modifies this
      ensures id == old(accepted) && id in requests && requests[id] == Request(key, Waiting)
      ensures View() == Next(autoReconnect, old(View()), Step.Ask(key, throws)) && Valid()
    {
      StepKeepsValid(autoReconnect, View(), Step.Ask(key, throws));
      id := accepted;
      NewPromise(key, id);
      SendOrQueuePayload(throws);
    }

    method OnMessage(key: Key, body: Body)
      requires Valid()
      modifies `pending, `requests, `timers
      ensures View() == Next(autoReconnect, old(View()), Receive(key, body)) && Valid()
    {
      StepKeepsValid(autoReconnect, View(), Receive(key, body));
      if key in pending && |pending[key]| > 0 {
        var resolver := pending[key][0];
        assert QueueOk(CallsView(), key) && Filed(CallsView(), accepted, resolver);
        var queue := pending[key][1..];
        pending := if queue == [] then pending - {key} else pending[key := queue];
        Resolve(resolver, Reply(body));
      }
    }

    method OnTimeout(id: Id)
      requires Valid() && id in timers && id in requests
      modifies `pending, `requests, `timers
      ensures View() == Next(autoReconnect, old(View()), TimerFires(id)) && Valid()
    {
      StepKeepsValid(autoReconnect, View(), TimerFires(id));
      assert Filed(CallsView(), accepted, id);
      timers := timers - {id};
      UnregisterPending(requests[id].key, id);
      requests := requests[id := Settle(requests[id], TimedOut)];
    }

    method OnOpen(writes: nat)
      modifies `status, `connecting, `dropped, `written, `messageQueue
      ensures LinkView() == NextLink(autoReconnect, old(LinkView()), SocketOpens(writes))
      ensures TrafficView() == Flush(old(TrafficView()), now, if hasWs then writes else 0)
    {
      status := Opened;
      assert TrafficView() == old(TrafficView()) && IsOpen(LinkView()) == hasWs;
      FlushMessageQueue(writes);
      connecting := false;
      assert LinkView() == old(LinkView()).(status := Opened, connecting := false);
    }

    method OnClose()
      requires Valid()
      modifies `status, `hasWs, `connecting, `closedByUser, `reconnectTimer, `pending, `requests, `timers,
               `discarded, `messageQueue
      ensures LinkView() == NextLink(autoReconnect, old(LinkView()), SocketCloses)
      ensures CallsView() == NextCalls(old(View()), SocketCloses) && Valid()
      ensures TrafficView() == NextTraffic(old(View()), SocketCloses)
    {
      LossIsLoss(autoReconnect, LinkView());
      var wasOpen := status == Opened;
      status, hasWs := Disconnected, false;
      assert CallsView() == old(CallsView()) && TrafficView() == old(TrafficView());
      RejectAllPending();
      assert LinkView() == old(LinkView()).(status := Disconnected, hasWs := false);
      assert TrafficView() == old(TrafficView());
      GiveUpOrRetry(wasOpen);
      assert CallsView() == RejectAll(old(CallsView()));
    }

    /** The end of the close handler: a failed initial connect gives up, any other loss is retried. */
    method GiveUpOrRetry(wasOpen: bool)
      requires status == Disconnected && !hasWs
      modifies `connecting, `closedByUser, `reconnectTimer, `discarded, `messageQueue
      ensures LinkView() == NextLink(autoReconnect, LinkBefore(wasOpen, old(LinkView())), SocketCloses)
      ensures TrafficView() == if FailsInitialConnect(LinkBefore(wasOpen, old(LinkView())))
                               then Discard(old(TrafficView())) else old(TrafficView())
    {
      if closedByUser {
        return;
      }
      if !wasOpen && connecting {
        connecting := false;
        closedByUser := true;
        DiscardQueue();
        return;
      }
      if autoReconnect && !reconnectTimer {
        reconnectTimer := true;
      }
    }

    method Close()
      requires Valid()
      modifies `status, `hasWs, `connecting, `closedByUser, `reconnectTimer, `pending, `requests, `timers,
               `discarded, `messageQueue
      ensures LinkView() == NextLink(autoReconnect, old(LinkView()), Step.Close)
      ensures CallsView() == NextCalls(old(View()), Step.Close) && Valid()
      ensures TrafficView() == NextTraffic(old(View()), Step.Close)
    {
      DropSocket();
      RejectAllPending();
      DiscardQueue();
    }

    /** The part of close() that concerns the socket and its timers. */
    method DropSocket()
      modifies `status, `hasWs, `connecting, `closedByUser, `reconnectTimer
      ensures LinkView() == NextLink(autoReconnect, old(LinkView()), Step.Close)
    {
      closedByUser := true;
      reconnectTimer := false;
      hasWs := false;
      status := Disconnected;
      connecting := false;
    }

    method Reconnect()
      modifies `status, `hasWs, `reconnectTimer
      ensures View() == Next(autoReconnect, old(View()), Step.Reconnect)
    {
      if closedByUser {
        return;
      }
      reconnectTimer := false;
      hasWs := false;
      status := Disconnected;
      status, hasWs := Connecting, true;
    }
  }

  /** The link as it was when the socket closed. */
  function LinkBefore(wasOpen: bool, l: Link): Link {
    if wasOpen then l.(status := Opened) else l
  }

  lemma LossIsLoss(autoReconnect: bool, l: Link)
    ensures var before := LinkBefore(l.status == Opened, l.(status := Disconnected, hasWs := false));
            && NextLink(autoReconnect, before, SocketCloses) == NextLink(autoReconnect, l, SocketCloses)
            && FailsInitialConnect(before) == FailsInitialConnect(l)
  {
  }

  lemma {:induction false} WithoutAt(q: seq<Id>, id: Id, i: nat)
    requires i <= |q| && id !in q[..i] && (i < |q| ==> q[i] == id)
    ensures Transport.Without(q, id) == if i < |q| then q[..i] + q[i + 1..] else q
  {
    if i > 0 {
      assert q[..i][0] == q[0] && q[1..][..i - 1] == q[..i][1..];
      WithoutAt(q[1..], id, i - 1);
      if i < |q| {
        assert q[..i] + q[i + 1..] == [q[0]] + (q[1..i] + q[i + 1..]);
      }
    }
  }
}
