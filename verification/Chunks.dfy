/**
 * Collecting a paged push: subscribeChunks (packages/core/src/util.js:124-189) with the
 * handlers of collectChunks (org.js:790-847) and getUserDevices (devices.js:77-108).
 */
module Chunks {
  import opened Wrappers

  /** An element of a collected list. */
  type Item = int

  datatype Chunk = Chunk(list: seq<Item>, page: int, totalPage: Option<int>, totalCount: Option<int>)

  /** checksSuccess and needsTotal are true for collectChunks and false for getUserDevices. */
  datatype Config = Config(
    appendOnly: bool,
    checksSuccess: bool,
    needsTotal: bool,
    listOnly: bool,
    partialOnTimeout: bool,
    subscriptions: nat,
    errorAction: Option<string>,
    ownOp: Option<string>)

  datatype Event =
    | Push(success: bool, chunk: Option<Chunk>)                     // None: the handler throws
    | Frame(action: string, succeeded: bool, op: Option<string>)    // any received message
    | Timeout

  datatype Failure = Refused | Malformed | TimedOut

  datatype Outcome = Resolved(partial: Option<bool>, count: Option<int>, list: seq<Item>) | Rejected(why: Failure)

  datatype State = State(
    done: bool,
    timer: bool,
    live: nat,                      // subscriptions not yet cancelled
    acc: seq<Item>,
    total: Option<int>,
    outcome: Option<Outcome>)

  function Start(cfg: Config): State {
    State(false, true, cfg.subscriptions + (if cfg.errorAction.Some? then 1 else 0), [], None, None)
  }

  function Assembled(cfg: Config, acc: seq<Item>, total: Option<int>, partial: bool): Outcome {
    Resolved(if cfg.partialOnTimeout then Some(partial) else None,
             if cfg.listOnly then None else if total.Some? then total else Some(|acc|),
             acc)
  }

  function Finish(s: State, o: Outcome): State {
    if s.done then s else State(true, false, 0, s.acc, s.total, Some(o))
  }

  function Gathered(cfg: Config, acc: seq<Item>, c: Chunk): seq<Item> {
    if !cfg.appendOnly && c.page == 1 then c.list else acc + c.list
  }

  /** Whether a chunk completes the collection once its items are gathered. */
  predicate Completes(cfg: Config, acc: seq<Item>, c: Chunk) {
    if c.totalPage.Some? then c.page >= c.totalPage.value
    else if !cfg.needsTotal then true
    else c.totalCount.Some? && |acc| >= c.totalCount.value
  }

  /** An error frame of the own request: same action, and the own op or none. */
  predicate OwnFailure(cfg: Config, e: Event) {
    e.Frame? && cfg.errorAction == Some(e.action) && !e.succeeded
    && (cfg.ownOp.None? || e.op.None? || e.op == cfg.ownOp)
  }

  function Next(cfg: Config, s: State, e: Event): State {
    if s.done then s
    else
      match e
      case Push(success, chunk) =>
        if cfg.checksSuccess && !success then Finish(s, Rejected(Refused))
        else if chunk.None? then Finish(s, Rejected(Malformed))
        else
          var c := chunk.value;
          var s1 := s.(acc := Gathered(cfg, s.acc, c),
                       total := if cfg.needsTotal && c.totalCount.Some? then c.totalCount else s.total);
          if Completes(cfg, s1.acc, c) then Finish(s1, Assembled(cfg, s1.acc, s1.total, false)) else s1
      case Frame(_, _, _) => if OwnFailure(cfg, e) then Finish(s, Rejected(Refused)) else s
      case Timeout =>
        Finish(s, if cfg.partialOnTimeout then Assembled(cfg, s.acc, s.total, true) else Rejected(TimedOut))
  }

  function Run(cfg: Config, es: seq<Event>): State {
    if es == [] then Start(cfg) else Next(cfg, Run(cfg, es[..|es| - 1]), es[|es| - 1])
  }

  // ---- The closure of subscribeChunks ----

  class Collector {
    const cfg: Config
    var done: bool
    var timer: bool
    var live: nat
    var acc: seq<Item>
    var total: Option<int>
    var outcome: Option<Outcome>

    function View(): State
      reads this
    {
      State(done, timer, live, acc, total, outcome)
    }

    constructor (cfg: Config)
      ensures this.cfg == cfg && View() == Start(cfg)
    {
      this.cfg := cfg;
      done, timer, acc, total, outcome := false, true, [], None, None;
      live := cfg.subscriptions + (if cfg.errorAction.Some? then 1 else 0);
    }

    method Settle(o: Outcome)
      modifies this
      ensures View() == Finish(old(View()), o)
    {
      if done {
        return;
      }
      done := true;
      timer := false;
      live := 0;
      outcome := Some(o);
    }

    method OnPush(success: bool, chunk: Option<Chunk>)
      modifies this
      ensures View() == Next(cfg, old(View()), Push(success, chunk))
    {
      if done {
        return;
      }
      if cfg.checksSuccess && !success {
        Settle(Rejected(Refused));
        return;
      }
      if chunk.None? {
        Settle(Rejected(Malformed));
        return;
      }
      var c := chunk.value;
      acc := if !cfg.appendOnly && c.page == 1 then c.list else acc + c.list;
      if cfg.needsTotal && c.totalCount.Some? {
        total := c.totalCount;
      }
      if c.totalPage.Some? {
        if c.page >= c.totalPage.value {
          Settle(Assembled(cfg, acc, total, false));
        }
      } else if !cfg.needsTotal {
        Settle(Assembled(cfg, acc, total, false));
      } else if c.totalCount.Some? {
        if |acc| >= c.totalCount.value {
          Settle(Assembled(cfg, acc, total, false));
        }
      }
    }

    method OnFrame(action: string, succeeded: bool, op: Option<string>)
      modifies this
      ensures View() == Next(cfg, old(View()), Frame(action, succeeded, op))
    {
      if done || cfg.errorAction.None? {
        return;
      }
      if action != cfg.errorAction.value || succeeded {
        return;
      }
      if cfg.ownOp.Some? && op.Some? && op != cfg.ownOp {
        return;
      }
      Settle(Rejected(Refused));
    }

    method OnTimeout()
      modifies this
      ensures View() == Next(cfg, old(View()), Timeout)
    {
      if cfg.partialOnTimeout {
        Settle(Assembled(cfg, acc, total, true));
      } else {
        Settle(Rejected(TimedOut));
      }
    }
  }

  // ---- Settling once, and leaving nothing behind ----

  /** Before it settles it holds its timer and all its subscriptions; afterwards, none. */
  lemma {:induction false} NothingIsLeftBehind(cfg: Config, es: seq<Event>)
    ensures var s := Run(cfg, es);
            && (s.done <==> s.outcome.Some?)
            && (s.done ==> !s.timer && s.live == 0)
            && (!s.done ==> s.timer && s.live == cfg.subscriptions + (if cfg.errorAction.Some? then 1 else 0))
  {
    if es != [] {
      NothingIsLeftBehind(cfg, es[..|es| - 1]);
    }
  }

  lemma {:induction false} SettlesOnce(cfg: Config, es: seq<Event>, more: seq<Event>)
    requires Run(cfg, es).done
    ensures Run(cfg, es + more) == Run(cfg, es)
  {
    if more == [] {
      assert es + more == es;
    } else {
      SettlesOnce(cfg, es, more[..|more| - 1]);
      assert (es + more)[..|es + more| - 1] == es + more[..|more| - 1];
    }
  }

  // ---- What is collected ----

  /** The chunk an event brings, if it is a push that the handler accepts. */
  function Brought(cfg: Config, e: Event): seq<Chunk> {
    if e.Push? && (e.success || !cfg.checksSuccess) && e.chunk.Some? then [e.chunk.value] else []
  }

  /** The chunks that were received, in order. */
  function Received(cfg: Config, es: seq<Event>): seq<Chunk> {
    if es == [] then [] else Received(cfg, es[..|es| - 1]) + Brought(cfg, es[|es| - 1])
  }

  function Flatten(cs: seq<Chunk>): seq<Item> {
    if cs == [] then [] else cs[0].list + Flatten(cs[1..])
  }

  /** The position of the latest page 1, or 0. */
  function LatestFirst(cs: seq<Chunk>): (k: nat)
    ensures k <= |cs|
    ensures cs != [] ==> k < |cs|
    ensures forall i :: k < i < |cs| ==> cs[i].page != 1
    ensures k > 0 ==> cs[k].page == 1
  {
    if cs == [] then 0
    else if cs[|cs| - 1].page == 1 then |cs| - 1
    else LatestFirst(cs[..|cs| - 1])
  }

  /** All pages when appending only; otherwise the pages since the latest page 1. */
  function Collected(cfg: Config, cs: seq<Chunk>): seq<Item> {
    Flatten(if cfg.appendOnly then cs else cs[LatestFirst(cs)..])
  }

  function LatestTotal(cfg: Config, cs: seq<Chunk>): Option<int> {
    if cs == [] || !cfg.needsTotal then None
    else if cs[|cs| - 1].totalCount.Some? then cs[|cs| - 1].totalCount
    else LatestTotal(cfg, cs[..|cs| - 1])
  }

  lemma {:induction false} FlattenAppend(cs: seq<Chunk>, c: Chunk)
    ensures Flatten(cs + [c]) == Flatten(cs) + c.list
  {
    if cs == [] {
      assert cs + [c] == [c] && [c][1..] == [];
    } else {
      assert (cs + [c])[1..] == cs[1..] + [c];
      FlattenAppend(cs[1..], c);
    }
  }

  lemma CollectedAppend(cfg: Config, cs: seq<Chunk>, c: Chunk)
    ensures Collected(cfg, cs + [c]) == Gathered(cfg, Collected(cfg, cs), c)
  {
    var all := cs + [c];
    assert all[..|all| - 1] == cs;
    if cfg.appendOnly {
      FlattenAppend(cs, c);
    } else if c.page == 1 {
      assert LatestFirst(all) == |cs|;
      assert all[|cs|..] == [c] && [c][1..] == [];
      assert Flatten([c]) == c.list + Flatten([]);
    } else {
      assert all[LatestFirst(cs)..] == cs[LatestFirst(cs)..] + [c];
      FlattenAppend(cs[LatestFirst(cs)..], c);
    }
  }

  lemma LatestTotalAppend(cfg: Config, cs: seq<Chunk>, c: Chunk)
    ensures LatestTotal(cfg, cs + [c])
         == if cfg.needsTotal && c.totalCount.Some? then c.totalCount else LatestTotal(cfg, cs)
  {
    assert (cs + [c])[..|cs + [c]| - 1] == cs;
  }

  /**
   * The chunks received are all there are: the last one is numbered as the last page, or the
   * list is as long as it announces, or, when no totals are needed, it announces no pages.
   */
  predicate AllThere(cfg: Config, cs: seq<Chunk>)
    requires cs != []
  {
    match cs[|cs| - 1]
    case Chunk(_, page, Some(pages), _) => page >= pages
    case Chunk(_, _, None, Some(count)) => cfg.needsTotal ==> |Collected(cfg, cs)| >= count
    case Chunk(_, _, None, None) => !cfg.needsTotal
  }

  /** The events that end a collection, stated on the chunks received up to and with them. */
  predicate Ends(cfg: Config, cs: seq<Chunk>, e: Event) {
    match e
    case Timeout => true
    case Frame(action, succeeded, op) =>
      !succeeded && cfg.errorAction == Some(action) && (op.Some? && cfg.ownOp.Some? ==> op == cfg.ownOp)
    case Push(success, chunk) =>
      (cfg.checksSuccess && !success) || chunk.None? || (cs != [] && AllThere(cfg, cs))
  }

  function Ending(cfg: Config, cs: seq<Chunk>, e: Event): Outcome {
    match e
    case Timeout =>
      if cfg.partialOnTimeout then Resolved(Some(true), Counted(cfg, cs), Collected(cfg, cs))
      else Rejected(TimedOut)
    case Frame(_, _, _) => Rejected(Refused)
    case Push(success, chunk) =>
      if cfg.checksSuccess && !success then Rejected(Refused)
      else if chunk.None? then Rejected(Malformed)
      else Resolved(if cfg.partialOnTimeout then Some(false) else None, Counted(cfg, cs), Collected(cfg, cs))
  }

  /** The count reported: the latest total announced, or the length of the list. */
  function Counted(cfg: Config, cs: seq<Chunk>): Option<int> {
    if cfg.listOnly then None
    else Some(match LatestTotal(cfg, cs) case Some(n) => n case None => |Collected(cfg, cs)|)
  }

  /** The state holds the reference list and total of the chunks received. */
  predicate Matches(cfg: Config, s: State, cs: seq<Chunk>) {
    s.acc == Collected(cfg, cs) && s.total == LatestTotal(cfg, cs)
  }

  lemma NextMatches(cfg: Config, s: State, cs: seq<Chunk>, e: Event)
    requires !s.done && s.outcome.None? && Matches(cfg, s, cs)
    ensures var cs' := cs + Brought(cfg, e);
            var s' := Next(cfg, s, e);
            && Matches(cfg, s', cs')
            && (s'.done <==> Ends(cfg, cs', e))
            && s'.outcome == if Ends(cfg, cs', e) then Some(Ending(cfg, cs', e)) else None
  {
    if Brought(cfg, e) != [] {
      ChunkMatches(cfg, s, cs, e);
    } else {
      assert cs + Brought(cfg, e) == cs;
    }
  }

  lemma ChunkMatches(cfg: Config, s: State, cs: seq<Chunk>, e: Event)
    requires !s.done && s.outcome.None? && Matches(cfg, s, cs) && Brought(cfg, e) != []
    ensures var cs' := cs + [e.chunk.value];
            var s' := Next(cfg, s, e);
            && Matches(cfg, s', cs')
            && (s'.done <==> Ends(cfg, cs', e))
            && s'.outcome == if Ends(cfg, cs', e) then Some(Ending(cfg, cs', e)) else None
  {
    var c := e.chunk.value;
    CollectedAppend(cfg, cs, c);
    LatestTotalAppend(cfg, cs, c);
    var s1 := s.(acc := Gathered(cfg, s.acc, c),
                 total := if cfg.needsTotal && c.totalCount.Some? then c.totalCount else s.total);
    assert Matches(cfg, s1, cs + [c]);
    assert Next(cfg, s, e)
        == if Completes(cfg, s1.acc, c) then Finish(s1, Assembled(cfg, s1.acc, s1.total, false)) else s1;
  }

  /** No event before position k ended the collection. */
  predicate LastsUntil(cfg: Config, es: seq<Event>, k: nat)
    requires k <= |es|
  {
    forall i :: 0 <= i < k ==> !EndsAt(cfg, es, i)
  }

  predicate EndsAt(cfg: Config, es: seq<Event>, i: nat)
    requires i < |es|
  {
    Ends(cfg, Received(cfg, es[..i + 1]), es[i])
  }

  lemma Snoc(cfg: Config, es: seq<Event>, i: nat)
    requires i < |es|
    ensures Run(cfg, es[..i + 1]) == Next(cfg, Run(cfg, es[..i]), es[i])
    ensures Received(cfg, es[..i + 1]) == Received(cfg, es[..i]) + Brought(cfg, es[i])
  {
    assert es[..i + 1][..i] == es[..i];
  }

  /** While nothing ends the collection, it is unsettled and holds the reference list. */
  lemma {:induction false} LastingMatches(cfg: Config, es: seq<Event>, k: nat)
    requires k <= |es| && LastsUntil(cfg, es, k)
    ensures var s := Run(cfg, es[..k]); !s.done && s.outcome.None? && Matches(cfg, s, Received(cfg, es[..k]))
  {
    if k == 0 {
      assert es[..0] == [];
    } else {
      LastingMatches(cfg, es, k - 1);
      Snoc(cfg, es, k - 1);
      assert !EndsAt(cfg, es, k - 1);
      NextMatches(cfg, Run(cfg, es[..k - 1]), Received(cfg, es[..k - 1]), es[k - 1]);
    }
  }

  /**
   * For every sequence of pushes, error frames and timeouts, the first event that ends the
   * collection settles it, with the list the reference definition gives; nothing later matters.
   */
  lemma SettlesAtFirstEnd(cfg: Config, es: seq<Event>, k: nat)
    requires k < |es| && LastsUntil(cfg, es, k) && EndsAt(cfg, es, k)
    ensures Run(cfg, es).done && Run(cfg, es).outcome == Some(Ending(cfg, Received(cfg, es[..k + 1]), es[k]))
  {
    var whole := es[..k + 1] + es[k + 1..];
    assert whole == es;
    SettlesRightThen(cfg, es, k);
    StaysSettled(cfg, es[..k + 1], es[k + 1..], Ending(cfg, Received(cfg, es[..k + 1]), es[k]));
  }

  lemma StaysSettled(cfg: Config, es: seq<Event>, more: seq<Event>, o: Outcome)
    requires Run(cfg, es).done && Run(cfg, es).outcome == Some(o)
    ensures Run(cfg, es + more).done && Run(cfg, es + more).outcome == Some(o)
  {
    SettlesOnce(cfg, es, more);
  }

  lemma SettlesRightThen(cfg: Config, es: seq<Event>, k: nat)
    requires k < |es| && LastsUntil(cfg, es, k) && EndsAt(cfg, es, k)
    ensures var s := Run(cfg, es[..k + 1]);
            s.done && s.outcome == Some(Ending(cfg, Received(cfg, es[..k + 1]), es[k]))
  {
    LastingMatches(cfg, es, k);
    Snoc(cfg, es, k);
    NextMatches(cfg, Run(cfg, es[..k]), Received(cfg, es[..k]), es[k]);
  }

  /** And without such an event it stays unsettled. */
  lemma UnsettledWhileNothingEnds(cfg: Config, es: seq<Event>)
    requires LastsUntil(cfg, es, |es|)
    ensures Run(cfg, es).outcome.None? && Run(cfg, es).acc == Collected(cfg, Received(cfg, es))
  {
    LastingMatches(cfg, es, |es|);
    assert es[..|es|] == es;
  }

  // ---- A whole list, page by page ----

  function Pushes(cs: seq<Chunk>): seq<Event> {
    seq(|cs|, i requires 0 <= i < |cs| => Push(true, Some(cs[i])))
  }

  /** The pages of one list: numbered from 1, each with the number of pages, or each with the length. */
  predicate PagesOf(cfg: Config, cs: seq<Chunk>, list: seq<Item>) {
    && cs != [] && list == Flatten(cs)
    && (forall i :: 0 <= i < |cs| ==>
          cs[i].page == i + 1 && (cs[i].totalCount.Some? ==> cs[i].totalCount == Some(|list|)))
    && ((forall i :: 0 <= i < |cs| ==> cs[i].totalPage == Some(|cs|))
        || (cfg.needsTotal
            && forall i :: 0 <= i < |cs| ==> cs[i].totalPage.None? && cs[i].totalCount.Some? && cs[i].list != []))
  }

  lemma {:induction false} ReceivedPushes(cfg: Config, cs: seq<Chunk>, k: nat)
    requires k <= |cs|
    ensures Received(cfg, Pushes(cs)[..k]) == cs[..k]
  {
    if k > 0 {
      ReceivedPushes(cfg, cs, k - 1);
      Snoc(cfg, Pushes(cs), k - 1);
      assert cs[..k] == cs[..k - 1] + [cs[k - 1]];
    }
  }

  lemma {:induction false} PrefixIsShorter(cs: seq<Chunk>, k: nat)
    requires k < |cs| && forall i :: 0 <= i < |cs| ==> cs[i].list != []
    ensures |Flatten(cs[..k])| < |Flatten(cs)|
  {
    if k > 0 {
      assert cs[..k][1..] == cs[1..][..k - 1];
      PrefixIsShorter(cs[1..], k - 1);
    }
  }

  lemma PagesCollect(cfg: Config, cs: seq<Chunk>, k: nat)
    requires k <= |cs| && forall i :: 0 <= i < |cs| ==> cs[i].page == i + 1
    ensures Collected(cfg, cs[..k]) == Flatten(cs[..k])
  {
    assert LatestFirst(cs[..k]) == 0;
    assert cs[..k][0..] == cs[..k];
  }

  lemma NotThereYet(cfg: Config, cs: seq<Chunk>, list: seq<Item>, k: nat)
    requires PagesOf(cfg, cs, list) && 0 < k <= |cs|
    ensures AllThere(cfg, cs[..k]) <==> k == |cs|
  {
    PagesCollect(cfg, cs, k);
    var last := cs[..k][k - 1];
    assert last == cs[k - 1];
    if k == |cs| {
      assert cs[..k] == cs;
    } else if last.totalPage.None? {
      PrefixIsShorter(cs, k);
    }
  }

  lemma {:induction false} LatestTotalOfPages(cfg: Config, cs: seq<Chunk>, n: int)
    requires forall i :: 0 <= i < |cs| ==> cs[i].totalCount.Some? ==> cs[i].totalCount == Some(n)
    ensures LatestTotal(cfg, cs).Some? ==> LatestTotal(cfg, cs) == Some(n)
  {
    if cs != [] {
      LatestTotalOfPages(cfg, cs[..|cs| - 1], n);
    }
  }

  /**
   * A server that pushes a list in pages: the collection is unsettled until the last page, and
   * then resolves with exactly that list and its length, whatever comes after.
   */
  lemma WholeListIsCollected(cfg: Config, cs: seq<Chunk>, list: seq<Item>, more: seq<Event>)
    requires PagesOf(cfg, cs, list)
    ensures forall k :: 0 <= k < |cs| ==> !Run(cfg, Pushes(cs)[..k]).done
    ensures Run(cfg, Pushes(cs) + more).outcome
         == Some(Resolved(if cfg.partialOnTimeout then Some(false) else None,
                          if cfg.listOnly then None else Some(|list|), list))
  {
    var es, n := Pushes(cs), |cs|;
    LastPageEnds(cfg, cs, list);
    forall k | 0 <= k < n ensures !Run(cfg, es[..k]).done {
      LastingMatches(cfg, es, k);
    }
    SettlesAtFirstEnd(cfg, es, n - 1);
    EndingOfPages(cfg, cs, list);
    SettlesOnce(cfg, es, more);
  }

  lemma LastPageEnds(cfg: Config, cs: seq<Chunk>, list: seq<Item>)
    requires PagesOf(cfg, cs, list)
    ensures LastsUntil(cfg, Pushes(cs), |cs| - 1) && EndsAt(cfg, Pushes(cs), |cs| - 1)
  {
    forall k | 0 <= k < |cs| ensures EndsAt(cfg, Pushes(cs), k) <==> k == |cs| - 1 {
      ReceivedPushes(cfg, cs, k + 1);
      NotThereYet(cfg, cs, list, k + 1);
    }
  }

  lemma EndingOfPages(cfg: Config, cs: seq<Chunk>, list: seq<Item>)
    requires PagesOf(cfg, cs, list)
    ensures var es := Pushes(cs);
            Ending(cfg, Received(cfg, es[..|cs|]), es[|cs| - 1])
            == Resolved(if cfg.partialOnTimeout then Some(false) else None,
                        if cfg.listOnly then None else Some(|list|), list)
  {
    ReceivedPushes(cfg, cs, |cs|);
    assert cs[..|cs|] == cs;
    PagesCollect(cfg, cs, |cs|);
    LatestTotalOfPages(cfg, cs, |list|);
  }
}
