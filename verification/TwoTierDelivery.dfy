/**
 Delivery of server messages over two channels, an unbounded lossless one and a bounded
 best-effort one: the in-process router, which feeds a bounded notification queue, and the
 writer of the stdio transport. One poll of a biased select is one step.
 */
module TwoTierDelivery {
  import opened Wrappers

  datatype Message =
    | Response(id: string)
    | Notification(body: string, durable: bool)
    | Request(id: string)

  /** A message with the position at which the server produced it. */
  datatype Item = Item(at: nat, message: Message)

  /** The sink's classification: only a notification of a delta or of progress may be dropped. */
  predicate IsLossless(x: Item) {
    x.message.Notification? ==> x.message.durable
  }

  predicate IsBestEffort(x: Item) {
    !IsLossless(x)
  }

  predicate IsLosslessNotification(x: Item) {
    IsLossless(x) && x.message.Notification?
  }

  function Pick(s: seq<Item>, p: Item -> bool): seq<Item> {
    if s == [] then []
    else
      var before := Pick(s[..|s| - 1], p);
      if p(s[|s| - 1]) then before + [s[|s| - 1]] else before
  }

  lemma PickSnoc(s: seq<Item>, x: Item, p: Item -> bool)
    ensures Pick(s + [x], p) == if p(x) then Pick(s, p) + [x] else Pick(s, p)
  {
    assert (s + [x])[..|s|] == s;
  }

  const SINK_CAPACITY := 1024
  const FANOUT_CAPACITY := 256

  // ----- The sink and its two channels -----

  datatype Channels = Channels(produced: seq<Item>, bestEffort: seq<Item>, lossless: seq<Item>, closed: bool)

  const NO_MESSAGES := Channels([], [], [], false)

  /** A lossless message is always queued, a best-effort one only while its channel has room. */
  function Sent(c: Channels, m: Message): Channels {
    var x := Item(|c.produced|, m);
    var made := c.(produced := c.produced + [x]);
    if IsLossless(x) then made.(lossless := c.lossless + [x])
    else if |c.bestEffort| < SINK_CAPACITY then made.(bestEffort := c.bestEffort + [x])
    else made
  }

  /** The position of the oldest queued best-effort item, or of the next item to be produced. */
  function Front(c: Channels): nat {
    if c.bestEffort == [] then |c.produced| else c.bestEffort[0].at
  }

  /** Every best-effort item of a log was produced after all that precedes it in the log. */
  predicate InOrder(log: seq<Item>) {
    forall i, j :: 0 <= i < j < |log| && IsBestEffort(log[j]) ==> log[i].at < log[j].at
  }

  predicate AllBelow(log: seq<Item>, n: nat) {
    forall i :: 0 <= i < |log| ==> log[i].at < n
  }

  /** An item is what was produced at its position. */
  predicate Made(produced: seq<Item>, x: Item) {
    x.at < |produced| && produced[x.at] == x
  }

  ghost predicate QueuesInv(c: Channels) {
    && |c.bestEffort| <= SINK_CAPACITY
    && (forall i :: 0 <= i < |c.bestEffort| ==> Made(c.produced, c.bestEffort[i]) && IsBestEffort(c.bestEffort[i]))
    && (forall i :: 0 <= i < |c.lossless| ==> Made(c.produced, c.lossless[i]) && IsLossless(c.lossless[i]))
    && (forall i, j :: 0 <= i < j < |c.bestEffort| ==> c.bestEffort[i].at < c.bestEffort[j].at)
  }

  /** A log of what has left the channels: real items, all older than the queued best-effort ones. */
  ghost predicate LogInv(c: Channels, log: seq<Item>) {
    InOrder(log) && AllBelow(log, Front(c)) && forall i :: 0 <= i < |log| ==> Made(c.produced, log[i])
  }

  lemma SendingKeepsQueues(c: Channels, m: Message, log: seq<Item>)
    requires QueuesInv(c) && LogInv(c, log)
    ensures QueuesInv(Sent(c, m)) && LogInv(Sent(c, m), log)
  {
  }

  lemma SendingKeepsLossless(c: Channels, m: Message, taken: seq<Item>)
    requires Pick(taken, IsLossless) + c.lossless == Pick(c.produced, IsLossless)
    ensures Pick(taken, IsLossless) + Sent(c, m).lossless == Pick(Sent(c, m).produced, IsLossless)
  {
    PickSnoc(c.produced, Item(|c.produced|, m), IsLossless);
  }

  lemma LogGrows(c: Channels, c': Channels, log: seq<Item>, x: Item)
    requires LogInv(c, log) && c'.produced == c.produced && Made(c.produced, x)
    requires Front(c) <= Front(c') && x.at < Front(c') && (IsBestEffort(x) ==> x.at == Front(c))
    ensures LogInv(c', log + [x])
  {
  }

  // ----- The in-process router -----

  /**
   `taken` lists what the router took from the channels, `entered` what it put into the
   notification queue; `hand` is a lossless notification that waits for room in it.
   */
  datatype Router = Router(
    channels: Channels,
    bestEffortOpen: bool,
    losslessOpen: bool,
    hand: Option<Item>,
    fanout: seq<Item>,
    taken: seq<Item>,
    entered: seq<Item>)

  datatype RouterAction = Produce(message: Message) | CloseSink | Poll | Push | Consume

  const ROUTER_START := Router(NO_MESSAGES, true, true, None, [], [], [])

  predicate RouterEnabled(s: Router, a: RouterAction) {
    var c := s.channels;
    match a
    case Produce(_) => !c.closed
    case CloseSink => !c.closed
    case Poll =>
      && s.hand.None?
      && ((s.bestEffortOpen && (c.bestEffort != [] || c.closed)) || (s.losslessOpen && (c.lossless != [] || c.closed)))
    case Push => s.hand.Some? && |s.fanout| < FANOUT_CAPACITY
    case Consume => s.fanout != []
  }

  /** The best-effort branch comes first; a branch whose channel is closed and empty is switched off. */
  function RouterPoll(s: Router): Router
    requires RouterEnabled(s, Poll)
  {
    var c := s.channels;
    if s.bestEffortOpen && c.bestEffort != [] then
      var x := c.bestEffort[0];
      var t := s.(channels := c.(bestEffort := c.bestEffort[1..]), taken := s.taken + [x]);
      if x.message.Notification? && |s.fanout| < FANOUT_CAPACITY
      then t.(fanout := s.fanout + [x], entered := s.entered + [x])
      else t
    else if s.bestEffortOpen && c.closed then s.(bestEffortOpen := false)
    else if c.lossless != [] then
      var x := c.lossless[0];
      s.(channels := c.(lossless := c.lossless[1..]), taken := s.taken + [x],
         hand := if x.message.Notification? then Some(x) else None)
    else s.(losslessOpen := false)
  }

  function RouterNext(s: Router, a: RouterAction): Router
    requires RouterEnabled(s, a)
  {
    match a
    case Produce(m) => s.(channels := Sent(s.channels, m))
    case CloseSink => s.(channels := s.channels.(closed := true))
    case Poll => RouterPoll(s)
    case Push => s.(hand := None, fanout := s.fanout + [s.hand.value], entered := s.entered + [s.hand.value])
    case Consume => s.(fanout := s.fanout[1..])
  }

  function RunRouter(s: Router, actions: seq<RouterAction>): (r: Option<Router>)
    decreases |actions|
  {
    if actions == [] then Some(s)
    else if RouterEnabled(s, actions[0]) then RunRouter(RouterNext(s, actions[0]), actions[1..])
    else None
  }

  function InHand(s: Router): seq<Item> {
    if s.hand.Some? then [s.hand.value] else []
  }

  ghost predicate RouterInv(s: Router) {
    && QueuesInv(s.channels)
    && LogInv(s.channels, s.taken) && LogInv(s.channels, s.entered + InHand(s))
    && (!s.bestEffortOpen ==> s.channels.closed && s.channels.bestEffort == [])
    && (!s.losslessOpen ==> s.channels.closed && s.channels.lossless == [])
    && |s.fanout| <= FANOUT_CAPACITY
    && (s.hand.Some? ==> IsLosslessNotification(s.hand.value))
    && (forall i :: 0 <= i < |s.entered| ==> s.entered[i].message.Notification?)
  }

  ghost predicate NothingLost(s: Router) {
    && Pick(s.taken, IsLossless) + s.channels.lossless == Pick(s.channels.produced, IsLossless)
    && Pick(s.entered, IsLosslessNotification) + InHand(s) == Pick(s.taken, IsLosslessNotification)
  }

  lemma PollKeepsRouter(s: Router)
    requires RouterInv(s) && RouterEnabled(s, Poll)
    ensures RouterInv(RouterPoll(s))
  {
    var c, c' := s.channels, RouterPoll(s).channels;
    assert s.entered + InHand(s) == s.entered;
    if s.bestEffortOpen && c.bestEffort != [] {
      assert Front(c) < Front(c');
      LogGrows(c, c', s.taken, c.bestEffort[0]);
      LogGrows(c, c', s.entered, c.bestEffort[0]);
    } else if c.lossless != [] {
      LogGrows(c, c', s.taken, c.lossless[0]);
      LogGrows(c, c', s.entered, c.lossless[0]);
    }
    var s' := RouterPoll(s);
    if s'.hand.None? {
      assert s'.entered + InHand(s') == s'.entered;
    }
  }

  lemma HeadMoves(a: seq<Item>, q: seq<Item>)
    requires q != []
    ensures a + [q[0]] + q[1..] == a + q
  {
  }

  lemma TakingBestEffortLosesNothing(s: Router)
    requires RouterInv(s) && RouterEnabled(s, Poll) && NothingLost(s) && s.bestEffortOpen && s.channels.bestEffort != []
    ensures NothingLost(RouterPoll(s))
  {
    var x := s.channels.bestEffort[0];
    PickSnoc(s.taken, x, IsLossless);
    PickSnoc(s.taken, x, IsLosslessNotification);
    PickSnoc(s.entered, x, IsLosslessNotification);
  }

  lemma TakingLosslessLosesNothing(s: Router)
    requires RouterInv(s) && RouterEnabled(s, Poll) && NothingLost(s)
    requires (s.bestEffortOpen ==> s.channels.bestEffort == [] && !s.channels.closed) && s.channels.lossless != []
    ensures NothingLost(RouterPoll(s))
  {
    var x := s.channels.lossless[0];
    PickSnoc(s.taken, x, IsLossless);
    PickSnoc(s.taken, x, IsLosslessNotification);
    HeadMoves(Pick(s.taken, IsLossless), s.channels.lossless);
  }

  lemma PollLosesNothing(s: Router)
    requires RouterInv(s) && RouterEnabled(s, Poll) && NothingLost(s)
    ensures NothingLost(RouterPoll(s))
  {
    var c := s.channels;
    if s.bestEffortOpen && c.bestEffort != [] {
      TakingBestEffortLosesNothing(s);
    } else if !(s.bestEffortOpen && c.closed) && c.lossless != [] {
      TakingLosslessLosesNothing(s);
    }
  }

  lemma NextKeepsRouter(s: Router, a: RouterAction)
    requires RouterInv(s) && NothingLost(s) && RouterEnabled(s, a)
    ensures RouterInv(RouterNext(s, a)) && NothingLost(RouterNext(s, a))
  {
    match a
    case Produce(m) =>
      SendingKeepsQueues(s.channels, m, s.taken);
      SendingKeepsQueues(s.channels, m, s.entered + InHand(s));
      SendingKeepsLossless(s.channels, m, s.taken);
    case CloseSink =>
    case Poll =>
      PollKeepsRouter(s);
      PollLosesNothing(s);
    case Push =>
      PickSnoc(s.entered, s.hand.value, IsLosslessNotification);
      assert RouterNext(s, a).entered + InHand(RouterNext(s, a)) == s.entered + InHand(s);
    case Consume =>
  }

  lemma {:induction false} RunKeepsRouter(s: Router, actions: seq<RouterAction>)
    requires RouterInv(s) && NothingLost(s) && RunRouter(s, actions).Some?
    ensures RouterInv(RunRouter(s, actions).value) && NothingLost(RunRouter(s, actions).value)
    decreases |actions|
  {
    if actions != [] {
      NextKeepsRouter(s, actions[0]);
      RunKeepsRouter(RouterNext(s, actions[0]), actions[1..]);
    }
  }

  lemma RouterStarts()
    ensures RouterInv(ROUTER_START) && NothingLost(ROUTER_START)
  {
  }

  lemma {:induction false} PickConcat(a: seq<Item>, b: seq<Item>, p: Item -> bool)
    ensures Pick(a + b, p) == Pick(a, p) + Pick(b, p)
    decreases |b|
  {
    if b == [] {
      assert a + b == a;
    } else {
      var init, x := b[..|b| - 1], b[|b| - 1];
      assert a + b == (a + init) + [x];
      PickConcat(a, init, p);
      PickSnoc(a + init, x, p);
    }
  }

  lemma {:induction false} NotificationsAmongLossless(s: seq<Item>)
    ensures Pick(Pick(s, IsLossless), IsLosslessNotification) == Pick(s, IsLosslessNotification)
    decreases |s|
  {
    if s != [] {
      var init, x := s[..|s| - 1], s[|s| - 1];
      NotificationsAmongLossless(init);
      PickSnoc(Pick(init, IsLossless), x, IsLosslessNotification);
    }
  }

  /**
   In every run, the notifications that entered the queue are an order-preserving merge: each
   lossless one that has left its channel is there (or in the router's hand), in production order;
   a best-effort one is never there behind anything produced after it; and the queue is never
   over capacity.
   */
  lemma RouterDelivers(actions: seq<RouterAction>)
    requires RunRouter(ROUTER_START, actions).Some?
    ensures var s := RunRouter(ROUTER_START, actions).value;
            && Pick(s.entered, IsLosslessNotification) + InHand(s) + Pick(s.channels.lossless, IsLosslessNotification) ==
               Pick(s.channels.produced, IsLosslessNotification)
            && InOrder(s.entered) && (forall i :: 0 <= i < |s.entered| ==> Made(s.channels.produced, s.entered[i]))
            && |s.fanout| <= FANOUT_CAPACITY
  {
    hide RunRouter, Pick;
    RouterStarts();
    RunKeepsRouter(ROUTER_START, actions);
    var s := RunRouter(ROUTER_START, actions).value;
    assert forall i :: 0 <= i < |s.entered| ==> (s.entered + InHand(s))[i] == s.entered[i];
    LosslessNotificationsAddUp(s);
  }

  /** What the consumer takes out, one action at a time. */
  function Received(s: Router, actions: seq<RouterAction>): seq<Item>
    requires RunRouter(s, actions).Some?
    decreases |actions|
  {
    if actions == [] then []
    else (if actions[0].Consume? then [s.fanout[0]] else []) + Received(RouterNext(s, actions[0]), actions[1..])
  }

  lemma NextQueuesBehind(s: Router, a: RouterAction, gone: seq<Item>)
    requires RouterEnabled(s, a) && gone + s.fanout == s.entered
    ensures var s' := RouterNext(s, a);
            gone + (if a.Consume? then [s.fanout[0]] else []) + s'.fanout == s'.entered
  {
    if a.Consume? {
      HeadMoves(gone, s.fanout);
    }
  }

  lemma {:induction false} ReceivedSince(s: Router, actions: seq<RouterAction>, gone: seq<Item>)
    requires RunRouter(s, actions).Some? && gone + s.fanout == s.entered
    ensures var s' := RunRouter(s, actions).value; gone + Received(s, actions) + s'.fanout == s'.entered
    decreases |actions|
  {
    hide RouterNext, RouterPoll;
    if actions == [] {
      assert gone + [] == gone;
    } else {
      var took := if actions[0].Consume? then [s.fanout[0]] else [];
      var later := Received(RouterNext(s, actions[0]), actions[1..]);
      NextQueuesBehind(s, actions[0], gone);
      ReceivedSince(RouterNext(s, actions[0]), actions[1..], gone + took);
      assert gone + (took + later) == gone + took + later;
    }
  }

  /** The consumer receives what entered the queue, all of it up to what is still queued, in that order. */
  lemma ConsumerReceivesInOrder(actions: seq<RouterAction>)
    requires RunRouter(ROUTER_START, actions).Some?
    ensures var s := RunRouter(ROUTER_START, actions).value; Received(ROUTER_START, actions) + s.fanout == s.entered
  {
    ReceivedSince(ROUTER_START, actions, []);
    assert [] + Received(ROUTER_START, actions) == Received(ROUTER_START, actions);
  }

  /** A queued delta is routed or dropped before any message that was produced after it is taken. */
  lemma QueuedDeltaGoesFirst(actions: seq<RouterAction>, i: nat, j: nat)
    requires RunRouter(ROUTER_START, actions).Some?
    ensures var s := RunRouter(ROUTER_START, actions).value;
            && (i < |s.taken| && j < |s.channels.bestEffort| ==> s.taken[i].at < s.channels.bestEffort[j].at)
            && (i < j < |s.taken| && IsBestEffort(s.taken[j]) ==> s.taken[i].at < s.taken[j].at)
  {
    hide RunRouter, Pick, NothingLost;
    RouterStarts();
    RunKeepsRouter(ROUTER_START, actions);
    var c := RunRouter(ROUTER_START, actions).value.channels;
    assert j < |c.bestEffort| ==> Front(c) <= c.bestEffort[j].at;
  }

  lemma LosslessNotificationsAddUp(s: Router)
    requires NothingLost(s) && forall i :: 0 <= i < |s.channels.lossless| ==> IsLossless(s.channels.lossless[i])
    ensures Pick(s.entered, IsLosslessNotification) + InHand(s) + Pick(s.channels.lossless, IsLosslessNotification) ==
            Pick(s.channels.produced, IsLosslessNotification)
  {
    PickConcat(Pick(s.taken, IsLossless), s.channels.lossless, IsLosslessNotification);
    NotificationsAmongLossless(s.taken);
    NotificationsAmongLossless(s.channels.produced);
  }

  /** Once both channels are switched off, every lossless notification has entered the queue. */
  lemma RouterDrains(actions: seq<RouterAction>)
    requires RunRouter(ROUTER_START, actions).Some?
    ensures var s := RunRouter(ROUTER_START, actions).value;
            !s.losslessOpen && s.hand.None? ==>
              Pick(s.entered, IsLosslessNotification) == Pick(s.channels.produced, IsLosslessNotification)
  {
    hide RunRouter, LogInv;
    RouterStarts();
    RunKeepsRouter(ROUTER_START, actions);
    LosslessNotificationsAddUp(RunRouter(ROUTER_START, actions).value);
  }

  /** The polls, pushes and receives that can still follow once the sink is closed. */
  function RouterWork(s: Router): nat {
    3 * |s.channels.lossless| + 2 * |s.channels.bestEffort| + |s.fanout| + (if s.hand.Some? then 2 else 0)
    + (if s.bestEffortOpen then 1 else 0) + (if s.losslessOpen then 1 else 0)
  }

  lemma {:induction false} ClosedRouterRunsAreBounded(s: Router, actions: seq<RouterAction>)
    requires s.channels.closed && RunRouter(s, actions).Some?
    ensures var s' := RunRouter(s, actions).value; s'.channels.closed && |actions| + RouterWork(s') <= RouterWork(s)
    decreases |actions|
  {
    if actions != [] {
      ClosedRouterRunsAreBounded(RouterNext(s, actions[0]), actions[1..]);
    }
  }

  /** With the sink closed and its consumer alive a router that has not finished can take a step. */
  lemma ClosedRouterMoves(s: Router)
    requires s.channels.closed && RouterInv(s) && forall a :: !RouterEnabled(s, a)
    ensures !s.bestEffortOpen && !s.losslessOpen && s.hand.None? && s.fanout == []
  {
    assert !RouterEnabled(s, Poll) && !RouterEnabled(s, Push) && !RouterEnabled(s, Consume);
  }

  /**
   Once the sink is closed the router and its consumer stop within a bounded number of steps, and
   where they stop every lossless notification has entered the queue and left it again.
   */
  lemma ClosedRouterFinishes(actions: seq<RouterAction>, rest: seq<RouterAction>)
    requires RunRouter(ROUTER_START, actions).Some? && RunRouter(ROUTER_START, actions).value.channels.closed
    requires RunRouter(RunRouter(ROUTER_START, actions).value, rest).Some?
    ensures var s := RunRouter(ROUTER_START, actions).value;
            var s' := RunRouter(s, rest).value;
            && |rest| <= RouterWork(s)
            && ((forall a :: !RouterEnabled(s', a)) ==>
                  && s'.fanout == []
                  && Pick(s'.entered, IsLosslessNotification) == Pick(s'.channels.produced, IsLosslessNotification))
  {
    hide RunRouter, RouterWork, LogInv;
    var s := RunRouter(ROUTER_START, actions).value;
    var s' := RunRouter(s, rest).value;
    RouterStarts();
    RunKeepsRouter(ROUTER_START, actions);
    RunKeepsRouter(s, rest);
    ClosedRouterRunsAreBounded(s, rest);
    if forall a :: !RouterEnabled(s', a) {
      ClosedRouterMoves(s');
      LosslessNotificationsAddUp(s');
    }
  }

  // ----- Without pressure nothing is dropped -----

  /** Whatever is offered to a bounded queue finds room in it. */
  predicate HasRoom(c: Channels, m: Message) {
    m.Notification? && !m.durable ==> |c.bestEffort| < SINK_CAPACITY
  }

  ghost predicate RouterRelaxed(s: Router, actions: seq<RouterAction>)
    decreases |actions|
  {
    actions == [] ||
    (&& RouterEnabled(s, actions[0])
     && (match actions[0]
         case Produce(m) => HasRoom(s.channels, m)
         case Poll => s.bestEffortOpen && s.channels.bestEffort != [] ==> |s.fanout| < FANOUT_CAPACITY
         case _ => true)
     && RouterRelaxed(RouterNext(s, actions[0]), actions[1..]))
  }

  ghost predicate NothingDropped(s: Router) {
    Pick(s.entered, IsBestEffort) + s.channels.bestEffort == Pick(s.channels.produced, IsBestEffort)
  }

  lemma SendingDropsNothing(c: Channels, m: Message, log: seq<Item>)
    requires Pick(log, IsBestEffort) + c.bestEffort == Pick(c.produced, IsBestEffort) && HasRoom(c, m)
    ensures Pick(log, IsBestEffort) + Sent(c, m).bestEffort == Pick(Sent(c, m).produced, IsBestEffort)
  {
    PickSnoc(c.produced, Item(|c.produced|, m), IsBestEffort);
  }

  lemma PollDropsNothing(s: Router)
    requires RouterInv(s) && NothingDropped(s) && RouterEnabled(s, Poll)
    requires s.bestEffortOpen && s.channels.bestEffort != [] ==> |s.fanout| < FANOUT_CAPACITY
    ensures NothingDropped(RouterPoll(s))
  {
    if s.bestEffortOpen && s.channels.bestEffort != [] {
      PickSnoc(s.entered, s.channels.bestEffort[0], IsBestEffort);
      HeadMoves(Pick(s.entered, IsBestEffort), s.channels.bestEffort);
    }
  }

  lemma {:induction false} RelaxedRunDropsNothing(s: Router, actions: seq<RouterAction>)
    requires RouterInv(s) && NothingLost(s) && NothingDropped(s) && RunRouter(s, actions).Some? && RouterRelaxed(s, actions)
    ensures NothingDropped(RunRouter(s, actions).value)
    decreases |actions|
  {
    if actions != [] {
      NextKeepsRouter(s, actions[0]);
      match actions[0] {
        case Produce(m) => SendingDropsNothing(s.channels, m, s.entered);
        case Poll => PollDropsNothing(s);
        case Push => PickSnoc(s.entered, s.hand.value, IsBestEffort);
        case _ =>
      }
      RelaxedRunDropsNothing(RouterNext(s, actions[0]), actions[1..]);
    }
  }

  /** In a run whose queues never refuse anything, every best-effort message enters the fan-out, in order. */
  lemma NothingDroppedWithoutPressure(actions: seq<RouterAction>)
    requires RunRouter(ROUTER_START, actions).Some? && RouterRelaxed(ROUTER_START, actions)
    ensures var s := RunRouter(ROUTER_START, actions).value;
            && Pick(s.entered, IsBestEffort) + s.channels.bestEffort == Pick(s.channels.produced, IsBestEffort)
            && (!s.bestEffortOpen ==> Pick(s.entered, IsBestEffort) == Pick(s.channels.produced, IsBestEffort))
  {
    RelaxedRunDropsNothing(ROUTER_START, actions);
    RouterStarts();
    RunKeepsRouter(ROUTER_START, actions);
  }

  // ----- The writer of the stdio transport -----

  /** `emitted` lists the messages written; the writer ends when a poll yields nothing. */
  datatype Writer = Writer(channels: Channels, emitted: seq<Item>, ended: bool)

  datatype WriterAction = WriterProduce(message: Message) | WriterClose | WriterPoll

  const WRITER_START := Writer(NO_MESSAGES, [], false)

  predicate WriterEnabled(s: Writer, a: WriterAction) {
    match a
    case WriterProduce(_) => !s.channels.closed
    case WriterClose => !s.channels.closed
    case WriterPoll => !s.ended && (s.channels.lossless != [] || s.channels.closed || s.channels.bestEffort != [])
  }

  /** The lossless branch comes first; a closed and empty channel yields the end at once. */
  function WriterNext(s: Writer, a: WriterAction): Writer
    requires WriterEnabled(s, a)
  {
    var c := s.channels;
    match a
    case WriterProduce(m) => s.(channels := Sent(c, m))
    case WriterClose => s.(channels := c.(closed := true))
    case WriterPoll =>
      if c.lossless != [] then s.(channels := c.(lossless := c.lossless[1..]), emitted := s.emitted + [c.lossless[0]])
      else if c.closed then s.(ended := true)
      else s.(channels := c.(bestEffort := c.bestEffort[1..]), emitted := s.emitted + [c.bestEffort[0]])
  }

  function RunWriter(s: Writer, actions: seq<WriterAction>): (r: Option<Writer>)
    decreases |actions|
  {
    if actions == [] then Some(s)
    else if WriterEnabled(s, actions[0]) then RunWriter(WriterNext(s, actions[0]), actions[1..])
    else None
  }

  ghost predicate WriterInv(s: Writer) {
    && QueuesInv(s.channels)
    && Pick(s.emitted, IsLossless) + s.channels.lossless == Pick(s.channels.produced, IsLossless)
    && (s.ended ==> s.channels.closed && s.channels.lossless == [])
  }

  lemma WriterPollKeepsInv(s: Writer)
    requires WriterInv(s) && WriterEnabled(s, WriterPoll)
    ensures WriterInv(WriterNext(s, WriterPoll))
  {
    var c := s.channels;
    if c.lossless != [] {
      PickSnoc(s.emitted, c.lossless[0], IsLossless);
      HeadMoves(Pick(s.emitted, IsLossless), c.lossless);
    } else if !c.closed {
      PickSnoc(s.emitted, c.bestEffort[0], IsLossless);
    }
  }

  lemma NextKeepsWriter(s: Writer, a: WriterAction)
    requires WriterInv(s) && WriterEnabled(s, a)
    ensures WriterInv(WriterNext(s, a))
  {
    match a
    case WriterProduce(m) =>
      SendingKeepsQueues(s.channels, m, []);
      SendingKeepsLossless(s.channels, m, s.emitted);
    case WriterClose =>
    case WriterPoll => WriterPollKeepsInv(s);
  }

  lemma {:induction false} RunKeepsWriter(s: Writer, actions: seq<WriterAction>)
    requires WriterInv(s) && RunWriter(s, actions).Some?
    ensures WriterInv(RunWriter(s, actions).value)
    decreases |actions|
  {
    if actions != [] {
      NextKeepsWriter(s, actions[0]);
      RunKeepsWriter(WriterNext(s, actions[0]), actions[1..]);
    }
  }

  /** On a clean close the writer has written every lossless message, in the order of production. */
  lemma WriterEmitsAllLossless(actions: seq<WriterAction>)
    requires RunWriter(WRITER_START, actions).Some?
    ensures var s := RunWriter(WRITER_START, actions).value;
            && Pick(s.emitted, IsLossless) <= Pick(s.channels.produced, IsLossless)
            && (s.ended ==> Pick(s.emitted, IsLossless) == Pick(s.channels.produced, IsLossless))
  {
    RunKeepsWriter(WRITER_START, actions);
  }

  /** Responses, server requests and durable notifications: what must never be dropped. */
  predicate MustArrive(m: Message) {
    m.Response? || m.Request? || (m.Notification? && m.durable)
  }

  lemma {:induction false} Picked(s: seq<Item>, p: Item -> bool, x: Item)
    ensures x in Pick(s, p) <==> x in s && p(x)
  {
    if s != [] {
      Picked(s[..|s| - 1], p, x);
    }
  }

  /** Every response, request and durable notification is written in the end. */
  lemma WriterEmitsWhatMustArrive(actions: seq<WriterAction>, x: Item)
    requires RunWriter(WRITER_START, actions).Some? && RunWriter(WRITER_START, actions).value.ended
    requires x in RunWriter(WRITER_START, actions).value.channels.produced && MustArrive(x.message)
    ensures x in RunWriter(WRITER_START, actions).value.emitted
  {
    var s := RunWriter(WRITER_START, actions).value;
    WriterEmitsAllLossless(actions);
    Picked(s.channels.produced, IsLossless, x);
    Picked(s.emitted, IsLossless, x);
  }

  /** Every durable notification is handed to the consumer's queue, and every response and request is taken for routing. */
  lemma RouterTakesWhatMustArrive(actions: seq<RouterAction>, x: Item)
    requires RunRouter(ROUTER_START, actions).Some?
    requires var s := RunRouter(ROUTER_START, actions).value;
             !s.losslessOpen && s.hand.None? && x in s.channels.produced && MustArrive(x.message)
    ensures x in RunRouter(ROUTER_START, actions).value.taken
    ensures x.message.Notification? ==> x in RunRouter(ROUTER_START, actions).value.entered
  {
    hide RunRouter, LogInv;
    var s := RunRouter(ROUTER_START, actions).value;
    RouterStarts();
    RunKeepsRouter(ROUTER_START, actions);
    RouterDrains(actions);
    Picked(s.channels.produced, IsLossless, x);
    Picked(s.taken, IsLossless, x);
    Picked(s.channels.produced, IsLosslessNotification, x);
    Picked(s.entered, IsLosslessNotification, x);
  }

  /** No best-effort message is written while a lossless one waits: whatever came before it is out. */
  lemma LosslessIsWrittenFirst(actions: seq<WriterAction>)
    requires RunWriter(WRITER_START, actions).Some? && WriterEnabled(RunWriter(WRITER_START, actions).value, WriterPoll)
    ensures var s := RunWriter(WRITER_START, actions).value;
            var s' := WriterNext(s, WriterPoll);
            |s'.emitted| > |s.emitted| && IsBestEffort(s'.emitted[|s.emitted|]) ==>
              Pick(s.emitted, IsLossless) == Pick(s.channels.produced, IsLossless)
  {
    RunKeepsWriter(WRITER_START, actions);
  }

  function Polls(actions: seq<WriterAction>): nat {
    if actions == [] then 0 else (if actions[0].WriterPoll? then 1 else 0) + Polls(actions[1..])
  }

  lemma {:induction false} EmittedStays(s: Writer, actions: seq<WriterAction>)
    requires RunWriter(s, actions).Some?
    ensures s.emitted <= RunWriter(s, actions).value.emitted
    decreases |actions|
  {
    if actions != [] {
      EmittedStays(WriterNext(s, actions[0]), actions[1..]);
    }
  }

  /** A lossless message waits only for the lossless messages in front of it, whatever else is produced meanwhile. */
  lemma {:induction false} LosslessWaitsItsTurn(s: Writer, actions: seq<WriterAction>, i: nat)
    requires RunWriter(s, actions).Some? && i < |s.channels.lossless| && Polls(actions) > i
    ensures s.channels.lossless[i] in RunWriter(s, actions).value.emitted
    decreases |actions|
  {
    var next := WriterNext(s, actions[0]);
    if actions[0].WriterPoll? && i == 0 {
      EmittedStays(next, actions[1..]);
      assert next.emitted[|s.emitted|] == s.channels.lossless[0];
    } else if actions[0].WriterPoll? {
      LosslessWaitsItsTurn(next, actions[1..], i - 1);
    } else {
      LosslessWaitsItsTurn(next, actions[1..], i);
    }
  }

  lemma {:induction false} ClosedWriterRunsAreBounded(s: Writer, actions: seq<WriterAction>)
    requires s.channels.closed && RunWriter(s, actions).Some?
    ensures var s' := RunWriter(s, actions).value;
            && s'.channels.closed
            && |actions| + (if s'.ended then 0 else |s'.channels.lossless| + 1) <= if s.ended then 0 else |s.channels.lossless| + 1
    decreases |actions|
  {
    if actions != [] {
      ClosedWriterRunsAreBounded(WriterNext(s, actions[0]), actions[1..]);
    }
  }

  /** After the close the writer polls at most once per lossless message and once more, and can stop only when all are written. */
  lemma ClosedWriterFinishes(actions: seq<WriterAction>, rest: seq<WriterAction>)
    requires RunWriter(WRITER_START, actions).Some? && RunWriter(WRITER_START, actions).value.channels.closed
    requires RunWriter(RunWriter(WRITER_START, actions).value, rest).Some?
    ensures var s := RunWriter(WRITER_START, actions).value;
            var s' := RunWriter(s, rest).value;
            && |rest| <= |s.channels.lossless| + 1
            && ((forall a :: !WriterEnabled(s', a)) ==>
                  s'.ended && Pick(s'.emitted, IsLossless) == Pick(s'.channels.produced, IsLossless))
  {
    hide RunWriter, QueuesInv;
    var s := RunWriter(WRITER_START, actions).value;
    var s' := RunWriter(s, rest).value;
    WriterStarts();
    RunKeepsWriter(WRITER_START, actions);
    RunKeepsWriter(s, rest);
    ClosedWriterRunsAreBounded(s, rest);
    if forall a :: !WriterEnabled(s', a) {
      assert !WriterEnabled(s', WriterPoll);
    }
  }

  lemma WriterStarts()
    ensures WriterInv(WRITER_START)
  {
  }

  ghost predicate WriterRelaxed(s: Writer, actions: seq<WriterAction>)
    decreases |actions|
  {
    actions == [] ||
    (&& WriterEnabled(s, actions[0])
     && (actions[0].WriterProduce? ==> HasRoom(s.channels, actions[0].message))
     && WriterRelaxed(WriterNext(s, actions[0]), actions[1..]))
  }

  ghost predicate WriterDroppedNothing(s: Writer) {
    Pick(s.emitted, IsBestEffort) + s.channels.bestEffort == Pick(s.channels.produced, IsBestEffort)
  }

  lemma WriterPollDropsNothing(s: Writer)
    requires WriterInv(s) && WriterDroppedNothing(s) && WriterEnabled(s, WriterPoll)
    ensures WriterDroppedNothing(WriterNext(s, WriterPoll))
  {
    var c := s.channels;
    if c.lossless != [] {
      PickSnoc(s.emitted, c.lossless[0], IsBestEffort);
    } else if !c.closed {
      PickSnoc(s.emitted, c.bestEffort[0], IsBestEffort);
      HeadMoves(Pick(s.emitted, IsBestEffort), c.bestEffort);
    }
  }

  lemma {:induction false} RelaxedWriterDropsNothing(s: Writer, actions: seq<WriterAction>)
    requires WriterInv(s) && WriterDroppedNothing(s) && RunWriter(s, actions).Some? && WriterRelaxed(s, actions)
    ensures WriterDroppedNothing(RunWriter(s, actions).value)
    decreases |actions|
  {
    if actions != [] {
      NextKeepsWriter(s, actions[0]);
      match actions[0] {
        case WriterProduce(m) => SendingDropsNothing(s.channels, m, s.emitted);
        case WriterClose =>
        case WriterPoll => WriterPollDropsNothing(s);
      }
      RelaxedWriterDropsNothing(WriterNext(s, actions[0]), actions[1..]);
    }
  }

  /** Once the sink is closed the writer takes no best-effort message any more. */
  lemma {:induction false} ClosedWriterLeavesDeltas(s: Writer, actions: seq<WriterAction>)
    requires WriterInv(s) && s.channels.closed && RunWriter(s, actions).Some?
    ensures var s' := RunWriter(s, actions).value;
            && s'.channels.bestEffort == s.channels.bestEffort && s'.channels.produced == s.channels.produced
            && Pick(s'.emitted, IsBestEffort) == Pick(s.emitted, IsBestEffort)
    decreases |actions|
  {
    if actions != [] {
      NextKeepsWriter(s, actions[0]);
      if s.channels.lossless != [] {
        PickSnoc(s.emitted, s.channels.lossless[0], IsBestEffort);
      }
      ClosedWriterLeavesDeltas(WriterNext(s, actions[0]), actions[1..]);
    }
  }

  /**
   When the sink closes, the writer loses exactly the best-effort messages that are queued at
   that moment: if none was refused before, everything is written if and only if none is queued.
   */
  lemma CloseLosesExactlyTheQueue(before: seq<WriterAction>, after: seq<WriterAction>)
    requires RunWriter(WRITER_START, before).Some? && WriterRelaxed(WRITER_START, before)
    requires var s := RunWriter(WRITER_START, before).value;
             WriterEnabled(s, WriterClose) && RunWriter(WriterNext(s, WriterClose), after).Some?
    ensures var s := RunWriter(WRITER_START, before).value;
            var s' := RunWriter(WriterNext(s, WriterClose), after).value;
            && Pick(s'.emitted, IsBestEffort) + s.channels.bestEffort == Pick(s'.channels.produced, IsBestEffort)
            && (Pick(s'.emitted, IsBestEffort) == Pick(s'.channels.produced, IsBestEffort) <==> s.channels.bestEffort == [])
  {
    var s := RunWriter(WRITER_START, before).value;
    RunKeepsWriter(WRITER_START, before);
    RelaxedWriterDropsNothing(WRITER_START, before);
    NextKeepsWriter(s, WriterClose);
    ClosedWriterLeavesDeltas(WriterNext(s, WriterClose), after);
  }

  /** A delta still queued when the sink closes is not written: closing wins over the best-effort branch. */
  lemma CloseDropsQueuedDelta(body: string)
    ensures var actions := [WriterProduce(Notification(body, false)), WriterClose, WriterPoll];
            && RunWriter(WRITER_START, actions).Some?
            && var s := RunWriter(WRITER_START, actions).value;
               s.ended && s.emitted == [] && s.channels.produced == [Item(0, Notification(body, false))]
  {
    var a := WriterNext(WRITER_START, WriterProduce(Notification(body, false)));
    var b := WriterNext(a, WriterClose);
    var c := WriterNext(b, WriterPoll);
    assert RunWriter(c, []) == Some(c);
    assert RunWriter(b, [WriterPoll]) == Some(c);
    assert [WriterClose, WriterPoll][1..] == [WriterPoll];
    assert RunWriter(a, [WriterClose, WriterPoll]) == Some(c);
    var actions := [WriterProduce(Notification(body, false)), WriterClose, WriterPoll];
    assert actions[1..] == [WriterClose, WriterPoll];
  }
}
