/**
 Forwarding the progress events of a background task from a bounded broadcast ring, and the
 resynchronization of a consumer that the ring has overrun: skip the backlog, then send a fresh
 snapshot.
 */
module BroadcastResync {
  import opened Wrappers

  // ----- One receiver of the ring, and the drain -----

  datatype TryRecv<+E> = Received(event: E) | Lagged(missed: nat) | Empty | Closed

  datatype BacklogDrain = Drained | SenderClosed

  /** The ring keeps the last `capacity` events; a cursor that falls behind them has lagged. */
  class BroadcastReceiver<E> {
    const capacity: nat
    var published: seq<E>
    var cursor: nat
    var closed: bool

    ghost predicate Valid()
      reads this
    {
      capacity > 0 && cursor <= |published|
    }

    constructor (capacity: nat)
      requires capacity > 0
      ensures Valid() && this.capacity == capacity && published == [] && cursor == 0 && !closed
    {
      this.capacity := capacity;
      published, cursor, closed := [], 0, false;
    }

    method TryRecv() returns (r: TryRecv<E>)
      requires Valid()
      modifies this`cursor
      ensures Valid() && old(cursor) <= cursor
      ensures r.Empty? <==> old(cursor) == |published| && !closed
      ensures r.Closed? <==> old(cursor) == |published| && closed
      ensures r.Lagged? <==> old(cursor) + capacity < |published|
      ensures match r
              case Received(event) => cursor == old(cursor) + 1 && event == published[old(cursor)]
              case Lagged(missed) => cursor == |published| - capacity && missed == cursor - old(cursor)
              case _ => cursor == old(cursor)
    {
      if cursor + capacity < |published| {
        var missed := |published| - capacity - cursor;
        cursor := |published| - capacity;
        r := Lagged(missed);
      } else if cursor < |published| {
        cursor := cursor + 1;
        r := Received(published[cursor - 1]);
      } else {
        r := if closed then Closed else Empty;
      }
    }

    /** With the sender quiet the drain ends at the tail, whatever it skips over. */
    method DrainBroadcastBacklog() returns (r: BacklogDrain)
      requires Valid()
      modifies this`cursor
      ensures Valid() && cursor == |published|
      ensures r == if closed then SenderClosed else Drained
    {
      while true
        invariant Valid()
        decreases |published| - cursor
      {
        var next := TryRecv();
        match next {
          case Received(_) =>
          case Lagged(_) =>
          case Empty => return Drained;
          case Closed => return SenderClosed;
        }
      }
    }
  }

  // ----- The forwarding task against a live sender -----

  /** What the consumer is sent: an event by its position, or a snapshot taken after a drain. */
  datatype Output = Forwarded(position: nat) | Resynced(drainedAt: nat)

  datatype Phase = Receiving | Draining | Resyncing | Stopped

  /**
   Positions count published events from the start of the ring; the forwarder subscribed at `start`.
   Two histories: `lagAt` is the cursor at which the last lag was noticed, and `lost` holds the
   positions skipped by drains whose snapshot could not be read, up to the next one that could.
   */
  datatype Task = Task(
    capacity: nat,
    start: nat,
    tail: nat,
    closed: bool,
    cursor: nat,
    phase: Phase,
    consumerGone: bool,
    outputs: seq<Output>,
    lagAt: nat,
    lost: set<nat>)

  /** `Snapshot(read)` tells whether the job detail could be read. */
  datatype Action = Publish | CloseSender | HangUp | Receive | DrainNext | Snapshot(read: bool)

  function Subscribed(capacity: nat, start: nat): Task {
    Task(capacity, start, start, false, start, Receiving, false, [], start, {})
  }

  predicate Enabled(s: Task, a: Action) {
    match a
    case Publish => !s.closed
    case CloseSender => !s.closed
    case HangUp => !s.consumerGone
    case Receive => s.phase.Receiving? && (s.cursor < s.tail || s.closed)
    case DrainNext => s.phase.Draining?
    case Snapshot(_) => s.phase.Resyncing?
  }

  predicate Lagging(s: Task) {
    s.cursor + s.capacity < s.tail
  }

  function Positions(from: nat, to: nat): (r: set<nat>)
    ensures forall q: nat :: q in r <==> from <= q < to
  {
    if from >= to then {} else Positions(from, to - 1) + {to - 1}
  }

  /** A send to a consumer that is gone ends the forwarder. */
  function Send(s: Task, o: Output): Task {
    if s.consumerGone then s.(phase := Stopped) else s.(outputs := s.outputs + [o], phase := Receiving)
  }

  function Next(s: Task, a: Action): Task
    requires Enabled(s, a)
  {
    match a
    case Publish => s.(tail := s.tail + 1)
    case CloseSender => s.(closed := true)
    case HangUp => s.(consumerGone := true)
    case Receive =>
      if Lagging(s) then s.(cursor := s.tail - s.capacity, phase := Draining, lagAt := s.cursor)
      else if s.cursor < s.tail then Send(s.(cursor := s.cursor + 1), Forwarded(s.cursor))
      else s.(phase := Stopped)
    case DrainNext =>
      if Lagging(s) then s.(cursor := s.tail - s.capacity)
      else if s.cursor < s.tail then s.(cursor := s.cursor + 1)
      else s.(phase := if s.closed then Stopped else Resyncing)
    case Snapshot(read) =>
      if read then Send(s.(lost := if s.consumerGone then s.lost else {}), Resynced(s.cursor))
      else s.(lost := s.lost + Positions(s.lagAt, s.cursor), phase := Receiving)
  }

  function Run(s: Task, actions: seq<Action>): (r: Option<Task>)
    decreases |actions|
  {
    if actions == [] then Some(s)
    else if Enabled(s, actions[0]) then Run(Next(s, actions[0]), actions[1..])
    else None
  }

  // ----- What every reachable state keeps -----

  /** The positions that an output stands for start here; a snapshot stands for none of its own. */
  function Low(o: Output): nat {
    if o.Forwarded? then o.position else o.drainedAt
  }

  function High(o: Output): nat {
    if o.Forwarded? then o.position + 1 else o.drainedAt
  }

  /** Later outputs speak of later positions: no event is repeated, reordered, or older than a snapshot before it. */
  predicate Monotone(outputs: seq<Output>) {
    forall i, j :: 0 <= i < j < |outputs| ==> High(outputs[i]) <= Low(outputs[j])
  }

  /** The consumer has been told of position q: by its event, or by a snapshot taken after it. */
  ghost predicate Told(outputs: seq<Output>, q: nat) {
    exists i :: 0 <= i < |outputs| && (outputs[i] == Forwarded(q) || (outputs[i].Resynced? && q < outputs[i].drainedAt))
  }

  /** The first position that no output can have spoken of yet. */
  function Front(s: Task): nat {
    if s.phase.Draining? || s.phase.Resyncing? then s.lagAt else s.cursor
  }

  /** While the consumer stays, exactly the lost positions in front of the given one are untold. */
  ghost predicate ToldUpTo(s: Task, front: nat) {
    forall q: nat :: s.start <= q < front ==> (Told(s.outputs, q) <==> q !in s.lost)
  }

  ghost predicate Inv(s: Task) {
    && s.start <= Front(s) <= s.cursor <= s.tail
    && (s.phase.Draining? || s.phase.Resyncing? ==> s.lagAt < s.cursor)
    && (s.phase.Stopped? ==> s.closed || s.consumerGone)
    && Monotone(s.outputs)
    && (forall i :: 0 <= i < |s.outputs| ==> High(s.outputs[i]) <= Front(s))
    && (forall q :: q in s.lost ==> s.start <= q < Front(s))
    && (!s.phase.Stopped? ==> ToldUpTo(s, Front(s)))
  }

  lemma UntoldAhead(s: Task, q: nat)
    requires Inv(s) && q >= Front(s)
    ensures !Told(s.outputs, q)
  {
  }

  lemma ToldStays(outputs: seq<Output>, o: Output, q: nat)
    ensures Told(outputs + [o], q) <==> Told(outputs, q) || o == Forwarded(q) || (o.Resynced? && q < o.drainedAt)
  {
    var more := outputs + [o];
    assert more[|outputs|] == o;
    assert forall i :: 0 <= i < |outputs| ==> more[i] == outputs[i];
  }

  lemma ForwardingKeepsInv(s: Task)
    requires Inv(s) && Enabled(s, Receive) && !Lagging(s) && s.cursor < s.tail
    ensures Inv(Next(s, Receive))
  {
    forall q { ToldStays(s.outputs, Forwarded(s.cursor), q); }
    UntoldAhead(s, s.cursor);
  }

  lemma SnapshotKeepsInv(s: Task, read: bool)
    requires Inv(s) && Enabled(s, Snapshot(read))
    ensures Inv(Next(s, Snapshot(read)))
  {
    forall q { ToldStays(s.outputs, Resynced(s.cursor), q); }
    forall q: nat | q >= Front(s) ensures !Told(s.outputs, q) { UntoldAhead(s, q); }
  }

  lemma NextKeepsInv(s: Task, a: Action)
    requires Inv(s) && Enabled(s, a)
    ensures Inv(Next(s, a))
  {
    if a.Snapshot? {
      SnapshotKeepsInv(s, a.read);
    } else if a.Receive? && !Lagging(s) && s.cursor < s.tail {
      ForwardingKeepsInv(s);
    }
  }

  lemma {:induction false} RunKeepsInv(s: Task, actions: seq<Action>)
    requires Inv(s) && Run(s, actions).Some?
    ensures Inv(Run(s, actions).value)
    decreases |actions|
  {
    if actions != [] {
      NextKeepsInv(s, actions[0]);
      RunKeepsInv(Next(s, actions[0]), actions[1..]);
    }
  }

  /**
   In every run: forwarded positions strictly increase, no event published before a drain
   finished is forwarded after the snapshot that followed it, and while the forwarder waits for
   the next event the consumer has been told of exactly the positions behind the cursor that
   were not lost with an unread snapshot.
   */
  lemma ForwardingIsInOrderAndComplete(capacity: nat, start: nat, actions: seq<Action>)
    requires capacity > 0 && Run(Subscribed(capacity, start), actions).Some?
    ensures var s := Run(Subscribed(capacity, start), actions).value;
            && (forall i, j :: 0 <= i < j < |s.outputs| && s.outputs[j].Forwarded? ==>
                  if s.outputs[i].Forwarded? then s.outputs[i].position < s.outputs[j].position
                  else s.outputs[i].drainedAt <= s.outputs[j].position)
            && (s.phase.Receiving? ==> forall q: nat :: s.start <= q < s.cursor ==> (Told(s.outputs, q) <==> q !in s.lost))
  {
    RunKeepsInv(Subscribed(capacity, start), actions);
  }

  /** The forwarder never finds that the ring has overrun it. */
  ghost predicate KeepsUp(s: Task, actions: seq<Action>)
    decreases |actions|
  {
    actions == [] ||
    (Enabled(s, actions[0]) && (actions[0].Receive? ==> !Lagging(s)) && KeepsUp(Next(s, actions[0]), actions[1..]))
  }

  ghost predicate ForwardedAll(s: Task) {
    && !s.phase.Draining? && !s.phase.Resyncing? && s.start + |s.outputs| == s.cursor
    && forall i :: 0 <= i < |s.outputs| ==> s.outputs[i] == Forwarded(s.start + i)
  }

  lemma {:induction false} RunForwardsAll(s: Task, actions: seq<Action>)
    requires ForwardedAll(s) && !s.consumerGone && Run(s, actions).Some? && KeepsUp(s, actions) && HangUp !in actions
    ensures ForwardedAll(Run(s, actions).value)
    decreases |actions|
  {
    if actions != [] {
      RunForwardsAll(Next(s, actions[0]), actions[1..]);
    }
  }

  /** A forwarder that keeps up sends every event, one by one and in order, and never a snapshot. */
  lemma KeepingUpForwardsEveryEvent(capacity: nat, start: nat, actions: seq<Action>)
    requires Run(Subscribed(capacity, start), actions).Some? && KeepsUp(Subscribed(capacity, start), actions)
    requires HangUp !in actions
    ensures var s := Run(Subscribed(capacity, start), actions).value;
            && start + |s.outputs| == s.cursor
            && (forall i :: 0 <= i < |s.outputs| ==> s.outputs[i] == Forwarded(start + i))
            && (s.phase.Stopped? ==> s.closed && s.cursor == s.tail)
  {
    RunForwardsAll(Subscribed(capacity, start), actions);
    StopsAtTail(Subscribed(capacity, start), actions);
  }

  lemma {:induction false} StopsAtTail(s: Task, actions: seq<Action>)
    requires s.cursor <= s.tail && (s.phase.Stopped? ==> s.closed && s.cursor == s.tail)
    requires !s.consumerGone && Run(s, actions).Some? && HangUp !in actions
    ensures var s' := Run(s, actions).value; s'.start == s.start && (s'.phase.Stopped? ==> s'.closed && s'.cursor == s'.tail)
    decreases |actions|
  {
    if actions != [] {
      StopsAtTail(Next(s, actions[0]), actions[1..]);
    }
  }

  /** A consumer that is gone is sent nothing, and the first send that is tried for it ends the forwarder. */
  lemma {:induction false} GoneConsumerEndsForwarding(s: Task, actions: seq<Action>)
    requires s.consumerGone && Run(s, actions).Some?
    ensures var s' := Run(s, actions).value;
            && s'.outputs == s.outputs
            && (Enabled(s', Snapshot(true)) ==> Next(s', Snapshot(true)).phase.Stopped?)
            && (Enabled(s', Receive) && !Lagging(s') ==> Next(s', Receive).phase.Stopped?)
    decreases |actions|
  {
    if actions != [] {
      GoneConsumerEndsForwarding(Next(s, actions[0]), actions[1..]);
    }
  }

  // ----- When the sender closes -----

  /** Draining to a closed end stops the forwarder without a snapshot. */
  predicate Doomed(s: Task) {
    s.closed && ((s.phase.Receiving? && Lagging(s)) || s.phase.Draining? || s.phase.Stopped?)
  }

  lemma {:induction false} DoomedTellsNothing(s: Task, actions: seq<Action>)
    requires Doomed(s) && Run(s, actions).Some?
    ensures var s' := Run(s, actions).value; Doomed(s') && s'.outputs == s.outputs && s'.lost == s.lost
    decreases |actions|
  {
    if actions != [] {
      DoomedTellsNothing(Next(s, actions[0]), actions[1..]);
    }
  }

  /** Nothing stands between the forwarder and the tail but events the ring still holds. */
  predicate Current(s: Task) {
    s.closed && !s.consumerGone && !Lagging(s) && !s.phase.Draining? && (s.phase.Stopped? ==> s.cursor == s.tail)
  }

  /** The forwarder has told all it could before it stopped. */
  ghost predicate Complete(s: Task) {
    Inv(s) && (s.phase.Stopped? ==> ToldUpTo(s, s.cursor))
  }

  lemma {:induction false} CurrentStaysCurrent(s: Task, actions: seq<Action>)
    requires Current(s) && Complete(s) && Run(s, actions).Some? && HangUp !in actions
    ensures Current(Run(s, actions).value) && ToldUpTo(Run(s, actions).value, Front(Run(s, actions).value))
    decreases |actions|
  {
    if actions != [] {
      NextKeepsInv(s, actions[0]);
      CurrentStaysCurrent(Next(s, actions[0]), actions[1..]);
    }
  }

  lemma {:induction false} ClosedRunKeepsRing(s: Task, actions: seq<Action>)
    requires s.closed && Run(s, actions).Some? && HangUp !in actions
    ensures var s' := Run(s, actions).value;
            s'.closed && s'.tail == s.tail && s'.start == s.start && s'.consumerGone == s.consumerGone
    decreases |actions|
  {
    if actions != [] {
      ClosedRunKeepsRing(Next(s, actions[0]), actions[1..]);
    }
  }

  /** The forwarder has skipped events, or has to before it reaches the tail. */
  predicate Behind(s: Task) {
    s.phase.Draining? || Lagging(s)
  }

  lemma BehindLeavesGap(s: Task, actions: seq<Action>)
    requires Inv(s) && s.closed && !s.consumerGone && !s.phase.Stopped? && Behind(s)
    requires Run(s, actions).Some? && HangUp !in actions && Run(s, actions).value.phase.Stopped?
    ensures var s' := Run(s, actions).value;
            exists q: nat :: s.start <= q < s.tail && q !in s'.lost && !Told(s'.outputs, q)
  {
    var s' := Run(s, actions).value;
    if s.phase.Resyncing? {
      var next := Next(s, actions[0]);
      NextKeepsInv(s, actions[0]);
      DoomedTellsNothing(next, actions[1..]);
      UntoldAhead(next, s.cursor);
      assert s.start <= s.cursor < s.tail && s.cursor !in s'.lost && !Told(s'.outputs, s.cursor);
    } else {
      DoomedTellsNothing(s, actions);
      UntoldAhead(s, Front(s));
      assert s.start <= Front(s) < s.tail && Front(s) !in s'.lost && !Told(s'.outputs, Front(s));
    }
  }

  /**
   In every run in which the sender closes and the consumer stays to the end, the consumer is
   told of every event, up to those lost with an unread snapshot, if and only if at the close the
   forwarder was neither draining nor lagging. One that is behind drains to the closed end and
   stops without the snapshot.
   */
  lemma CloseIsCompleteUnlessBehind(capacity: nat, start: nat, before: seq<Action>, after: seq<Action>)
    requires capacity > 0 && Run(Subscribed(capacity, start), before).Some?
    requires var s := Run(Subscribed(capacity, start), before).value;
             && Enabled(s, CloseSender) && !s.consumerGone
             && Run(Next(s, CloseSender), after).Some? && HangUp !in after
             && Run(Next(s, CloseSender), after).value.phase.Stopped?
    ensures var s := Run(Subscribed(capacity, start), before).value;
            var end := Run(Next(s, CloseSender), after).value;
            (forall q: nat :: s.start <= q < s.tail && q !in end.lost ==> Told(end.outputs, q)) <==> !Behind(s)
  {
    var s := Run(Subscribed(capacity, start), before).value;
    RunKeepsInv(Subscribed(capacity, start), before);
    NextKeepsInv(s, CloseSender);
    var closed := Next(s, CloseSender);
    ClosedRunKeepsRing(closed, after);
    if Behind(s) {
      BehindLeavesGap(closed, after);
    } else {
      CurrentStaysCurrent(closed, after);
    }
  }

  // ----- After the close the forwarder stops, so the gap is real -----

  function StepsLeft(s: Task): nat {
    if s.phase.Stopped? then 0
    else (if s.cursor < s.tail then s.tail - s.cursor else 0) + (if s.phase.Resyncing? then 2 else 1)
  }

  /** A closed run in which the consumer stays takes a bounded number of steps. */
  lemma {:induction false} ClosedRunsAreBounded(s: Task, actions: seq<Action>)
    requires s.capacity > 0 && s.closed && Run(s, actions).Some? && HangUp !in actions
    ensures |actions| + StepsLeft(Run(s, actions).value) <= StepsLeft(s)
    decreases |actions|
  {
    if actions != [] {
      ClosedRunsAreBounded(Next(s, actions[0]), actions[1..]);
    }
  }

  /** From every closed state the forwarder alone can reach its stop. */
  lemma {:induction false} ClosedRunReachesStop(s: Task) returns (actions: seq<Action>)
    requires Inv(s) && s.capacity > 0 && s.closed
    ensures Run(s, actions).Some? && HangUp !in actions && Run(s, actions).value.phase.Stopped?
    decreases StepsLeft(s)
  {
    if s.phase.Stopped? {
      actions := [];
    } else {
      var a := if s.phase.Receiving? then Receive else if s.phase.Draining? then DrainNext else Snapshot(true);
      NextKeepsInv(s, a);
      var rest := ClosedRunReachesStop(Next(s, a));
      actions := [a] + rest;
      assert actions[1..] == rest;
    }
  }

  lemma {:induction false} PublishRun(s: Task, n: nat) returns (actions: seq<Action>)
    requires !s.closed
    ensures Run(s, actions) == Some(s.(tail := s.tail + n)) && |actions| == n
    decreases n
  {
    if n == 0 {
      actions := [];
    } else {
      var rest := PublishRun(Next(s, Publish), n - 1);
      actions := [Publish] + rest;
      assert actions[1..] == rest;
    }
  }

  /** For every capacity a burst that overruns the ring just before the close leaves events untold. */
  lemma OverrunAtCloseLosesEvents(capacity: nat, start: nat) returns (before: seq<Action>, after: seq<Action>)
    requires capacity > 0
    ensures Run(Subscribed(capacity, start), before).Some?
    ensures var s := Run(Subscribed(capacity, start), before).value;
            && Enabled(s, CloseSender) && !s.consumerGone
            && Run(Next(s, CloseSender), after).Some? && HangUp !in after
            && var end := Run(Next(s, CloseSender), after).value;
            && end.phase.Stopped? && end.lost == {} && end.outputs == []
            && s.tail == start + capacity + 1
  {
    before := PublishRun(Subscribed(capacity, start), capacity + 1);
    RunKeepsInv(Subscribed(capacity, start), before);
    var closed := Next(Run(Subscribed(capacity, start), before).value, CloseSender);
    after := ClosedRunReachesStop(closed);
    DoomedTellsNothing(closed, after);
  }

  /** The same happens when the sender closes while the forwarder drains, with nothing left to skip. */
  lemma CloseDuringDrainLosesEvents()
    ensures var before, after := [Publish, Publish, Receive], [DrainNext, DrainNext];
            && Run(Subscribed(1, 0), before).Some?
            && var s := Run(Subscribed(1, 0), before).value;
            && Enabled(s, CloseSender) && !Lagging(s) && s.phase.Draining? && s.tail == 2
            && Run(Next(s, CloseSender), after).Some?
            && var end := Run(Next(s, CloseSender), after).value;
               end.phase.Stopped? && end.lost == {} && end.outputs == []
  {
    var s0 := Subscribed(1, 0);
    var s1 := Next(s0, Publish);
    var s2 := Next(s1, Publish);
    var s3 := Next(s2, Receive);
    RunThree(s0, Publish, Publish, Receive);
    var c0 := Next(s3, CloseSender);
    var c1 := Next(c0, DrainNext);
    RunThree(s3, CloseSender, DrainNext, DrainNext);
    assert [DrainNext, DrainNext][1..] == [DrainNext];
    assert Run(Next(c1, DrainNext), [DrainNext][1..]) == Some(Next(c1, DrainNext));
    assert Run(c1, [DrainNext]) == Some(Next(c1, DrainNext));
  }

  lemma RunThree(s: Task, a: Action, b: Action, c: Action)
    requires Enabled(s, a) && Enabled(Next(s, a), b) && Enabled(Next(Next(s, a), b), c)
    ensures Run(s, [a, b, c]) == Some(Next(Next(Next(s, a), b), c))
  {
    assert [a, b, c][1..] == [b, c] && [b, c][1..] == [c] && [c][1..] == [];
    assert Run(Next(Next(Next(s, a), b), c), []) == Some(Next(Next(Next(s, a), b), c));
    assert Run(Next(Next(s, a), b), [c]) == Some(Next(Next(Next(s, a), b), c));
    assert Run(Next(s, a), [b, c]) == Some(Next(Next(Next(s, a), b), c));
  }
}
