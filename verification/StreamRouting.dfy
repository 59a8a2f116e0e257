/**
 Delivery of stream events to the consumer of a subscription.

 One router task sends each event either straight to the consumer (when a route is installed)
 or into a buffer; a registrar task per subscription drains the buffer and installs the route.
 The tables sit behind two locks, always taken in the order routes, pending.

 Here the two bodies are methods of a mutable object, with the functions that specify them; the
 module StreamMachine splits them into single steps that interleave arbitrarily.
 */
module StreamRouting {
  import opened Wrappers

  type Id = string

  datatype StreamEvent =
    | TurnFinished
    | TurnCancelled
    | Error(message: string)
    | Budget(blocked: bool)
    | BackgroundTaskUpdated(task: string, active: bool)
    | Other(tag: nat)
  {
    predicate IsTerminal() {
      TurnFinished? || TurnCancelled? || Error? || (Budget? && blocked)
    }

    predicate IsBackgroundTerminal() {
      BackgroundTaskUpdated? && !active
    }
  }

  type Events = seq<StreamEvent>

  /** The test made on an event that goes through the buffer: one notion of "terminal" only. */
  predicate DrainCloses(closeOnBackground: bool, e: StreamEvent) {
    if closeOnBackground then e.IsBackgroundTerminal() else e.IsTerminal()
  }

  /** The test made on an event that is sent live: a turn-terminal event always closes. */
  predicate LiveCloses(closeOnBackground: bool, e: StreamEvent) {
    e.IsTerminal() || (closeOnBackground && e.IsBackgroundTerminal())
  }

  /** Some event of `log` closes the stream, the first `drained` of them having been drained. */
  ghost predicate Closed(closeOnBackground: bool, drained: nat, log: Events) {
    exists i :: 0 <= i < |log| &&
      if i < drained then DrainCloses(closeOnBackground, log[i]) else LiveCloses(closeOnBackground, log[i])
  }

  ghost predicate HasTurnTerminal(log: Events) { exists i :: 0 <= i < |log| && log[i].IsTerminal() }

  ghost predicate HasBackgroundTerminal(log: Events) { exists i :: 0 <= i < |log| && log[i].IsBackgroundTerminal() }

  function At(m: map<Id, Events>, id: Id): Events {
    if id in m then m[id] else []
  }

  function Extend(m: map<Id, Events>, id: Id, es: Events): map<Id, Events> {
    if es == [] then m else m[id := At(m, id) + es]
  }

  /** What the two locks protect, and what the consumers' channels have received. */
  datatype Tables = Tables(routes: map<Id, bool>, pending: map<Id, Events>, channel: map<Id, Events>)

  // ----- The two bodies, run without interruption -----

  /** The tables after the router has handled one event; `alive` says whether the receiver exists. */
  ghost function Routed(t: Tables, id: Id, e: StreamEvent, alive: bool): Tables {
    if id in t.routes then
      var sent := if alive then t.(channel := Extend(t.channel, id, [e])) else t;
      if !alive || LiveCloses(t.routes[id], e) then sent.(routes := sent.routes - {id}) else sent
    else
      t.(pending := Extend(t.pending, id, [e]))
  }

  /** The tables after a registration. A dead receiver ends it at the first buffered event. */
  ghost function Registered(t: Tables, id: Id, closeOnBackground: bool, alive: bool): Tables {
    var queue := At(t.pending, id);
    var taken := t.(pending := t.pending - {id});
    if queue != [] && !alive then taken
    else
      var sent := taken.(channel := Extend(t.channel, id, queue));
      if Closed(closeOnBackground, |queue|, queue) then sent
      else sent.(routes := t.routes[id := closeOnBackground])
  }

  class StreamRouter {
    var routes: map<Id, bool>
    var pending: map<Id, Events>
    var channel: map<Id, Events>
    var receivers: set<Id>

    constructor ()
      ensures Contents() == Tables(map[], map[], map[]) && receivers == {}
    {
      routes, pending, channel, receivers := map[], map[], map[], {};
    }

    ghost function Contents(): Tables
      reads this
    {
      Tables(routes, pending, channel)
    }

    method Send(id: Id, event: StreamEvent) returns (ok: bool)
      modifies this`channel
      ensures ok == (id in receivers)
      ensures channel == if ok then Extend(old(channel), id, [event]) else old(channel)
    {
      ok := id in receivers;
      if ok {
        channel := channel[id := At(channel, id) + [event]];
      }
    }

    method RouteStreamEvent(id: Id, event: StreamEvent)
      modifies this`routes, this`pending, this`channel
      ensures Contents() == Routed(old(Contents()), id, event, id in receivers)
      ensures id in old(routes) && id in receivers ==>
                (id in routes <==> !event.IsTerminal() && !(old(routes)[id] && event.IsBackgroundTerminal()))
      ensures id !in old(routes) || id !in receivers ==> id !in routes
      ensures id in old(routes) && id in receivers ==> At(channel, id) == At(old(channel), id) + [event]
      ensures id !in old(routes) ==> At(pending, id) == At(old(pending), id) + [event]
    {
      if id in routes {
        var isTerminal := event.IsTerminal() || (routes[id] && event.IsBackgroundTerminal());
        var ok := Send(id, event);
        if !ok || isTerminal {
          routes := routes - {id};
        }
        return;
      }
      pending := pending[id := At(pending, id) + [event]];
    }

    method RegisterStreamRoute(id: Id, closeOnBackground: bool)
      modifies this`routes, this`pending, this`channel
      ensures Contents() == Registered(old(Contents()), id, closeOnBackground, id in receivers)
      ensures id !in pending
      ensures var queue := At(old(pending), id);
              if queue != [] && id !in receivers then routes == old(routes) && channel == old(channel)
              else
                && At(channel, id) == At(old(channel), id) + queue
                && (id !in old(routes) ==>
                      (id in routes <==>
                       if closeOnBackground then forall e :: e in queue ==> !e.IsBackgroundTerminal()
                       else forall e :: e in queue ==> !e.IsTerminal()))
                && (id !in old(routes) && id in routes ==> routes[id] == closeOnBackground)
    {
      var terminalSeen := false;
      ghost var all := At(pending, id);
      if id in pending {
        var queue := pending[id];
        pending := pending - {id};
        ghost var done: Events := [];
        while queue != []
          invariant all == done + queue
          invariant done == [] || id in receivers
          invariant channel == Extend(old(channel), id, done)
          invariant pending == old(pending) - {id} && routes == old(routes)
          invariant terminalSeen == Closed(closeOnBackground, |done|, done)
          decreases |queue|
        {
          var event := queue[0];
          ClosedSnoc(closeOnBackground, |done|, done, event);
          ClosedSnoc(closeOnBackground, |done| + 1, done, event);
          queue := queue[1..];
          terminalSeen := terminalSeen || (if closeOnBackground then event.IsBackgroundTerminal() else event.IsTerminal());
          var ok := Send(id, event);
          if !ok {
            return;
          }
          ExtendTwice(old(channel), id, done, [event]);
          done := done + [event];
        }
        assert done == all;
      } else {
        assert pending == pending - {id};
      }
      if !terminalSeen {
        routes := routes[id := closeOnBackground];
      }
    }
  }

  lemma ExtendTwice(m: map<Id, Events>, id: Id, a: Events, b: Events)
    ensures Extend(Extend(m, id, a), id, b) == Extend(m, id, a + b)
  {
    assert At(m, id) + a + b == At(m, id) + (a + b);
    if a == [] || b == [] {
      assert a + b == if a == [] then b else a;
    }
  }

  // ----- Facts about closing -----

  lemma ClosedSnoc(closeOnBackground: bool, drained: nat, log: Events, e: StreamEvent)
    ensures Closed(closeOnBackground, drained, log + [e]) <==>
              Closed(closeOnBackground, drained, log) ||
              (if |log| < drained then DrainCloses(closeOnBackground, e) else LiveCloses(closeOnBackground, e))
    ensures drained >= |log| ==> Closed(closeOnBackground, drained, log) == Closed(closeOnBackground, |log|, log)
  {
    var next := log + [e];
    assert next[|log|] == e;
    assert forall i :: 0 <= i < |log| ==> next[i] == log[i];
  }

  /** A turn subscription closes on exactly the same events whether they are drained or sent live. */
  lemma TurnClosingIgnoresTiming(drained: nat, log: Events)
    ensures Closed(false, drained, log) <==> HasTurnTerminal(log)
  {
  }

  /** What closes a background stream, of the drained events and of those sent live. */
  lemma BackgroundClosesOn(drained: nat, log: Events)
    requires drained <= |log|
    ensures !Closed(true, drained, log) <==>
              && (forall i :: 0 <= i < drained ==> !log[i].IsBackgroundTerminal())
              && (forall i :: drained <= i < |log| ==> !log[i].IsTerminal() && !log[i].IsBackgroundTerminal())
  {
    if Closed(true, drained, log) {
      var i :| 0 <= i < |log| && if i < drained then DrainCloses(true, log[i]) else LiveCloses(true, log[i]);
      assert i < drained ==> log[i].IsBackgroundTerminal();
    } else {
      forall i: nat | i < |log| ensures !(if i < drained then DrainCloses(true, log[i]) else LiveCloses(true, log[i])) {
      }
    }
  }

  /**
   A background subscription does not: the outcome is the same for every number of drained
   events exactly when a turn-terminal event never comes without a background-terminal one.
   */
  lemma BackgroundClosingDependsOnTiming(log: Events)
    ensures (forall n: nat :: n <= |log| ==> Closed(true, n, log) == Closed(true, 0, log)) <==>
            (HasTurnTerminal(log) ==> HasBackgroundTerminal(log))
  {
    if HasBackgroundTerminal(log) {
      var i :| 0 <= i < |log| && log[i].IsBackgroundTerminal();
      forall n: nat ensures Closed(true, n, log) {
        assert DrainCloses(true, log[i]) && LiveCloses(true, log[i]);
      }
    } else if HasTurnTerminal(log) {
      var i :| 0 <= i < |log| && log[i].IsTerminal();
      assert LiveCloses(true, log[i]);
      assert Closed(true, 0, log) && !Closed(true, |log|, log);
    }
  }
}
