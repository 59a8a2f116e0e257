/**
 What every interleaving of the router and the registrars keeps, that the uninterrupted bodies are
 runs of the machine, and where the outcome depends on timing.
 */
module StreamInterleaving {
  import opened Wrappers
  import opened StreamMachine
  import opened StreamRouting

  lemma NextKeepsInv(s: State, a: Action)
    requires Inv(s) && Enabled(s, a)
    ensures Inv(Next(s, a))
  {
    hide RouterStep, RegistrarStep, Conserved, RouteInv, TaskInv, LocksExact, RouterFacts, SameFor;
    var s' := Next(s, a);
    match a
    case RouterMoves =>
      RouterKeepsRoutesLock(s);
      RouterKeepsPendingLock(s);
      RouterKeepsFacts(s);
      forall i ensures IdInv(s', i) {
        assert IdInv(s, i);
        RouterKeepsConserved(s, i);
        RouterKeepsRoute(s, i);
        if i in s'.registrars { RouterKeepsTask(s, i); }
      }
    case RegistrarMoves(id) =>
      RegistrarKeepsRoutesLock(s, id);
      RegistrarKeepsPendingLock(s, id);
      RegistrarKeepsRouterFacts(s, id);
      forall i ensures IdInv(s', i) {
        assert IdInv(s, i);
        if i == id {
          RegistrarKeepsConserved(s, id);
          RegistrarKeepsRoute(s, id);
          RegistrarKeepsTask(s, id);
        } else {
          RegistrarLeavesOthers(s, id, i);
          SameKeepsId(s, s', i);
        }
      }
    case _ => OutsideKeepsInv(s, a);
  }

  lemma {:induction false} RunKeepsInv(s: State, actions: seq<Action>)
    requires Inv(s) && Run(s, actions).Some?
    ensures Inv(Run(s, actions).value)
    decreases |actions|
  {
    if actions != [] {
      NextKeepsInv(s, actions[0]);
      RunKeepsInv(Next(s, actions[0]), actions[1..]);
    }
  }

  lemma {:induction false} RunKeepsKinds(s: State, actions: seq<Action>, id: Id)
    requires Run(s, actions).Some?
    ensures var s' := Run(s, actions).value;
            && (id in s'.registrars <==> id in s.registrars)
            && (id in s.registrars ==> s'.registrars[id].closeOnBackground == s.registrars[id].closeOnBackground)
    decreases |actions|
  {
    if actions != [] {
      RunKeepsKinds(Next(s, actions[0]), actions[1..], id);
    }
  }

  // ----- Safety of every run -----

  /** No task is between taking an event or a lock and giving it up. */
  predicate Quiet(s: State) {
    s.routesLock.None? && s.pendingLock.None? && s.router.Receiving?
  }

  /** A quiet state in which `id` has been registered and its consumer still listens. */
  predicate Settled(s: State, id: Id) {
    Quiet(s) && id in s.registrars && s.registrars[id].pc.Finished? && id !in s.dropped
  }

  /**
   For every interleaving: while the receiver lives the consumer's channel, the queue being
   drained, the buffer and the router's hand together are exactly what was produced, in order;
   a route and a buffer never coexist; and an event can be left in the buffer of a registered
   subscription only behind a closing event that the consumer has received.
   */
  lemma NothingStranded(kinds: map<Id, bool>, actions: seq<Action>, id: Id)
    requires Run(Start(kinds), actions).Some?
    ensures var s := Run(Start(kinds), actions).value;
            var log, buffered := At(s.tables.channel, id), At(s.tables.pending, id);
            && log <= At(s.produced, id)
            && !(id in s.tables.routes && id in s.tables.pending)
            && (id !in s.dropped ==>
                  && log + InDrain(s, id) + buffered + InHand(s, id) == At(s.produced, id)
                  && (Quiet(s) ==> log + buffered == At(s.produced, id)))
            && (Settled(s, id) && buffered != [] ==> id in kinds && Closed(kinds[id], s.registrars[id].drained, log))
  {
    StartInv(kinds);
    RunKeepsInv(Start(kinds), actions);
    RunKeepsKinds(Start(kinds), actions, id);
    var s := Run(Start(kinds), actions).value;
    assert IdInv(s, id);
    if Quiet(s) {
      assert InDrain(s, id) == [];
    }
  }

  /** After registration the live route exists exactly while no closing event has been produced. */
  lemma RouteExistsUntilClosed(kinds: map<Id, bool>, actions: seq<Action>, id: Id)
    requires Run(Start(kinds), actions).Some?
    ensures var s := Run(Start(kinds), actions).value;
            Settled(s, id) ==>
              && id in kinds && s.registrars[id].drained <= |At(s.produced, id)|
              && (id in s.tables.routes <==> !Closed(kinds[id], s.registrars[id].drained, At(s.produced, id)))
  {
    NothingStranded(kinds, actions, id);
    StartInv(kinds);
    RunKeepsInv(Start(kinds), actions);
    RunKeepsKinds(Start(kinds), actions, id);
    var s := Run(Start(kinds), actions).value;
    if Settled(s, id) {
      assert TaskInv(s, id) by { assert IdInv(s, id); }
      var drained, log := s.registrars[id].drained, At(s.tables.channel, id);
      if id in s.tables.routes {
        assert log == At(s.produced, id);
      } else {
        var i :| 0 <= i < |log| &&
          if i < drained then DrainCloses(kinds[id], log[i]) else LiveCloses(kinds[id], log[i]);
        assert At(s.produced, id)[i] == log[i];
      }
    }
  }

  /**
   Which test applies to which event of a background subscription: those drained from the buffer
   close the stream only if they end the background task, those sent live also if they end a turn.
   */
  lemma BackgroundRouteFollowsEvents(kinds: map<Id, bool>, actions: seq<Action>, id: Id)
    requires Run(Start(kinds), actions).Some?
    requires id in kinds && kinds[id]
    ensures var s := Run(Start(kinds), actions).value;
            Settled(s, id) ==>
              var log, n := At(s.produced, id), s.registrars[id].drained;
              && n <= |log|
              && (id in s.tables.routes <==>
                    && (forall i :: 0 <= i < n ==> !log[i].IsBackgroundTerminal())
                    && (forall i :: n <= i < |log| ==> !log[i].IsTerminal() && !log[i].IsBackgroundTerminal()))
  {
    hide Run, Start, Closed;
    RouteExistsUntilClosed(kinds, actions, id);
    var s := Run(Start(kinds), actions).value;
    if Settled(s, id) {
      BackgroundClosesOn(s.registrars[id].drained, At(s.produced, id));
    }
  }

  /**
   A turn consumer never hangs: its stream is closed exactly when a turn-terminal event has been
   produced, whenever it registered, and by then it has received such an event.
   */
  lemma TurnStreamCloses(kinds: map<Id, bool>, actions: seq<Action>, id: Id)
    requires Run(Start(kinds), actions).Some?
    requires id in kinds && !kinds[id]
    ensures var s := Run(Start(kinds), actions).value;
            Settled(s, id) ==>
              && (id !in s.tables.routes <==> HasTurnTerminal(At(s.produced, id)))
              && (HasTurnTerminal(At(s.produced, id)) <==> HasTurnTerminal(At(s.tables.channel, id)))
  {
    RouteExistsUntilClosed(kinds, actions, id);
    NothingStranded(kinds, actions, id);
    var s := Run(Start(kinds), actions).value;
    if Settled(s, id) {
      TurnClosingIgnoresTiming(s.registrars[id].drained, At(s.produced, id));
      TurnClosingIgnoresTiming(s.registrars[id].drained, At(s.tables.channel, id));
      var log := At(s.tables.channel, id);
      assert forall i :: 0 <= i < |log| ==> log[i] == At(s.produced, id)[i];
      if At(s.tables.pending, id) == [] {
        assert log == At(s.produced, id);
      }
    }
  }

  /** Whoever holds a lock can move: the party that holds both, or the one that holds the first. */
  lemma HolderMoves(s: State)
    requires Inv(s) && (s.routesLock.Some? || s.pendingLock.Some?)
    ensures Enabled(s, RouterMoves) || exists id :: Enabled(s, RegistrarMoves(id))
  {
    var holder := if s.pendingLock.Some? then s.pendingLock.value else s.routesLock.value;
    match holder
    case Router => assert Enabled(s, RouterMoves);
    case Registrar(id) => assert Enabled(s, RegistrarMoves(id));
  }

  /** Whenever a task is unfinished, some task can move: the two locks never deadlock. */
  lemma NoDeadlock(kinds: map<Id, bool>, actions: seq<Action>)
    requires Run(Start(kinds), actions).Some?
    ensures var s := Run(Start(kinds), actions).value;
            !s.router.Receiving? || (exists id :: id in s.registrars && !s.registrars[id].pc.Finished?) ==>
              Enabled(s, RouterMoves) || exists id :: Enabled(s, RegistrarMoves(id))
  {
    StartInv(kinds);
    RunKeepsInv(Start(kinds), actions);
    var s := Run(Start(kinds), actions).value;
    if s.routesLock.Some? || s.pendingLock.Some? {
      HolderMoves(s);
    } else if s.router.Receiving? && exists id :: id in s.registrars && !s.registrars[id].pc.Finished? {
      var id :| id in s.registrars && !s.registrars[id].pc.Finished?;
      assert Enabled(s, RegistrarMoves(id));
    }
  }

  // ----- The uninterrupted bodies are runs of the machine -----

  ghost predicate Reaches(s: State, s': State) {
    exists actions :: Run(s, actions) == Some(s')
  }

  lemma {:induction false} RunConcat(s: State, a: seq<Action>, b: seq<Action>)
    requires Run(s, a).Some?
    ensures Run(s, a + b) == Run(Run(s, a).value, b)
    decreases |a|
  {
    if a == [] {
      assert a + b == b;
    } else {
      assert (a + b)[1..] == a[1..] + b;
      RunConcat(Next(s, a[0]), a[1..], b);
    }
  }

  lemma Then(s: State, middle: State, a: Action)
    requires Reaches(s, middle) && Enabled(middle, a)
    ensures Reaches(s, Next(middle, a))
  {
    var actions :| Run(s, actions) == Some(middle);
    RunConcat(s, actions, [a]);
    assert Run(middle, [a]) == Some(Next(middle, a)) by {
      assert Run(Next(middle, a), [a][1..]) == Some(Next(middle, a));
    }
  }

  lemma ReachesSelf(s: State)
    ensures Reaches(s, s)
  {
    assert Run(s, []) == Some(s);
  }

  lemma ReachesTransitive(s: State, middle: State, s': State)
    requires Reaches(s, middle) && Reaches(middle, s')
    ensures Reaches(s, s')
  {
    var a :| Run(s, a) == Some(middle);
    var b :| Run(middle, b) == Some(s');
    RunConcat(s, a, b);
  }

  lemma RouterGoes(s: State, middle: State)
    requires Reaches(s, middle) && Enabled(middle, RouterMoves)
    ensures Reaches(s, RouterStep(middle))
  {
    Then(s, middle, RouterMoves);
  }

  function AfterArrival(s: State, id: Id, e: StreamEvent, t: Tables): State {
    s.(tables := t, produced := Extend(s.produced, id, [e]))
  }

  lemma RouterSection(s: State, id: Id, e: StreamEvent)
    requires Quiet(s)
    ensures Reaches(s, AfterArrival(s, id, e, Routed(s.tables, id, e, id !in s.dropped)))
  {
    hide Reaches, LiveCloses;
    ReachesSelf(s);
    Then(s, s, Arrive(id, e));
    var locked := RouterStep(Next(s, Arrive(id, e)));
    RouterGoes(s, Next(s, Arrive(id, e)));
    RouterGoes(s, locked);
    var a := RouterStep(locked);
    RouterGoes(s, a);
    var b := RouterStep(a);
    if id in s.tables.routes {
      if a.router.Removing? {
        RouterGoes(s, b);
        assert RouterStep(b) == AfterArrival(s, id, e, Routed(s.tables, id, e, id !in s.dropped));
      }
    } else {
      RouterGoes(s, b);
      RouterGoes(s, RouterStep(b));
      assert RouterStep(RouterStep(b)) == AfterArrival(s, id, e, Routed(s.tables, id, e, id !in s.dropped));
    }
  }

  /** The registrar has sent the first k of the events it took, and has the rest of the queue left. */
  function PartDrained(s: State, id: Id, queue: Events, k: nat, seen: bool): State
    requires id in s.registrars && k <= |queue|
  {
    var task := s.registrars[id];
    s.(tables := s.tables.(channel := Extend(s.tables.channel, id, queue[..k])),
       registrars := s.registrars[id := RegistrarTask(task.closeOnBackground, Draining(queue[k..], seen), task.drained + k)])
  }

  lemma DrainOne(s: State, id: Id, queue: Events, k: nat)
    requires id in s.registrars && id !in s.dropped && k < |queue|
    ensures var kind := s.registrars[id].closeOnBackground;
            RegistrarStep(PartDrained(s, id, queue, k, Closed(kind, k, queue[..k])), id) ==
            PartDrained(s, id, queue, k + 1, Closed(kind, k + 1, queue[..k + 1]))
  {
    hide Closed, Extend, DrainCloses;
    ExtendTwice(s.tables.channel, id, queue[..k], [queue[k]]);
    DrainedOneMore(s.registrars[id].closeOnBackground, queue, k);
    assert queue[..k] + [queue[k]] == queue[..k + 1] && queue[k..][1..] == queue[k + 1..];
  }

  lemma DrainedOneMore(kind: bool, queue: Events, k: nat)
    requires k < |queue|
    ensures Closed(kind, k + 1, queue[..k + 1]) <==> Closed(kind, k, queue[..k]) || DrainCloses(kind, queue[k])
  {
    hide Closed;
    ClosedSnoc(kind, k + 1, queue[..k], queue[k]);
    assert queue[..k] + [queue[k]] == queue[..k + 1];
  }

  lemma {:induction false} DrainPart(s: State, id: Id, queue: Events, k: nat)
    requires id in s.registrars && id !in s.dropped && s.registrars[id].pc == Draining(queue, false) && k <= |queue|
    ensures Reaches(s, PartDrained(s, id, queue, k, Closed(s.registrars[id].closeOnBackground, k, queue[..k])))
    decreases k
  {
    hide Reaches, Closed;
    if k == 0 {
      NothingDrained(s, id, queue);
    } else {
      DrainPart(s, id, queue, k - 1);
      DrainOne(s, id, queue, k - 1);
      Then(s, PartDrained(s, id, queue, k - 1, Closed(s.registrars[id].closeOnBackground, k - 1, queue[..k - 1])), RegistrarMoves(id));
    }
  }

  lemma NothingDrained(s: State, id: Id, queue: Events)
    requires id in s.registrars && s.registrars[id].pc == Draining(queue, false)
    ensures Reaches(s, PartDrained(s, id, queue, 0, Closed(s.registrars[id].closeOnBackground, 0, queue[..0])))
  {
    hide Reaches;
    ReachesSelf(s);
    assert PartDrained(s, id, queue, 0, false) == s;
  }

  function AfterDrain(s: State, id: Id, queue: Events, seen: bool): State
    requires id in s.registrars
  {
    var task := s.registrars[id];
    s.(pendingLock := None, tables := s.tables.(channel := Extend(s.tables.channel, id, queue)),
       registrars := s.registrars[id := RegistrarTask(task.closeOnBackground, Installing(seen), task.drained + |queue|)])
  }

  lemma DrainSection(s: State, id: Id, queue: Events)
    requires id in s.registrars && id !in s.dropped && s.registrars[id].pc == Draining(queue, false)
    ensures Reaches(s, AfterDrain(s, id, queue, Closed(s.registrars[id].closeOnBackground, |queue|, queue)))
  {
    hide Reaches, Closed;
    var seen := Closed(s.registrars[id].closeOnBackground, |queue|, queue);
    DrainPart(s, id, queue, |queue|);
    assert queue[..|queue|] == queue && queue[|queue|..] == [];
    var drained := PartDrained(s, id, queue, |queue|, seen);
    Then(s, drained, RegistrarMoves(id));
    assert RegistrarStep(drained, id) == AfterDrain(s, id, queue, seen);
  }

  function AfterRegistration(s: State, id: Id, t: Tables, drained: nat): State
    requires id in s.registrars
  {
    s.(tables := t,
       registrars := s.registrars[id := RegistrarTask(s.registrars[id].closeOnBackground, Finished, drained)])
  }

  function WithTask(s: State, id: Id, pc: RegistrarPc): State
    requires id in s.registrars
  {
    s.(registrars := s.registrars[id := s.registrars[id].(pc := pc)])
  }

  function Taken(s: State, id: Id): State
    requires id in s.registrars
  {
    var me := Some(Registrar(id));
    if id in s.tables.pending then
      WithTask(s, id, Draining(s.tables.pending[id], false)).(routesLock := me, pendingLock := me,
        tables := s.tables.(pending := s.tables.pending - {id}))
    else
      WithTask(s, id, Installing(false)).(routesLock := me)
  }

  lemma RegistrarTakes(s: State, id: Id)
    requires Quiet(s) && id in s.registrars && s.registrars[id].pc.NotStarted?
    ensures Reaches(s, Taken(s, id))
  {
    hide Reaches;
    var me := Some(Registrar(id));
    ReachesSelf(s);
    Then(s, s, RegistrarMoves(id));
    var a := WithTask(s, id, WantsRoutes);
    Then(s, a, RegistrarMoves(id));
    var b := WithTask(s, id, WantsPending).(routesLock := me);
    assert RegistrarStep(a, id) == b;
    Then(s, b, RegistrarMoves(id));
    var c := WithTask(s, id, Taking).(routesLock := me, pendingLock := me);
    assert RegistrarStep(b, id) == c;
    Then(s, c, RegistrarMoves(id));
    assert RegistrarStep(c, id) == Taken(s, id);
  }

  lemma RegistrarInstalls(s: State, id: Id)
    requires id in s.registrars && s.registrars[id].pc.Installing?
    ensures var t := s.tables;
            var t' := if s.registrars[id].pc.terminalSeen then t else t.(routes := t.routes[id := s.registrars[id].closeOnBackground]);
            Reaches(s, WithTask(s, id, Finished).(tables := t', routesLock := None))
  {
    ReachesSelf(s);
    Then(s, s, RegistrarMoves(id));
    var next := RegistrarStep(s, id);
    Then(s, next, RegistrarMoves(id));
    assert RegistrarStep(next, id) == WithTask(s, id, Finished).(tables := next.tables, routesLock := None);
  }

  /** The registrar has emptied the buffer and holds the routes lock alone. */
  function Drained(s: State, id: Id, seen: bool): State
    requires id in s.registrars
  {
    var queue := At(s.tables.pending, id);
    var task := s.registrars[id];
    s.(routesLock := Some(Registrar(id)),
       tables := s.tables.(pending := s.tables.pending - {id}, channel := Extend(s.tables.channel, id, queue)),
       registrars := s.registrars[id := RegistrarTask(task.closeOnBackground, Installing(seen), task.drained + |queue|)])
  }

  lemma RegistrarDrains(s: State, id: Id)
    requires Quiet(s) && id in s.registrars && s.registrars[id].pc.NotStarted? && id !in s.dropped
    ensures var queue := At(s.tables.pending, id);
            Reaches(s, Drained(s, id, Closed(s.registrars[id].closeOnBackground, |queue|, queue)))
  {
    hide RegistrarStep, RouterStep, Reaches;
    var queue := At(s.tables.pending, id);
    var seen := Closed(s.registrars[id].closeOnBackground, |queue|, queue);
    RegistrarTakes(s, id);
    var d := Taken(s, id);
    if id in s.tables.pending {
      DrainSection(d, id, queue);
      assert AfterDrain(d, id, queue, seen) == Drained(s, id, seen);
      ReachesTransitive(s, d, Drained(s, id, seen));
    } else {
      assert s.tables.pending - {id} == s.tables.pending;
      assert d == Drained(s, id, seen);
    }
  }

  lemma RegistrarSectionAlive(s: State, id: Id)
    requires Quiet(s) && id in s.registrars && s.registrars[id].pc.NotStarted? && s.registrars[id].drained == 0
    requires id !in s.dropped
    ensures Reaches(s, AfterRegistration(s, id, Registered(s.tables, id, s.registrars[id].closeOnBackground, true),
                                         |At(s.tables.pending, id)|))
  {
    var kind, queue := s.registrars[id].closeOnBackground, At(s.tables.pending, id);
    var seen := Closed(kind, |queue|, queue);
    var end := AfterRegistration(s, id, Registered(s.tables, id, kind, true), |queue|);
    RegistrarDrains(s, id);
    var d := Drained(s, id, seen);
    RegistrarInstalls(d, id);
    var t' := if seen then d.tables else d.tables.(routes := d.tables.routes[id := kind]);
    assert t' == Registered(s.tables, id, kind, true);
    assert WithTask(d, id, Finished).(tables := t', routesLock := None) == end;
    ReachesTransitive(s, d, end);
  }

  /** A registrar that finds the receiver gone with events left to send returns without a route. */
  lemma RegistrarGivesUp(s: State, id: Id)
    requires id in s.registrars && s.registrars[id].pc.Draining? && s.registrars[id].pc.queue != [] && id in s.dropped
    ensures Reaches(s, WithTask(s, id, Finished).(routesLock := None, pendingLock := None))
  {
    hide Reaches;
    ReachesSelf(s);
    Then(s, s, RegistrarMoves(id));
    var next := WithTask(s, id, Returning).(pendingLock := None);
    assert RegistrarStep(s, id) == next;
    Then(s, next, RegistrarMoves(id));
    assert RegistrarStep(next, id) == WithTask(s, id, Finished).(routesLock := None, pendingLock := None);
  }

  lemma RegistrarSectionDead(s: State, id: Id)
    requires Quiet(s) && id in s.registrars && s.registrars[id].pc.NotStarted? && s.registrars[id].drained == 0
    requires id in s.dropped
    ensures Reaches(s, AfterRegistration(s, id, Registered(s.tables, id, s.registrars[id].closeOnBackground, false), 0))
  {
    hide Reaches;
    var kind, queue := s.registrars[id].closeOnBackground, At(s.tables.pending, id);
    var end := AfterRegistration(s, id, Registered(s.tables, id, kind, false), 0);
    RegistrarTakes(s, id);
    var d := Taken(s, id);
    if queue != [] {
      RegistrarGivesUp(d, id);
      assert WithTask(d, id, Finished).(routesLock := None, pendingLock := None) == end;
      ReachesTransitive(s, d, end);
    } else {
      if id in s.tables.pending {
        Then(s, d, RegistrarMoves(id));
        d := RegistrarStep(d, id);
      } else {
        assert s.tables.pending - {id} == s.tables.pending;
      }
      RegistrarInstalls(d, id);
      assert !Closed(kind, 0, []);
      assert WithTask(d, id, Finished).(tables := d.tables.(routes := d.tables.routes[id := kind]), routesLock := None) == end;
      ReachesTransitive(s, d, end);
    }
  }

  /** A registration that no other task interrupts is `Registered`, as `RouterSection` is `Routed`. */
  lemma RegistrarSection(s: State, id: Id)
    requires Quiet(s) && id in s.registrars && s.registrars[id].pc.NotStarted? && s.registrars[id].drained == 0
    ensures var alive := id !in s.dropped;
            Reaches(s, AfterRegistration(s, id, Registered(s.tables, id, s.registrars[id].closeOnBackground, alive),
                                         if alive then |At(s.tables.pending, id)| else 0))
  {
    hide Reaches, Registered, AfterRegistration;
    if id in s.dropped {
      RegistrarSectionDead(s, id);
    } else {
      RegistrarSectionAlive(s, id);
    }
  }

  /** The receiver may also go after k events: exactly these were sent, the rest is gone, and there is no route. */
  lemma RegistrarSectionInterrupted(s: State, id: Id, k: nat)
    requires Quiet(s) && id in s.registrars && s.registrars[id].pc.NotStarted? && s.registrars[id].drained == 0
    requires id !in s.dropped && k < |At(s.tables.pending, id)|
    ensures var sent := At(s.tables.pending, id)[..k];
            var t := s.tables.(pending := s.tables.pending - {id}, channel := Extend(s.tables.channel, id, sent));
            Reaches(s, AfterRegistration(s, id, t, k).(dropped := s.dropped + {id}))
  {
    hide Reaches, Closed;
    var queue := At(s.tables.pending, id);
    var t := s.tables.(pending := s.tables.pending - {id}, channel := Extend(s.tables.channel, id, queue[..k]));
    var end := AfterRegistration(s, id, t, k).(dropped := s.dropped + {id});
    RegistrarTakes(s, id);
    var d := Taken(s, id);
    DrainPart(d, id, queue, k);
    var p := PartDrained(d, id, queue, k, Closed(d.registrars[id].closeOnBackground, k, queue[..k]));
    ReachesTransitive(s, d, p);
    Then(s, p, DropReceiver(id));
    var gone := Next(p, DropReceiver(id));
    RegistrarGivesUp(gone, id);
    assert WithTask(gone, id, Finished).(routesLock := None, pendingLock := None) == end;
    ReachesTransitive(s, gone, end);
  }

  // ----- Every number of drained events happens, so timing decides for background subscriptions -----

  lemma {:induction false} FeedEvents(s: State, id: Id, log: Events)
    returns (end: State)
    requires Quiet(s)
    ensures Reaches(s, end) && Quiet(end)
    ensures end.registrars == s.registrars && end.dropped == s.dropped
    ensures At(end.produced, id) == At(s.produced, id) + log
    decreases |log|
  {
    if log == [] {
      ReachesSelf(s);
      end := s;
    } else {
      RouterSection(s, id, log[0]);
      var next := AfterArrival(s, id, log[0], Routed(s.tables, id, log[0], id !in s.dropped));
      end := FeedEvents(next, id, log[1..]);
      ReachesTransitive(s, next, end);
      assert At(s.produced, id) + log == At(s.produced, id) + [log[0]] + log[1..];
    }
  }

  /** Any split of `log` into events before and after registration is the outcome of some run. */
  lemma EverySplitHappens(id: Id, kind: bool, log: Events, n: nat) returns (actions: seq<Action>)
    requires n <= |log|
    ensures Run(Start(map[id := kind]), actions).Some?
    ensures var s := Run(Start(map[id := kind]), actions).value;
            && Settled(s, id) && s.registrars[id] == RegistrarTask(kind, Finished, n)
            && At(s.produced, id) == log
  {
    hide Closed, Registered, LocksExact;
    var start := Start(map[id := kind]);
    var before := FeedEvents(start, id, log[..n]);
    var reached :| Run(start, reached) == Some(before);
    StartInv(map[id := kind]);
    RunKeepsInv(start, reached);
    assert IdInv(before, id);
    assert At(before.tables.channel, id) == [] && At(start.produced, id) == [];
    assert At(before.tables.pending, id) == At(before.produced, id) == log[..n];
    RegistrarSection(before, id);
    var registered := AfterRegistration(before, id, Registered(before.tables, id, kind, true), n);
    var end := FeedEvents(registered, id, log[n..]);
    ReachesTransitive(start, before, registered);
    ReachesTransitive(start, registered, end);
    actions :| Run(start, actions) == Some(end);
    assert log[..n] + log[n..] == log;
  }

  /** Two complete runs of one background subscription that saw the same events. */
  ghost predicate SameEventsTwoRuns(id: Id, log: Events, a: seq<Action>, b: seq<Action>) {
    forall actions :: actions in {a, b} ==>
      && Run(Start(map[id := true]), actions).Some?
      && var s := Run(Start(map[id := true]), actions).value;
         Settled(s, id) && At(s.produced, id) == log
  }

  /**
   Whether the stream of a background subscription ends up closed is decided by the events alone,
   not by the interleaving, if and only if a turn-terminal event never comes without a
   background-terminal one.
   */
  lemma BackgroundOutcomeDependsOnTiming(id: Id, log: Events)
    ensures (forall a, b :: SameEventsTwoRuns(id, log, a, b) ==>
               (id in Run(Start(map[id := true]), a).value.tables.routes <==>
                id in Run(Start(map[id := true]), b).value.tables.routes))
            <==> (HasTurnTerminal(log) ==> HasBackgroundTerminal(log))
  {
    BackgroundClosingDependsOnTiming(log);
    var start := Start(map[id := true]);
    if HasTurnTerminal(log) ==> HasBackgroundTerminal(log) {
      forall a, b | SameEventsTwoRuns(id, log, a, b)
        ensures id in Run(start, a).value.tables.routes <==> id in Run(start, b).value.tables.routes
      {
        BackgroundRunOutcome(id, log, a);
        BackgroundRunOutcome(id, log, b);
      }
    } else {
      var a := EverySplitHappens(id, true, log, 0);
      var b := EverySplitHappens(id, true, log, |log|);
      assert SameEventsTwoRuns(id, log, a, b);
      BackgroundRunOutcome(id, log, a);
      BackgroundRunOutcome(id, log, b);
      RouteExistsUntilClosed(map[id := true], a, id);
      RouteExistsUntilClosed(map[id := true], b, id);
      assert !Closed(true, |log|, log);
      assert Closed(true, 0, log) by {
        var i :| 0 <= i < |log| && log[i].IsTerminal();
        assert LiveCloses(true, log[i]);
      }
    }
  }

  lemma BackgroundRunOutcome(id: Id, log: Events, actions: seq<Action>)
    requires SameEventsTwoRuns(id, log, actions, actions)
    ensures (HasTurnTerminal(log) ==> HasBackgroundTerminal(log)) ==>
              (id in Run(Start(map[id := true]), actions).value.tables.routes <==> !Closed(true, 0, log))
  {
    RouteExistsUntilClosed(map[id := true], actions, id);
    BackgroundClosingDependsOnTiming(log);
  }
}
