/**
 The router and the registrars as concurrent tasks. A step is one lock acquisition or release,
 one table operation, or one send; between two steps any other task may move, and a consumer
 may drop its receiver at any moment.

 The registrar keeps the second lock while it drains the queue, as the guard is a temporary of
 the statement that takes the queue out of the table.

 The invariant is kept in parts: each lock names the one party whose position holds it, and for
 each subscription nothing is lost (`Conserved`), a route and a buffer never coexist
 (`RouteInv`), and the registrar's position agrees with its counter, the route and the channel
 (`TaskInv`). What follows for whole runs is in StreamInterleaving and StreamTermination.
 */
module StreamMachine {
  import opened Wrappers
  import opened StreamRouting

  datatype Party = Router | Registrar(id: Id)

  datatype RouterPc =
    | Receiving
    | LockingRoutes(id: Id, event: StreamEvent)
    | Looking(id: Id, event: StreamEvent)         // holds routes
    | LockingPending(id: Id, event: StreamEvent)  // holds routes, found no route
    | Enqueueing(id: Id, event: StreamEvent)      // holds both
    | Removing(id: Id)                            // holds routes, has sent
    | Leaving                                     // holds routes

  datatype RegistrarPc =
    | NotStarted
    | WantsRoutes
    | WantsPending                                   // holds routes
    | Taking                                         // holds both
    | Draining(queue: Events, terminalSeen: bool)    // holds both
    | Installing(terminalSeen: bool)                 // holds routes
    | Returning                                      // holds routes
    | Finished

  /** `drained` counts the events this registrar has sent from the buffer. */
  datatype RegistrarTask = RegistrarTask(closeOnBackground: bool, pc: RegistrarPc, drained: nat)

  /** `produced` is the history of events the router has received, per subscription. */
  datatype State = State(
    tables: Tables,
    routesLock: Option<Party>,
    pendingLock: Option<Party>,
    router: RouterPc,
    registrars: map<Id, RegistrarTask>,
    dropped: set<Id>,
    produced: map<Id, Events>)

  datatype Action =
    | Arrive(id: Id, event: StreamEvent)
    | RouterMoves
    | RegistrarMoves(id: Id)
    | DropReceiver(id: Id)

  function Start(kinds: map<Id, bool>): State {
    State(Tables(map[], map[], map[]), None, None, Receiving,
          map id | id in kinds :: RegistrarTask(kinds[id], NotStarted, 0), {}, map[])
  }

  predicate Enabled(s: State, a: Action) {
    match a
    case Arrive(_, _) => s.router.Receiving?
    case RouterMoves =>
      && !s.router.Receiving?
      && (s.router.LockingRoutes? ==> s.routesLock.None?)
      && (s.router.LockingPending? ==> s.pendingLock.None?)
    case RegistrarMoves(id) =>
      && id in s.registrars
      && !s.registrars[id].pc.Finished?
      && (s.registrars[id].pc.WantsRoutes? ==> s.routesLock.None?)
      && (s.registrars[id].pc.WantsPending? ==> s.pendingLock.None?)
    case DropReceiver(id) => id !in s.dropped
  }

  function RouterStep(s: State): State {
    var t := s.tables;
    match s.router
    case Receiving => s
    case LockingRoutes(id, e) => s.(routesLock := Some(Router), router := Looking(id, e))
    case Looking(id, e) =>
      if id !in t.routes then s.(router := LockingPending(id, e))
      else if id in s.dropped then s.(router := Removing(id))
      else s.(tables := t.(channel := Extend(t.channel, id, [e])),
              router := if LiveCloses(t.routes[id], e) then Removing(id) else Leaving)
    case LockingPending(id, e) => s.(pendingLock := Some(Router), router := Enqueueing(id, e))
    case Enqueueing(id, e) =>
      s.(tables := t.(pending := Extend(t.pending, id, [e])), pendingLock := None, router := Leaving)
    case Removing(id) => s.(tables := t.(routes := t.routes - {id}), router := Leaving)
    case Leaving => s.(routesLock := None, router := Receiving)
  }

  function Moved(s: State, id: Id, pc: RegistrarPc): map<Id, RegistrarTask>
    requires id in s.registrars
  {
    s.registrars[id := s.registrars[id].(pc := pc)]
  }

  function RegistrarStep(s: State, id: Id): State
    requires id in s.registrars
  {
    var t := s.tables;
    var task := s.registrars[id];
    var me := Some(Registrar(id));
    match task.pc
    case NotStarted => s.(registrars := Moved(s, id, WantsRoutes))
    case WantsRoutes => s.(routesLock := me, registrars := Moved(s, id, WantsPending))
    case WantsPending => s.(pendingLock := me, registrars := Moved(s, id, Taking))
    case Taking =>
      if id in t.pending then
        s.(tables := t.(pending := t.pending - {id}), registrars := Moved(s, id, Draining(t.pending[id], false)))
      else
        s.(pendingLock := None, registrars := Moved(s, id, Installing(false)))
    case Draining(queue, seen) =>
      if queue == [] then s.(pendingLock := None, registrars := Moved(s, id, Installing(seen)))
      else if id in s.dropped then s.(pendingLock := None, registrars := Moved(s, id, Returning))
      else
        s.(tables := t.(channel := Extend(t.channel, id, [queue[0]])),
           registrars := s.registrars[id := RegistrarTask(
             task.closeOnBackground,
             Draining(queue[1..], seen || DrainCloses(task.closeOnBackground, queue[0])),
             task.drained + 1)])
    case Installing(seen) =>
      s.(tables := if seen then t else t.(routes := t.routes[id := task.closeOnBackground]),
         registrars := Moved(s, id, Returning))
    case Returning => s.(routesLock := None, registrars := Moved(s, id, Finished))
    case Finished => s
  }

  function Next(s: State, a: Action): State
    requires Enabled(s, a)
  {
    match a
    case Arrive(id, e) => s.(router := LockingRoutes(id, e), produced := Extend(s.produced, id, [e]))
    case RouterMoves => RouterStep(s)
    case RegistrarMoves(id) => RegistrarStep(s, id)
    case DropReceiver(id) => s.(dropped := s.dropped + {id})
  }

  function Run(s: State, actions: seq<Action>): (r: Option<State>)
    decreases |actions|
  {
    if actions == [] then Some(s)
    else if Enabled(s, actions[0]) then Run(Next(s, actions[0]), actions[1..])
    else None
  }

  // ----- What every reachable state keeps -----

  predicate RouterHolds(pc: RouterPc, which: bool) {
    if which then !pc.Receiving? && !pc.LockingRoutes? else pc.Enqueueing?
  }

  predicate RegistrarHolds(pc: RegistrarPc, which: bool) {
    if which then pc.WantsPending? || pc.Taking? || pc.Draining? || pc.Installing? || pc.Returning?
    else pc.Taking? || pc.Draining?
  }

  /** Each lock names the one party whose position says that it holds it (true: routes). */
  ghost predicate LocksExact(s: State, lock: Option<Party>, which: bool) {
    && (lock == Some(Router) <==> RouterHolds(s.router, which))
    && (forall id :: lock == Some(Registrar(id)) <==> id in s.registrars && RegistrarHolds(s.registrars[id].pc, which))
  }

  function InHand(s: State, id: Id): Events {
    if (s.router.LockingRoutes? || s.router.Looking? || s.router.LockingPending? || s.router.Enqueueing?) && s.router.id == id
    then [s.router.event] else []
  }

  function InDrain(s: State, id: Id): Events {
    if id in s.registrars && s.registrars[id].pc.Draining? then s.registrars[id].pc.queue else []
  }

  /** No event lost, duplicated or reordered while the receiver lives; a prefix is delivered anyway. */
  ghost predicate Conserved(s: State, id: Id) {
    && At(s.tables.channel, id) <= At(s.produced, id)
    && (id !in s.dropped ==>
          At(s.tables.channel, id) + InDrain(s, id) + At(s.tables.pending, id) + InHand(s, id) == At(s.produced, id))
  }

  /** How the position of the registrar of `id` ties its counter, the route and the channel together. */
  ghost predicate TaskInv(s: State, id: Id)
    requires id in s.registrars
  {
    var task := s.registrars[id];
    var log := At(s.tables.channel, id);
    && task.drained <= |log|
    && (task.pc.NotStarted? || task.pc.WantsRoutes? || task.pc.WantsPending? || task.pc.Taking? ==>
          log == [] && id !in s.tables.routes)
    && (task.pc.Draining? || task.pc.Installing? ==>
          && task.drained == |log|
          && id !in s.tables.routes && id !in s.tables.pending
          && task.pc.terminalSeen == Closed(task.closeOnBackground, |log|, log))
    && (task.pc.Returning? || task.pc.Finished? ==>
          && (id in s.tables.routes ==> s.tables.routes[id] == task.closeOnBackground)
          && (id !in s.dropped ==>
                (id in s.tables.routes && s.router != Removing(id) <==>
                 !Closed(task.closeOnBackground, task.drained, log))))
  }

  predicate RouterFacts(s: State) {
    && (s.router.LockingPending? || s.router.Enqueueing? ==> s.router.id !in s.tables.routes)
    && (s.router.Removing? ==> s.router.id in s.tables.routes)
  }

  /** A route belongs to a registrar, and there is no buffer beside it. */
  ghost predicate RouteInv(s: State, id: Id) {
    id in s.tables.routes ==> id in s.registrars && id !in s.tables.pending
  }

  ghost predicate IdInv(s: State, id: Id) {
    && Conserved(s, id)
    && RouteInv(s, id)
    && (id in s.registrars ==> TaskInv(s, id))
  }

  ghost predicate Inv(s: State) {
    && LocksExact(s, s.routesLock, true)
    && LocksExact(s, s.pendingLock, false)
    && RouterFacts(s)
    && forall id :: IdInv(s, id)
  }

  lemma StartInv(kinds: map<Id, bool>)
    ensures Inv(Start(kinds))
  {
  }

  lemma RouterKeepsRoutesLock(s: State)
    requires Inv(s) && Enabled(s, RouterMoves)
    ensures LocksExact(RouterStep(s), RouterStep(s).routesLock, true)
  {
    hide IdInv, RouterFacts;
  }

  lemma RouterKeepsPendingLock(s: State)
    requires Inv(s) && Enabled(s, RouterMoves)
    ensures LocksExact(RouterStep(s), RouterStep(s).pendingLock, false)
  {
    hide IdInv, RouterFacts;
  }

  lemma RouterKeepsFacts(s: State)
    requires Inv(s) && Enabled(s, RouterMoves)
    ensures RouterFacts(RouterStep(s)) && RouterStep(s).registrars == s.registrars
  {
    hide IdInv, LocksExact;
  }

  lemma RouterBuffers(s: State)
    requires Inv(s) && s.router.Enqueueing?
    ensures Conserved(RouterStep(s), s.router.id)
  {
    var id, s' := s.router.id, RouterStep(s);
    assert IdInv(s, id) && InDrain(s, id) == [];
    assert At(s'.tables.pending, id) == At(s.tables.pending, id) + [s.router.event];
  }

  lemma RouterSends(s: State)
    requires Inv(s) && s.router.Looking? && s.router.id in s.tables.routes
    ensures Conserved(RouterStep(s), s.router.id)
  {
    var id, s' := s.router.id, RouterStep(s);
    assert IdInv(s, id) && TaskInv(s, id);
    assert InDrain(s, id) == [] && At(s.tables.pending, id) == [];
    assert id !in s.dropped ==> At(s'.tables.channel, id) == At(s.tables.channel, id) + [s.router.event];
  }

  lemma RouterKeepsConserved(s: State, id: Id)
    requires Inv(s) && Enabled(s, RouterMoves)
    ensures Conserved(RouterStep(s), id)
  {
    hide LocksExact, Closed;
    assert IdInv(s, id);
    if s.router.Enqueueing? && s.router.id == id {
      RouterBuffers(s);
    } else if s.router.Looking? && s.router.id == id && id in s.tables.routes {
      RouterSends(s);
    }
  }

  lemma RouterKeepsTask(s: State, id: Id)
    requires Inv(s) && Enabled(s, RouterMoves)
    requires id in s.registrars
    ensures TaskInv(RouterStep(s), id)
  {
    assert IdInv(s, id);
    if s.router.Looking? && s.router.id == id && id in s.tables.routes {
      var task := s.registrars[id];
      ClosedSnoc(task.closeOnBackground, task.drained, At(s.tables.channel, id), s.router.event);
    }
  }

  lemma RouterKeepsRoute(s: State, id: Id)
    requires Inv(s) && Enabled(s, RouterMoves)
    ensures RouteInv(RouterStep(s), id)
  {
    assert IdInv(s, id);
  }

  lemma RegistrarKeepsRoutesLock(s: State, id: Id)
    requires Inv(s) && Enabled(s, RegistrarMoves(id))
    ensures var s' := RegistrarStep(s, id); LocksExact(s', s'.routesLock, true)
  {
    hide IdInv, RouterFacts;
  }

  lemma RegistrarKeepsPendingLock(s: State, id: Id)
    requires Inv(s) && Enabled(s, RegistrarMoves(id))
    ensures var s' := RegistrarStep(s, id); LocksExact(s', s'.pendingLock, false)
  {
    hide IdInv, RouterFacts;
  }

  lemma RegistrarKeepsRouterFacts(s: State, id: Id)
    requires Inv(s) && Enabled(s, RegistrarMoves(id))
    ensures RouterFacts(RegistrarStep(s, id))
  {
    hide IdInv;
  }

  lemma RegistrarKeepsConserved(s: State, id: Id)
    requires Inv(s) && Enabled(s, RegistrarMoves(id))
    ensures Conserved(RegistrarStep(s, id), id)
  {
    assert IdInv(s, id);
    var task := s.registrars[id];
    if task.pc.Draining? && task.pc.queue != [] && id !in s.dropped {
      var log := At(s.tables.channel, id);
      assert At(s.tables.pending, id) == [];
      assert log + task.pc.queue == (log + [task.pc.queue[0]]) + task.pc.queue[1..];
    }
  }

  lemma DrainKeepsTask(s: State, id: Id)
    requires IdInv(s, id) && id in s.registrars && s.registrars[id].pc.Draining?
    ensures TaskInv(RegistrarStep(s, id), id)
  {
    var task := s.registrars[id];
    if task.pc.queue != [] && id !in s.dropped {
      var log := At(s.tables.channel, id);
      ClosedSnoc(task.closeOnBackground, |log| + 1, log, task.pc.queue[0]);
    }
  }

  lemma RegistrarKeepsTask(s: State, id: Id)
    requires Inv(s) && Enabled(s, RegistrarMoves(id))
    ensures TaskInv(RegistrarStep(s, id), id)
  {
    assert IdInv(s, id);
    if s.registrars[id].pc.Draining? {
      DrainKeepsTask(s, id);
    }
  }

  /** As far as `i` is concerned nothing happens between s and s'. */
  predicate SameFor(s: State, s': State, i: Id) {
    var t, t' := s.tables, s'.tables;
    && At(t'.channel, i) == At(t.channel, i) && At(t'.pending, i) == At(t.pending, i)
    && (i in t'.pending <==> i in t.pending) && (i in t'.routes <==> i in t.routes)
    && (i in t.routes ==> t'.routes[i] == t.routes[i])
    && (i in s'.registrars <==> i in s.registrars) && (i in s.registrars ==> s'.registrars[i] == s.registrars[i])
    && s'.router == s.router && s'.dropped == s.dropped && s'.produced == s.produced
  }

  lemma RegistrarMovesAlone(s: State, id: Id)
    requires Enabled(s, RegistrarMoves(id))
    ensures var s' := RegistrarStep(s, id);
            && id in s'.registrars && s'.registrars == s.registrars[id := s'.registrars[id]]
            && s'.router == s.router && s'.dropped == s.dropped && s'.produced == s.produced
  {
    hide Extend, DrainCloses;
  }

  lemma RegistrarUsesOwnEntries(s: State, id: Id, i: Id)
    requires Enabled(s, RegistrarMoves(id)) && i != id
    ensures var t, t' := s.tables, RegistrarStep(s, id).tables;
            && At(t'.channel, i) == At(t.channel, i) && At(t'.pending, i) == At(t.pending, i)
            && (i in t'.pending <==> i in t.pending) && (i in t'.routes <==> i in t.routes)
            && (i in t.routes ==> t'.routes[i] == t.routes[i])
  {
    hide DrainCloses, Moved;
  }

  lemma RegistrarLeavesOthers(s: State, id: Id, i: Id)
    requires Enabled(s, RegistrarMoves(id)) && i != id
    ensures SameFor(s, RegistrarStep(s, id), i)
  {
    hide RegistrarStep, At;
    RegistrarMovesAlone(s, id);
    RegistrarUsesOwnEntries(s, id, i);
  }

  lemma SameKeepsId(s: State, s': State, i: Id)
    requires SameFor(s, s', i) && IdInv(s, i)
    ensures IdInv(s', i)
  {
  }

  lemma RegistrarKeepsRoute(s: State, id: Id)
    requires Inv(s) && Enabled(s, RegistrarMoves(id))
    ensures RouteInv(RegistrarStep(s, id), id)
  {
    assert IdInv(s, id);
  }

  lemma OutsideKeepsInv(s: State, a: Action)
    requires Inv(s) && Enabled(s, a) && (a.Arrive? || a.DropReceiver?)
    ensures Inv(Next(s, a))
  {
    forall i ensures IdInv(Next(s, a), i) { assert IdInv(s, i); }
  }
}
