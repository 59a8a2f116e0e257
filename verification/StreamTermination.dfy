/**
 Progress of stream delivery: left to themselves the router and the registrars stop after a bounded
 number of steps, and where they stop every registration is complete.
 */
module StreamTermination {
  import opened MapSums
  import opened StreamInterleaving
  import opened StreamMachine
  import opened StreamRouting
  import opened Wrappers

  /** The steps that the tasks take by themselves; events and receivers come and go from outside. */
  predicate IsOwn(a: Action) {
    a.RouterMoves? || a.RegistrarMoves?
  }

  // ----- The work that is left -----

  function RouterRank(pc: RouterPc): nat {
    match pc
    case LockingRoutes(_, _) => 6
    case Looking(_, _) => 5
    case LockingPending(_, _) => 4
    case Enqueueing(_, _) => 3
    case Removing(_) => 2
    case Leaving => 1
    case Receiving => 0
  }

  /** An event that is buffered counts once, and still counts once when the registrar has taken it. */
  function RegistrarRank(pc: RegistrarPc): nat {
    match pc
    case NotStarted => 7
    case WantsRoutes => 6
    case WantsPending => 5
    case Taking => 4
    case Draining(queue, _) => 3 + |queue|
    case Installing(_) => 2
    case Returning => 1
    case Finished => 0
  }

  function RegistrarRanks(registrars: map<Id, RegistrarTask>): map<Id, nat> {
    map id | id in registrars :: RegistrarRank(registrars[id].pc)
  }

  function Buffered(pending: map<Id, Events>): map<Id, nat> {
    map id | id in pending :: |pending[id]|
  }

  ghost function Work(s: State): nat {
    RouterRank(s.router) + Sum(RegistrarRanks(s.registrars)) + Sum(Buffered(s.tables.pending))
  }

  lemma BufferingAddsOne(pending: map<Id, Events>, id: Id, e: StreamEvent)
    ensures Sum(Buffered(Extend(pending, id, [e]))) == Sum(Buffered(pending)) + 1
  {
    SumSet(Buffered(pending), id, |At(pending, id)| + 1);
    assert Buffered(Extend(pending, id, [e])) == Buffered(pending)[id := |At(pending, id)| + 1];
  }

  lemma TakingRemovesAll(pending: map<Id, Events>, id: Id)
    requires id in pending
    ensures Sum(Buffered(pending - {id})) + |pending[id]| == Sum(Buffered(pending))
  {
    SumPick(Buffered(pending), id);
    assert Buffered(pending - {id}) == Buffered(pending) - {id};
  }

  lemma RouterTradesWork(s: State)
    requires Enabled(s, RouterMoves)
    ensures var s' := RouterStep(s);
            && s'.registrars == s.registrars
            && RouterRank(s'.router) + Sum(Buffered(s'.tables.pending)) < RouterRank(s.router) + Sum(Buffered(s.tables.pending))
  {
    hide Buffered, Extend;
    if s.router.Enqueueing? {
      BufferingAddsOne(s.tables.pending, s.router.id, s.router.event);
    }
  }

  lemma RouterUsesWork(s: State)
    requires Enabled(s, RouterMoves)
    ensures Work(RouterStep(s)) < Work(s)
  {
    hide RouterStep;
    RouterTradesWork(s);
  }

  /** What the registrar takes out of the table it has in its queue. */
  lemma RegistrarTradesWork(s: State, id: Id)
    requires Enabled(s, RegistrarMoves(id))
    ensures var s' := RegistrarStep(s, id);
            id in s'.registrars &&
            RegistrarRank(s'.registrars[id].pc) + Sum(Buffered(s'.tables.pending)) <
            RegistrarRank(s.registrars[id].pc) + Sum(Buffered(s.tables.pending))
  {
    hide Buffered, Extend;
    if s.registrars[id].pc.Taking? && id in s.tables.pending {
      TakingRemovesAll(s.tables.pending, id);
    }
  }

  lemma RegistrarUsesWork(s: State, id: Id)
    requires Enabled(s, RegistrarMoves(id))
    ensures Work(RegistrarStep(s, id)) < Work(s)
  {
    hide RegistrarStep;
    RegistrarTradesWork(s, id);
    RegistrarMovesAlone(s, id);
    var s' := RegistrarStep(s, id);
    SumUpdate(RegistrarRanks(s.registrars), id, RegistrarRank(s'.registrars[id].pc));
    assert RegistrarRanks(s'.registrars) == RegistrarRanks(s.registrars)[id := RegistrarRank(s'.registrars[id].pc)];
  }

  /** Without events or receivers coming and going the tasks can only run for so long. */
  lemma {:induction false} OwnRunsAreBounded(s: State, actions: seq<Action>)
    requires Run(s, actions).Some? && forall i :: 0 <= i < |actions| ==> IsOwn(actions[i])
    ensures |actions| + Work(Run(s, actions).value) <= Work(s)
    decreases |actions|
  {
    if actions != [] {
      assert IsOwn(actions[0]);
      match actions[0] {
        case RouterMoves => RouterUsesWork(s);
        case RegistrarMoves(id) => RegistrarUsesWork(s, id);
      }
      OwnRunsAreBounded(Next(s, actions[0]), actions[1..]);
    }
  }

  // ----- Where no task can move -----

  /** The router waits for events, and every registrar has finished. */
  lemma StoppedIsQuiet(s: State)
    requires Inv(s) && forall a :: IsOwn(a) ==> !Enabled(s, a)
    ensures Quiet(s) && forall id :: id in s.registrars ==> s.registrars[id].pc.Finished?
  {
    if s.routesLock.Some? || s.pendingLock.Some? {
      HolderMoves(s);
    }
    assert !Enabled(s, RouterMoves);
    forall id | id in s.registrars ensures s.registrars[id].pc.Finished? {
      assert !Enabled(s, RegistrarMoves(id));
    }
  }

  lemma {:induction false} OwnRunsKeepInput(s: State, actions: seq<Action>)
    requires Run(s, actions).Some? && forall i :: 0 <= i < |actions| ==> IsOwn(actions[i])
    ensures var s' := Run(s, actions).value; s'.produced == s.produced && s'.dropped == s.dropped
    decreases |actions|
  {
    if actions != [] {
      assert IsOwn(actions[0]);
      OwnRunsKeepInput(Next(s, actions[0]), actions[1..]);
    }
  }

  lemma KindsStart(kinds: map<Id, bool>)
    ensures Start(kinds).registrars.Keys == kinds.Keys
  {
  }

  /**
   After any interleaving, and without new input, the tasks stop within a bounded number of steps.
   Where they stop every registration has settled; a turn consumer that still listens has then
   received its closing event and is closed exactly if one has been produced.
   */
  lemma TurnConsumerNeverHangs(kinds: map<Id, bool>, actions: seq<Action>, rest: seq<Action>, id: Id)
    requires id in kinds && !kinds[id]
    requires Run(Start(kinds), actions).Some? && Run(Run(Start(kinds), actions).value, rest).Some?
    requires forall i :: 0 <= i < |rest| ==> IsOwn(rest[i])
    ensures var s := Run(Start(kinds), actions).value;
            var s' := Run(s, rest).value;
            && |rest| <= Work(s)
            && ((forall a :: IsOwn(a) ==> !Enabled(s', a)) && id !in s.dropped ==>
                  && Settled(s', id)
                  && (id !in s'.tables.routes <==> HasTurnTerminal(At(s.produced, id)))
                  && (HasTurnTerminal(At(s.produced, id)) <==> HasTurnTerminal(At(s'.tables.channel, id))))
  {
    hide Inv, Work, Start, HasTurnTerminal;
    var s := Run(Start(kinds), actions).value;
    var s' := Run(s, rest).value;
    OwnRunsAreBounded(s, rest);
    if (forall a :: IsOwn(a) ==> !Enabled(s', a)) && id !in s.dropped {
      RunConcat(Start(kinds), actions, rest);
      StartInv(kinds);
      RunKeepsInv(Start(kinds), actions + rest);
      RunKeepsKinds(Start(kinds), actions + rest, id);
      KindsStart(kinds);
      StoppedIsQuiet(s');
      OwnRunsKeepInput(s, rest);
      TurnStreamCloses(kinds, actions + rest, id);
    }
  }

  // ----- A consumer that is gone -----

  /** The receiver is gone and an event is on its way to it, or its route has been removed for good. */
  predicate GoneRoute(s: State, id: Id) {
    && id in s.dropped && (id in s.registrars ==> s.registrars[id].pc.Finished?)
    && (id !in s.tables.routes || InHand(s, id) != [] || s.router == Removing(id))
  }

  lemma NextKeepsGone(s: State, a: Action, id: Id)
    requires Inv(s) && Enabled(s, a) && IsOwn(a) && GoneRoute(s, id)
    ensures GoneRoute(Next(s, a), id)
  {
    hide Closed, LocksExact;
    assert IdInv(s, id);
  }

  lemma {:induction false} RunKeepsGone(s: State, actions: seq<Action>, id: Id)
    requires Inv(s) && Run(s, actions).Some? && GoneRoute(s, id)
    requires forall i :: 0 <= i < |actions| ==> IsOwn(actions[i])
    ensures GoneRoute(Run(s, actions).value, id)
    decreases |actions|
  {
    if actions != [] {
      NextKeepsInv(s, actions[0]);
      NextKeepsGone(s, actions[0], id);
      RunKeepsGone(Next(s, actions[0]), actions[1..], id);
    }
  }

  /** The first event for a receiver that is gone takes its route away. */
  lemma FailedSendRemovesRoute(kinds: map<Id, bool>, actions: seq<Action>, id: Id, e: StreamEvent, rest: seq<Action>)
    requires Run(Start(kinds), actions).Some?
    requires var s := Run(Start(kinds), actions).value;
             && Enabled(s, Arrive(id, e)) && id in s.dropped && (id in s.registrars ==> s.registrars[id].pc.Finished?)
             && Run(Next(s, Arrive(id, e)), rest).Some?
    requires forall i :: 0 <= i < |rest| ==> IsOwn(rest[i])
    ensures var s' := Run(Next(Run(Start(kinds), actions).value, Arrive(id, e)), rest).value;
            s'.router.Receiving? ==> id !in s'.tables.routes
  {
    hide Inv;
    StartInv(kinds);
    RunKeepsInv(Start(kinds), actions);
    var s := Run(Start(kinds), actions).value;
    NextKeepsInv(s, Arrive(id, e));
    RunKeepsGone(Next(s, Arrive(id, e)), rest, id);
  }
}
