/** What every run of the pending-request table keeps, that no waiter hangs, and that responses arrive. */
module PendingRequests {
  import opened MapSums
  import opened PendingMachine
  import opened Wrappers

  lemma NextKeepsInv(s: State, a: Action)
    requires Inv(s) && Enabled(s, a)
    ensures Inv(Next(s, a))
  {
    match a
    case CallerMoves(id, written) =>
      CallerLockChange(s, id, written);
      LockStaysExact(s, Next(s, a), Caller(id));
      CallerKeepsRest(s, id, written);
      CallerKeepsItself(s, id, written);
      forall i | i != id ensures CallerInv(Next(s, a), i) { CallerKeepsOther(s, id, written, i); }
    case ReaderMoves(r) =>
      ReaderLockChange(s, r);
      LockStaysExact(s, Next(s, a), Reader(r));
      ReaderKeepsRest(s, r);
      forall i ensures CallerInv(Next(s, a), i) { ReaderKeepsCaller(s, r, i); }
    case CloserMoves(c) =>
      CloserLockChange(s, c);
      LockStaysExact(s, Next(s, a), Closer(c));
      CloserKeepsRest(s, c);
      forall i ensures CallerInv(Next(s, a), i) { CloserKeepsCaller(s, c, i); }
    case _ =>
      OutsideKeepsLock(s, a);
      OutsideKeepsRest(s, a);
      forall i ensures CallerInv(Next(s, a), i) { OutsideKeepsCaller(s, a, i); }
  }

  lemma {:induction false} RunKeepsInv(s: State, actions: seq<Action>)
    requires Inv(s) && Run(s, actions).Some?
    ensures Inv(Run(s, actions).value)
    decreases |actions|
  {
    if actions != [] {
      NextKeepsInv(s, actions[0]);
      RunKeepsInv(Next(s, actions[0]), actions[1..]);
    }
  }

  // ----- Safety of every run -----

  /** Once some close has cleared the table, it is empty in every later state and the flag is up. */
  lemma ClearedForGood(before: seq<Action>, after: seq<Action>)
    requires Run(START, before).Some? && Run(Run(START, before).value, after).Some?
    ensures var s, s' := Run(START, before).value, Run(Run(START, before).value, after).value;
            (exists c :: c in s.closers && s.closers[c].Finished?) ==> s'.closed && s'.table == {}
  {
    RunKeepsInv(START, before);
    RunKeepsInv(Run(START, before).value, after);
    RunOnlyAdvances(Run(START, before).value, after);
  }

  /** An outcome is final, and a channel that carries a response never carries another. */
  ghost predicate Advances(s: State, s': State) {
    && (s.cleared ==> s'.cleared)
    && (forall id :: id in s.callers ==> id in s'.callers)
    && (forall id :: id in s.callers && s.callers[id].Done? ==> s'.callers[id] == s.callers[id])
    && (forall id :: id in s.channels && s.channels[id].Sent? ==> id in s'.channels && s'.channels[id] == s.channels[id])
  }

  lemma NextOnlyAdvances(s: State, a: Action)
    requires Inv(s) && Enabled(s, a)
    ensures Advances(s, Next(s, a))
  {
    var s' := Next(s, a);
    forall id | id in s.channels && s.channels[id].Sent?
      ensures id in s'.channels && s'.channels[id] == s.channels[id]
    {
      assert CallerInv(s, id);
      if a.ReaderMoves? {
        assert Holds(s, Reader(a.reader)) <==> s.lock == Some(Reader(a.reader));
      }
    }
  }

  lemma {:induction false} RunOnlyAdvances(s: State, actions: seq<Action>)
    requires Inv(s) && Run(s, actions).Some?
    ensures Advances(s, Run(s, actions).value)
    decreases |actions|
  {
    if actions != [] {
      NextKeepsInv(s, actions[0]);
      NextOnlyAdvances(s, actions[0]);
      RunOnlyAdvances(Next(s, actions[0]), actions[1..]);
    }
  }

  /** A response completes only the request that carries its id, and only a response that arrived. */
  lemma AnswersMatch(actions: seq<Action>, id: Id)
    requires Run(START, actions).Some?
    ensures var s := Run(START, actions).value;
            id in s.callers && s.callers[id].Done? && s.callers[id].outcome.Answered? ==>
              s.callers[id].outcome.response.id == id && s.callers[id].outcome.response in s.arrived
  {
    RunKeepsInv(START, actions);
    assert CallerInv(Run(START, actions).value, id);
  }

  // ----- No waiter is left hanging -----

  /** A request that only a response, a close or its own caller can end. */
  predicate WaitsForServer(s: State, id: Id) {
    id in s.callers && s.callers[id].Awaiting? && id in s.table && !s.cleared
  }

  function CallerRank(pc: CallerPc): nat {
    match pc
    case Calling => 7
    case Checking => 6
    case Inserting => 5
    case Sending => 4
    case Withdrawing => 3
    case Removing => 2
    case Rejecting => 1
    case Awaiting => 1
    case Done(_) => 0
  }

  function ReaderRank(pc: ReaderPc): nat {
    match pc
    case Received(_) => 3
    case Holding(_) => 2
    case Carrying(_) => 1
    case Idle => 0
  }

  function CloserRank(pc: CloserPc): nat {
    match pc
    case Flagging => 3
    case Locking => 2
    case Clearing => 1
    case Finished => 0
  }

  function CallerRanks(callers: map<Id, CallerPc>): map<Id, nat> { map id | id in callers :: CallerRank(callers[id]) }

  function ReaderRanks(readers: map<Id, ReaderPc>): map<Id, nat> { map r | r in readers :: ReaderRank(readers[r]) }

  function CloserRanks(closers: map<Id, CloserPc>): map<Id, nat> { map c | c in closers :: CloserRank(closers[c]) }

  /** The number of own steps that all tasks together can still take. */
  ghost function Work(s: State): nat {
    Sum(CallerRanks(s.callers)) + Sum(ReaderRanks(s.readers)) + Sum(CloserRanks(s.closers))
  }

  lemma CallerUsesWork(s: State, id: Id, written: bool)
    requires Enabled(s, CallerMoves(id, written))
    ensures Work(CallerStep(s, id, written)) < Work(s)
  {
    hide CallerStep;
    var s' := CallerStep(s, id, written);
    CallerRankFalls(s, id, written);
    SumUpdate(CallerRanks(s.callers), id, CallerRank(s'.callers[id]));
    assert CallerRanks(s'.callers) == CallerRanks(s.callers)[id := CallerRank(s'.callers[id])];
  }

  lemma CallerRankFalls(s: State, id: Id, written: bool)
    requires Enabled(s, CallerMoves(id, written))
    ensures CallerRank(CallerStep(s, id, written).callers[id]) < CallerRank(s.callers[id])
  {
  }

  lemma ReaderUsesWork(s: State, r: Id)
    requires Enabled(s, ReaderMoves(r))
    ensures Work(ReaderStep(s, r)) < Work(s)
  {
    hide ReaderStep;
    var s' := ReaderStep(s, r);
    ReaderRankFalls(s, r);
    SumUpdate(ReaderRanks(s.readers), r, ReaderRank(s'.readers[r]));
    assert ReaderRanks(s'.readers) == ReaderRanks(s.readers)[r := ReaderRank(s'.readers[r])];
  }

  lemma ReaderRankFalls(s: State, r: Id)
    requires Enabled(s, ReaderMoves(r))
    ensures ReaderRank(ReaderStep(s, r).readers[r]) < ReaderRank(s.readers[r])
  {
  }

  lemma CloserUsesWork(s: State, c: Id)
    requires Enabled(s, CloserMoves(c))
    ensures Work(CloserStep(s, c)) < Work(s)
  {
    var s' := CloserStep(s, c);
    SumUpdate(CloserRanks(s.closers), c, CloserRank(s'.closers[c]));
    assert CloserRanks(s'.closers) == CloserRanks(s.closers)[c := CloserRank(s'.closers[c])];
  }

  lemma InternalStepUsesWork(s: State, a: Action)
    requires Enabled(s, a) && IsInternal(a)
    ensures Work(Next(s, a)) < Work(s)
  {
    hide Work, CallerStep, ReaderStep, CloserStep;
    match a
    case CallerMoves(id, written) => CallerUsesWork(s, id, written);
    case ReaderMoves(r) => ReaderUsesWork(s, r);
    case CloserMoves(c) => CloserUsesWork(s, c);
  }

  /** Without new input the tasks can only run for so long. */
  lemma {:induction false} InternalRunsAreBounded(s: State, actions: seq<Action>)
    requires Run(s, actions).Some? && forall i :: 0 <= i < |actions| ==> IsInternal(actions[i])
    ensures |actions| + Work(Run(s, actions).value) <= Work(s)
    decreases |actions|
  {
    if actions != [] {
      InternalStepUsesWork(s, actions[0]);
      InternalRunsAreBounded(Next(s, actions[0]), actions[1..]);
    }
  }

  /** Whoever holds the lock can move. */
  lemma HolderMoves(s: State)
    requires Inv(s) && s.lock.Some?
    ensures exists a :: IsInternal(a) && Enabled(s, a)
  {
    assert Holds(s, s.lock.value);
    match s.lock.value
    case Caller(i) => assert Enabled(s, CallerMoves(i, true));
    case Reader(r) => assert Enabled(s, ReaderMoves(r));
    case Closer(c) => assert Enabled(s, CloserMoves(c));
  }

  /** When no task can move, an unfinished request is in the table, awaits its response, and no close has cleared the table. */
  lemma OnlyTheServerIsAwaited(s: State, id: Id)
    requires Inv(s) && id in s.callers
    requires forall a :: IsInternal(a) ==> !Enabled(s, a)
    ensures s.callers[id].Done? || WaitsForServer(s, id)
  {
    if s.lock.Some? { HolderMoves(s); }
    assert CallerInv(s, id);
    assert !Enabled(s, CallerMoves(id, true));
  }

  lemma ClosersFinish(s: State, c: Id)
    requires Inv(s) && c in s.closers && forall a :: IsInternal(a) ==> !Enabled(s, a)
    ensures s.closers[c].Finished? && s.cleared
  {
    if s.lock.Some? { HolderMoves(s); }
    assert !Enabled(s, CloserMoves(c));
  }

  lemma {:induction false} ClosersStay(s: State, actions: seq<Action>, c: Id)
    requires Run(s, actions).Some? && c in s.closers
    ensures c in Run(s, actions).value.closers
    decreases |actions|
  {
    if actions != [] {
      ClosersStay(Next(s, actions[0]), actions[1..], c);
    }
  }

  /**
   After any interleaving, if some close has begun, the tasks left to themselves stop within a
   bounded number of steps, and where they stop every request has its outcome.
   */
  lemma NoWaiterHangs(actions: seq<Action>, rest: seq<Action>)
    requires Run(START, actions).Some? && exists c :: c in Run(START, actions).value.closers
    requires Run(Run(START, actions).value, rest).Some? && forall i :: 0 <= i < |rest| ==> IsInternal(rest[i])
    ensures var s := Run(START, actions).value; var s' := Run(s, rest).value;
            && |rest| <= Work(s)
            && ((forall a :: IsInternal(a) ==> !Enabled(s', a)) ==>
                  forall id :: id in s'.callers ==> s'.callers[id].Done?)
  {
    var s := Run(START, actions).value;
    var s' := Run(s, rest).value;
    RunKeepsInv(START, actions);
    RunKeepsInv(s, rest);
    InternalRunsAreBounded(s, rest);
    if forall a :: IsInternal(a) ==> !Enabled(s', a) {
      var c :| c in s.closers;
      ClosersStay(s, rest, c);
      ClosersFinish(s', c);
      forall id | id in s'.callers ensures s'.callers[id].Done? {
        OnlyTheServerIsAwaited(s', id);
      }
    }
  }

  // ----- A response reaches the request that waits for it -----

  /** Nobody closes, and only a request that failed has lost its sender. */
  ghost predicate NoneCancelled(s: State) {
    && s.closers == map[]
    && (forall id :: id in s.channels && s.channels[id].Dropped? ==> id in s.callers && s.callers[id] == Done(Failed))
    && (forall id :: id in s.callers ==> s.callers[id] != Done(Cancelled))
  }

  lemma NextCancelsNone(s: State, a: Action)
    requires Inv(s) && NoneCancelled(s) && Enabled(s, a) && !a.Close?
    ensures NoneCancelled(Next(s, a))
  {
    hide LockExact;
    if a.CallerMoves? {
      assert CallerInv(s, a.id);
    }
  }

  lemma {:induction false} RunCancelsNone(s: State, actions: seq<Action>)
    requires Inv(s) && NoneCancelled(s) && Run(s, actions).Some?
    requires forall i :: 0 <= i < |actions| ==> !actions[i].Close?
    ensures NoneCancelled(Run(s, actions).value)
    decreases |actions|
  {
    if actions != [] {
      NextKeepsInv(s, actions[0]);
      NextCancelsNone(s, actions[0]);
      RunCancelsNone(Next(s, actions[0]), actions[1..]);
    }
  }

  /** Without a close no request is cancelled. */
  lemma OnlyClosersCancel(actions: seq<Action>, id: Id)
    requires Run(START, actions).Some?
    ensures var s := Run(START, actions).value;
            id in s.callers && s.callers[id] == Done(Cancelled) ==> exists i :: 0 <= i < |actions| && actions[i].Close?
  {
    if forall i :: 0 <= i < |actions| ==> !actions[i].Close? {
      RunCancelsNone(START, actions);
    }
  }

  /** The request waits or has been ended by its channel; the reader still has the response, or the table has no entry. */
  predicate Underway(s: State, r: Id, response: Response) {
    && response.id in s.callers && r in s.readers
    && (s.callers[response.id].Awaiting? ||
        (s.callers[response.id].Done? && (s.callers[response.id].outcome.Answered? || s.callers[response.id].outcome.Cancelled?)))
    && (s.readers[r] == Received(response) || s.readers[r] == Holding(response) || response.id !in s.table)
  }

  lemma NextStaysUnderway(s: State, a: Action, r: Id, response: Response)
    requires Enabled(s, a) && IsInternal(a) && Underway(s, r, response)
    ensures Underway(Next(s, a), r, response)
  {
  }

  lemma {:induction false} RunStaysUnderway(s: State, actions: seq<Action>, r: Id, response: Response)
    requires Run(s, actions).Some? && forall i :: 0 <= i < |actions| ==> IsInternal(actions[i])
    requires Underway(s, r, response)
    ensures Underway(Run(s, actions).value, r, response)
    decreases |actions|
  {
    if actions != [] {
      NextStaysUnderway(s, actions[0], r, response);
      RunStaysUnderway(Next(s, actions[0]), actions[1..], r, response);
    }
  }

  lemma ReadersFinish(s: State, r: Id)
    requires Inv(s) && r in s.readers && forall a :: IsInternal(a) ==> !Enabled(s, a)
    ensures s.readers[r].Idle?
  {
    if s.lock.Some? { HolderMoves(s); }
    assert !Enabled(s, ReaderMoves(r));
  }

  /**
   Once a response has been read while its request waits, the tasks left to themselves end the
   request: with an answer under its own id, or, if some close has begun, possibly cancelled.
   */
  lemma ResponseEndsTheWait(actions: seq<Action>, rest: seq<Action>, r: Id, response: Response)
    requires Run(START, actions).Some?
    requires var s := Run(START, actions).value;
             && response.id in s.callers && s.callers[response.id].Awaiting?
             && r in s.readers && s.readers[r] == Received(response)
             && Run(s, rest).Some?
    requires forall i :: 0 <= i < |rest| ==> IsInternal(rest[i])
    requires forall a :: IsInternal(a) ==> !Enabled(Run(Run(START, actions).value, rest).value, a)
    ensures var callers := Run(Run(START, actions).value, rest).value.callers;
            && response.id in callers && callers[response.id].Done?
            && var outcome := callers[response.id].outcome;
            && (outcome.Cancelled? || (outcome.Answered? && outcome.response.id == response.id))
            && ((forall i :: 0 <= i < |actions| ==> !actions[i].Close?) ==> outcome.Answered?)
  {
    var s := Run(START, actions).value;
    var s' := Run(s, rest).value;
    RunKeepsInv(START, actions);
    RunKeepsInv(s, rest);
    RunStaysUnderway(s, rest, r, response);
    ReadersFinish(s', r);
    OnlyTheServerIsAwaited(s', response.id);
    assert CallerInv(s', response.id);
    if forall i :: 0 <= i < |actions| ==> !actions[i].Close? {
      RunCancelsNone(START, actions);
      RunCancelsNone(s, rest);
    }
  }
}
