/** How requests end, told from the actions of a run: what a refused write, an accepted write and a close lead to. */
module RequestOutcomes {
  import opened PendingMachine
  import opened PendingRequests
  import opened Wrappers

  predicate IsClosing(a: Action) {
    a.Close? || a.DropTransport?
  }

  /** The i-th action is the write of the request, with the given result. */
  ghost predicate WriteAt(s: State, actions: seq<Action>, id: Id, written: bool, i: nat) {
    && i < |actions| && actions[i] == CallerMoves(id, written)
    && Run(s, actions[..i]).Some?
    && var before := Run(s, actions[..i]).value; id in before.callers && before.callers[id].Sending?
  }

  lemma WriteLater(s: State, actions: seq<Action>, id: Id, written: bool, i: nat)
    requires actions != [] && Enabled(s, actions[0]) && WriteAt(Next(s, actions[0]), actions[1..], id, written, i)
    ensures WriteAt(s, actions, id, written, i + 1)
  {
    assert actions[..i + 1][1..] == actions[1..][..i];
  }

  // ----- A write that is refused -----

  predicate Withdrawn(s: State, id: Id) {
    && id in s.callers
    && (s.callers[id].Withdrawing? || s.callers[id].Removing? || s.callers[id] == Done(Failed) || s.callers[id] == Done(Abandoned))
  }

  lemma {:induction false} RunKeepsWithdrawn(s: State, actions: seq<Action>, id: Id)
    requires Run(s, actions).Some? && Withdrawn(s, id)
    ensures Withdrawn(Run(s, actions).value, id)
    decreases |actions|
  {
    if actions != [] {
      RunKeepsWithdrawn(Next(s, actions[0]), actions[1..], id);
    }
  }

  /**
   A request that could not be written ends as failed and leaves no entry, whether or not the
   connection is closed before or after: it is on its way there, and there where the tasks stop.
   */
  lemma RefusedWriteFails(before: seq<Action>, id: Id, after: seq<Action>)
    requires Run(START, before).Some?
    requires var s := Run(START, before).value;
             && id in s.callers && s.callers[id].Sending?
             && Run(Next(s, CallerMoves(id, false)), after).Some?
    ensures var s' := Run(Next(Run(START, before).value, CallerMoves(id, false)), after).value;
            && Withdrawn(s', id)
            && ((forall a :: IsInternal(a) ==> !Enabled(s', a)) && s'.callers[id] != Done(Abandoned) ==>
                  s'.callers[id] == Done(Failed) && id !in s'.table)
  {
    var s := Run(START, before).value;
    var next := Next(s, CallerMoves(id, false));
    var s' := Run(next, after).value;
    RunKeepsInv(START, before);
    NextKeepsInv(s, CallerMoves(id, false));
    RunKeepsInv(next, after);
    RunKeepsWithdrawn(next, after, id);
    if forall a :: IsInternal(a) ==> !Enabled(s', a) {
      OnlyTheServerIsAwaited(s', id);
      assert CallerInv(s', id);
    }
  }

  // ----- A write that succeeds -----

  predicate Waiting(s: State, id: Id) {
    && id in s.callers
    && (s.callers[id].Awaiting? || (s.callers[id].Done? && !s.callers[id].outcome.Failed?))
  }

  lemma {:induction false} RunKeepsWaiting(s: State, actions: seq<Action>, id: Id)
    requires Run(s, actions).Some? && Waiting(s, id)
    ensures Waiting(Run(s, actions).value, id)
    decreases |actions|
  {
    if actions != [] {
      RunKeepsWaiting(Next(s, actions[0]), actions[1..], id);
    }
  }

  /**
   On an open connection a request that has been written waits for its response from then on: it
   never fails, and without a close it is never cancelled either.
   */
  lemma WrittenRequestWaits(before: seq<Action>, id: Id, after: seq<Action>)
    requires Run(START, before).Some?
    requires var s := Run(START, before).value;
             && id in s.callers && s.callers[id].Sending? && !s.closed
             && Run(Next(s, CallerMoves(id, true)), after).Some?
    ensures var s' := Run(Next(Run(START, before).value, CallerMoves(id, true)), after).value;
            && Waiting(s', id)
            && ((forall a :: a in before + after ==> !a.Close?) ==> s'.callers[id] != Done(Cancelled))
  {
    var s := Run(START, before).value;
    var next := Next(s, CallerMoves(id, true));
    RunKeepsWaiting(next, after, id);
    if forall a :: a in before + after ==> !a.Close? {
      RunKeepsInv(START, before);
      NextKeepsInv(s, CallerMoves(id, true));
      assert forall i :: 0 <= i < |before| ==> before[i] in before + after;
      assert forall i :: 0 <= i < |after| ==> after[i] in before + after;
      RunCancelsNone(START, before);
      NextCancelsNone(s, CallerMoves(id, true));
      RunCancelsNone(next, after);
    }
  }

  /** A request waits only because its write succeeded. */
  lemma {:induction false} AwaitingWasWritten(s: State, actions: seq<Action>, id: Id) returns (i: nat)
    requires Run(s, actions).Some? && !(id in s.callers && s.callers[id].Awaiting?)
    requires id in Run(s, actions).value.callers && Run(s, actions).value.callers[id].Awaiting?
    ensures WriteAt(s, actions, id, true, i)
    decreases |actions|
  {
    var next := Next(s, actions[0]);
    if id in next.callers && next.callers[id].Awaiting? {
      i := 0;
      assert actions[..0] == [];
    } else {
      i := AwaitingWasWritten(next, actions[1..], id);
      WriteLater(s, actions, id, true, i);
      i := i + 1;
    }
  }

  /** Where the tasks stop, an unfinished request has been written, has its entry, and nobody has cleared the table. */
  lemma StoppedRequestWasWritten(actions: seq<Action>, id: Id)
    requires Run(START, actions).Some?
    requires var s := Run(START, actions).value;
             id in s.callers && !s.callers[id].Done? && forall a :: IsInternal(a) ==> !Enabled(s, a)
    ensures var s := Run(START, actions).value; s.callers[id].Awaiting? && id in s.table && !s.cleared
    ensures exists i :: WriteAt(START, actions, id, true, i)
  {
    RunKeepsInv(START, actions);
    OnlyTheServerIsAwaited(Run(START, actions).value, id);
    var i := AwaitingWasWritten(START, actions, id);
  }

  // ----- An open connection -----

  predicate Unrefused(s: State, id: Id) {
    id in s.callers ==>
      !s.callers[id].Rejecting? && !s.callers[id].Withdrawing? && !s.callers[id].Removing? && s.callers[id] != Done(Failed)
  }

  lemma NextRefusal(s: State, a: Action, id: Id)
    requires Enabled(s, a) && !IsClosing(a) && s.closers == map[] && !s.closed && Unrefused(s, id)
    ensures var s' := Next(s, a);
            && s'.closers == map[] && !s'.closed
            && (!Unrefused(s', id) ==> a == CallerMoves(id, false) && id in s.callers && s.callers[id].Sending?)
  {
  }

  lemma {:induction false} FailedByItsWrite(s: State, actions: seq<Action>, id: Id)
    requires Run(s, actions).Some? && s.closers == map[] && !s.closed && Unrefused(s, id)
    requires forall i :: 0 <= i < |actions| ==> !IsClosing(actions[i])
    ensures Unrefused(Run(s, actions).value, id) || exists i :: WriteAt(s, actions, id, false, i)
    decreases |actions|
  {
    if actions != [] {
      var next := Next(s, actions[0]);
      NextRefusal(s, actions[0], id);
      if Unrefused(next, id) {
        FailedByItsWrite(next, actions[1..], id);
        if i :| WriteAt(next, actions[1..], id, false, i) {
          WriteLater(s, actions, id, false, i);
        }
      } else {
        assert actions[..0] == [];
        assert WriteAt(s, actions, id, false, 0);
      }
    }
  }

  /**
   An open connection accepts every request: it fails only because its own write was refused, and
   where the tasks stop it waits in the table, unless it has been answered or has given up.
   */
  lemma OpenConnectionAccepts(actions: seq<Action>, id: Id)
    requires Run(START, actions).Some? && forall i :: 0 <= i < |actions| ==> !IsClosing(actions[i])
    requires id in Run(START, actions).value.callers
    ensures var s := Run(START, actions).value;
            && (s.callers[id] == Done(Failed) ==> exists i :: WriteAt(START, actions, id, false, i))
            && s.callers[id] != Done(Cancelled)
            && ((forall a :: IsInternal(a) ==> !Enabled(s, a)) ==>
                  s.callers[id].Done? || (s.callers[id].Awaiting? && id in s.table))
  {
    FailedByItsWrite(START, actions, id);
    RunCancelsNone(START, actions);
    RunKeepsInv(START, actions);
    var s := Run(START, actions).value;
    if forall a :: IsInternal(a) ==> !Enabled(s, a) {
      OnlyTheServerIsAwaited(s, id);
    }
  }

  // ----- A closed connection -----

  lemma {:induction false} FlagStaysUp(s: State, actions: seq<Action>)
    requires Run(s, actions).Some? && (s.closed || DropTransport in actions)
    ensures Run(s, actions).value.closed
    decreases |actions|
  {
    if actions != [] {
      FlagStaysUp(Next(s, actions[0]), actions[1..]);
    }
  }

  predicate Turned(s: State, id: Id) {
    id in s.callers ==>
      var pc := s.callers[id]; pc.Calling? || pc.Checking? || pc.Rejecting? || pc == Done(Failed) || pc == Done(Abandoned)
  }

  lemma NextKeepsTurned(s: State, a: Action, id: Id)
    requires Enabled(s, a) && s.closed && Turned(s, id) && id !in s.table
    ensures Next(s, a).closed && Turned(Next(s, a), id) && id !in Next(s, a).table
  {
  }

  lemma {:induction false} RunKeepsTurned(s: State, actions: seq<Action>, id: Id)
    requires Run(s, actions).Some? && s.closed && Turned(s, id) && id !in s.table
    ensures Turned(Run(s, actions).value, id) && id !in Run(s, actions).value.table
    decreases |actions|
  {
    hide Enabled, Next, Turned;
    if actions != [] {
      NextKeepsTurned(s, actions[0], id);
      RunKeepsTurned(Next(s, actions[0]), actions[1..], id);
    }
  }

  /** A request made after the transport was dropped, or after a close has raised the flag, is turned away without an entry. */
  lemma LateRequestsFail(before: seq<Action>, after: seq<Action>, id: Id)
    requires Run(START, before).Some? && Run(Run(START, before).value, after).Some?
    requires var s := Run(START, before).value;
             id !in s.callers && (DropTransport in before || exists c :: c in s.closers && !s.closers[c].Flagging?)
    ensures var s' := Run(Run(START, before).value, after).value;
            && Turned(s', id) && id !in s'.table
            && ((forall a :: IsInternal(a) ==> !Enabled(s', a)) && id in s'.callers && s'.callers[id] != Done(Abandoned) ==>
                  s'.callers[id] == Done(Failed))
  {
    var s := Run(START, before).value;
    RunKeepsInv(START, before);
    if DropTransport in before {
      FlagStaysUp(START, before);
    }
    RunKeepsTurned(s, after, id);
    RunKeepsInv(s, after);
    var s' := Run(s, after).value;
    if (forall a :: IsInternal(a) ==> !Enabled(s', a)) && id in s'.callers {
      OnlyTheServerIsAwaited(s', id);
    }
  }
}
