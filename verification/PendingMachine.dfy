/**
 The table of requests that wait for a response, shared by callers, the reader of
 responses, and the tasks that close the connection. Both newline-delimited JSON transports
 follow this protocol: a caller checks the closed flag under the table's lock and then inserts,
 a closer raises the flag first and then locks and clears the table.

 A step is one lock acquisition, one access to the flag, one table operation (with the release
 that follows it) or one send; any number of tasks interleave.

 The invariant is kept in three parts, each for one kind of step at a time: the lock names its
 holder, each request is consistent with the table and its channel (`CallerInv`), and the rest
 (`RestInv`). What follows for whole runs is in the modules PendingRequests and RequestOutcomes.
 */
module PendingMachine {
  import opened Wrappers

  type Id = string

  datatype Response = Response(id: Id, payload: string)

  datatype Outcome = Answered(response: Response) | Failed | Cancelled | Abandoned

  /** Where one caller stands. `Abandoned` is a caller that dropped its future at an await. */
  datatype CallerPc =
    | Calling
    | Checking                   // holds the lock
    | Inserting                  // holds the lock, has read "open"
    | Rejecting                  // holds the lock, has read "closed"
    | Sending
    | Withdrawing
    | Removing                   // holds the lock
    | Awaiting
    | Done(outcome: Outcome)
  {
    predicate HoldsLock() { Checking? || Inserting? || Rejecting? || Removing? }
    predicate AtAwait() { Calling? || Sending? || Withdrawing? || Awaiting? }
    predicate BeforeInsertion() { Calling? || Checking? || Inserting? || Rejecting? }
  }

  datatype ReaderPc =
    | Idle
    | Received(response: Response)
    | Holding(response: Response)    // holds the lock
    | Carrying(response: Response)   // holds the lock and the sender it removed

  datatype CloserPc = Flagging | Locking | Clearing | Finished

  /** The one-shot channel of a request, seen from its receiving end. */
  datatype Channel = Open | Sent(response: Response) | Dropped

  datatype Party = Caller(id: Id) | Reader(id: Id) | Closer(id: Id)

  /** `arrived` and `cleared` are histories: responses read so far; some close has cleared. */
  datatype State = State(
    closed: bool,
    lock: Option<Party>,
    table: set<Id>,
    channels: map<Id, Channel>,
    callers: map<Id, CallerPc>,
    readers: map<Id, ReaderPc>,
    closers: map<Id, CloserPc>,
    arrived: set<Response>,
    cleared: bool)

  /** The first five come from outside; the last three are the tasks' own steps. */
  datatype Action =
    | Call(id: Id)
    | Arrive(reader: Id, response: Response)
    | Close(closer: Id)
    | DropTransport
    | GiveUp(id: Id)
    | CallerMoves(id: Id, written: bool)
    | ReaderMoves(reader: Id)
    | CloserMoves(closer: Id)

  const START := State(false, None, {}, map[], map[], map[], map[], {}, false)

  predicate IsInternal(a: Action) {
    a.CallerMoves? || a.ReaderMoves? || a.CloserMoves?
  }

  predicate Enabled(s: State, a: Action) {
    match a
    case Call(id) => id !in s.callers
    case Arrive(r, _) => r !in s.readers || s.readers[r].Idle?
    case Close(c) => c !in s.closers
    case DropTransport => true
    case GiveUp(id) => id in s.callers && s.callers[id].AtAwait()
    case CallerMoves(id, _) =>
      && id in s.callers
      && !s.callers[id].Done?
      && (s.callers[id].Calling? || s.callers[id].Withdrawing? ==> s.lock.None?)
      && (s.callers[id].Awaiting? ==> id in s.channels && !s.channels[id].Open?)
    case ReaderMoves(r) =>
      r in s.readers && !s.readers[r].Idle? && (s.readers[r].Received? ==> s.lock.None?)
    case CloserMoves(c) =>
      c in s.closers && !s.closers[c].Finished? && (s.closers[c].Locking? ==> s.lock.None?)
  }

  /** Removing a sender from the table without using it drops it. */
  function DropSender(s: State, id: Id): State {
    if id in s.table then s.(table := s.table - {id}, channels := s.channels[id := Dropped]) else s
  }

  function DropAllSenders(s: State): State {
    s.(table := {}, channels := map id | id in s.channels :: if id in s.table then Dropped else s.channels[id])
  }

  function ReaderAt(s: State, r: Id, pc: ReaderPc): State { s.(readers := s.readers[r := pc]) }

  function CloserAt(s: State, c: Id, pc: CloserPc): State { s.(closers := s.closers[c := pc]) }

  /** A step of `p` changes the position of no other task. */
  predicate OnlyMoves(s: State, s': State, p: Party) {
    && (if p.Caller? then p.id in s'.callers && s'.callers == s.callers[p.id := s'.callers[p.id]] else s'.callers == s.callers)
    && (if p.Reader? then p.id in s'.readers && s'.readers == s.readers[p.id := s'.readers[p.id]] else s'.readers == s.readers)
    && (if p.Closer? then p.id in s'.closers && s'.closers == s.closers[p.id := s'.closers[p.id]] else s'.closers == s.closers)
  }

  /** The caller's next position, and the lock after its step. */
  function CallerNext(s: State, id: Id, written: bool): (CallerPc, Option<Party>)
    requires Enabled(s, CallerMoves(id, written))
  {
    match s.callers[id]
    case Calling => (Checking, Some(Caller(id)))
    case Checking => (if s.closed then Rejecting else Inserting, s.lock)
    case Inserting => (Sending, None)
    case Rejecting => (Done(Failed), None)
    case Sending => (if s.closed || !written then Withdrawing else Awaiting, s.lock)
    case Withdrawing => (Removing, Some(Caller(id)))
    case Removing => (Done(Failed), None)
    case Awaiting => (Done(if s.channels[id].Sent? then Answered(s.channels[id].response) else Cancelled), s.lock)
    case Done(_) => (s.callers[id], s.lock)
  }

  function CallerStep(s: State, id: Id, written: bool): (r: State)
    requires Enabled(s, CallerMoves(id, written))
    ensures OnlyMoves(s, r, Caller(id))
  {
    var (pc, lock) := CallerNext(s, id, written);
    var t :=
      if s.callers[id].Inserting? then s.(table := s.table + {id})
      else if s.callers[id].Removing? then DropSender(s, id)
      else s;
    t.(callers := s.callers[id := pc], lock := lock)
  }

  function ReaderStep(s: State, r: Id): (s': State)
    requires Enabled(s, ReaderMoves(r))
    ensures OnlyMoves(s, s', Reader(r))
  {
    match s.readers[r]
    case Idle => s
    case Received(response) => ReaderAt(s, r, Holding(response)).(lock := Some(Reader(r)))
    case Holding(response) =>
      if response.id in s.table then ReaderAt(s, r, Carrying(response)).(table := s.table - {response.id})
      else ReaderAt(s, r, Idle).(lock := None)
    case Carrying(response) =>
      ReaderAt(s, r, Idle).(channels := s.channels[response.id := Sent(response)], lock := None)
  }

  function CloserStep(s: State, c: Id): (s': State)
    requires Enabled(s, CloserMoves(c))
    ensures OnlyMoves(s, s', Closer(c))
  {
    match s.closers[c]
    case Flagging => CloserAt(s, c, Locking).(closed := true)
    case Locking => CloserAt(s, c, Clearing).(lock := Some(Closer(c)))
    case Clearing => CloserAt(DropAllSenders(s), c, Finished).(lock := None, cleared := true)
    case Finished => s
  }

  function Next(s: State, a: Action): State
    requires Enabled(s, a)
  {
    match a
    case Call(id) => s.(callers := s.callers[id := Calling], channels := s.channels[id := Open])
    case Arrive(r, response) => s.(readers := s.readers[r := Received(response)], arrived := s.arrived + {response})
    case Close(c) => s.(closers := s.closers[c := Flagging])
    case DropTransport => s.(closed := true)
    case GiveUp(id) => s.(callers := s.callers[id := Done(Abandoned)])
    case CallerMoves(id, written) => CallerStep(s, id, written)
    case ReaderMoves(r) => ReaderStep(s, r)
    case CloserMoves(c) => CloserStep(s, c)
  }

  function Run(s: State, actions: seq<Action>): (r: Option<State>)
    decreases |actions|
  {
    if actions == [] then Some(s)
    else if Enabled(s, actions[0]) then Run(Next(s, actions[0]), actions[1..])
    else None
  }

  // ----- What every reachable state keeps -----

  predicate Holds(s: State, p: Party) {
    match p
    case Caller(id) => id in s.callers && s.callers[id].HoldsLock()
    case Reader(r) => r in s.readers && (s.readers[r].Holding? || s.readers[r].Carrying?)
    case Closer(c) => c in s.closers && s.closers[c].Clearing?
  }

  ghost predicate LockExact(s: State) {
    forall p :: Holds(s, p) <==> s.lock == Some(p)
  }

  /** The sender of `id` is out of the table, in the hands of the reader that holds the lock. */
  predicate Carried(s: State, id: Id) {
    match s.lock
    case Some(Reader(r)) => r in s.readers && s.readers[r].Carrying? && s.readers[r].response.id == id
    case _ => false
  }

  ghost predicate CallerInv(s: State, id: Id) {
    id in s.callers && id in s.channels ==>
    var pc := s.callers[id];
    && (pc.BeforeInsertion() ==> id !in s.table && !Carried(s, id) && s.channels[id].Open?)
    && (id in s.table || Carried(s, id) ==> s.channels[id].Open?)
    && !(id in s.table && Carried(s, id))
    && ((pc.Sending? || pc.Awaiting?) && s.channels[id].Open? ==> id in s.table || Carried(s, id))
    && (s.channels[id].Sent? ==> s.channels[id].response.id == id && s.channels[id].response in s.arrived)
    && (pc.Done? && pc.outcome.Answered? ==> s.channels[id] == Sent(pc.outcome.response))
    && (pc == Done(Cancelled) ==> s.channels[id].Dropped?)
    && (pc == Done(Failed) || pc == Done(Cancelled) ==> id !in s.table)
    && (s.cleared ==> !pc.Inserting?)
  }

  ghost predicate RestInv(s: State) {
    && s.channels.Keys == s.callers.Keys
    && (forall id :: id in s.table || Carried(s, id) ==> id in s.callers)
    && (forall r :: r in s.readers && !s.readers[r].Idle? ==> s.readers[r].response in s.arrived)
    && (forall c :: c in s.closers && !s.closers[c].Flagging? ==> s.closed)
    && (forall c :: c in s.closers && s.closers[c].Finished? ==> s.cleared)
    && (s.cleared ==> s.closed && s.table == {})
  }

  ghost predicate Inv(s: State) {
    LockExact(s) && RestInv(s) && forall id :: CallerInv(s, id)
  }

  /** A task's step touches the lock only to take it when free or to give up its own hold. */
  predicate OwnLockChange(s: State, s': State, p: Party) {
    && (Holds(s', p) <==> s'.lock == Some(p))
    && (s'.lock == s.lock || ((s.lock.None? || s.lock == Some(p)) && (s'.lock.None? || s'.lock == Some(p))))
  }

  lemma CallerLockChange(s: State, id: Id, written: bool)
    requires LockExact(s) && Enabled(s, CallerMoves(id, written))
    ensures OwnLockChange(s, CallerStep(s, id, written), Caller(id))
  {
    assert Holds(s, Caller(id)) <==> s.lock == Some(Caller(id));
  }

  lemma ReaderLockChange(s: State, r: Id)
    requires LockExact(s) && Enabled(s, ReaderMoves(r))
    ensures OwnLockChange(s, ReaderStep(s, r), Reader(r))
  {
    assert Holds(s, Reader(r)) <==> s.lock == Some(Reader(r));
  }

  lemma CloserLockChange(s: State, c: Id)
    requires LockExact(s) && Enabled(s, CloserMoves(c))
    ensures OwnLockChange(s, CloserStep(s, c), Closer(c))
  {
    assert Holds(s, Closer(c)) <==> s.lock == Some(Closer(c));
  }

  lemma LockStaysExact(s: State, s': State, p: Party)
    requires LockExact(s) && OwnLockChange(s, s', p) && OnlyMoves(s, s', p)
    ensures LockExact(s')
  {
    forall q ensures Holds(s', q) <==> s'.lock == Some(q) {
      assert Holds(s, q) <==> s.lock == Some(q);
      if q != p {
        assert Holds(s', q) == Holds(s, q);
      }
    }
  }

  lemma CallerKeepsItself(s: State, id: Id, written: bool)
    requires Inv(s) && Enabled(s, CallerMoves(id, written))
    ensures CallerInv(CallerStep(s, id, written), id)
  {
    assert CallerInv(s, id);
    assert Holds(s, Caller(id)) <==> s.lock == Some(Caller(id));
  }

  lemma CallerKeepsOther(s: State, id: Id, written: bool, i: Id)
    requires Inv(s) && Enabled(s, CallerMoves(id, written)) && i != id
    ensures CallerInv(CallerStep(s, id, written), i)
  {
    assert CallerInv(s, i);
    assert Holds(s, Caller(id)) <==> s.lock == Some(Caller(id));
  }

  lemma ReaderKeepsCaller(s: State, r: Id, i: Id)
    requires Inv(s) && Enabled(s, ReaderMoves(r))
    ensures CallerInv(ReaderStep(s, r), i)
  {
    assert CallerInv(s, i);
    assert Holds(s, Reader(r)) <==> s.lock == Some(Reader(r));
  }

  lemma CloserKeepsCaller(s: State, c: Id, i: Id)
    requires Inv(s) && Enabled(s, CloserMoves(c))
    ensures CallerInv(CloserStep(s, c), i)
  {
    assert CallerInv(s, i);
    assert Holds(s, Closer(c)) <==> s.lock == Some(Closer(c));
    assert Holds(s, Caller(i)) <==> s.lock == Some(Caller(i));
  }

  lemma OutsideKeepsCaller(s: State, a: Action, i: Id)
    requires Inv(s) && Enabled(s, a) && !IsInternal(a)
    ensures CallerInv(Next(s, a), i)
  {
    assert CallerInv(s, i);
    match s.lock
    case Some(p) => assert Holds(s, p);
    case None =>
  }

  lemma CallerKeepsRest(s: State, id: Id, written: bool)
    requires Inv(s) && Enabled(s, CallerMoves(id, written))
    ensures RestInv(CallerStep(s, id, written))
  {
    assert CallerInv(s, id);
    assert Holds(s, Caller(id)) <==> s.lock == Some(Caller(id));
  }

  lemma ReaderKeepsRest(s: State, r: Id)
    requires Inv(s) && Enabled(s, ReaderMoves(r))
    ensures RestInv(ReaderStep(s, r))
  {
    assert Holds(s, Reader(r)) <==> s.lock == Some(Reader(r));
  }

  lemma CloserKeepsRest(s: State, c: Id)
    requires Inv(s) && Enabled(s, CloserMoves(c))
    ensures RestInv(CloserStep(s, c))
  {
    assert Holds(s, Closer(c)) <==> s.lock == Some(Closer(c));
  }

  lemma OutsideKeepsRest(s: State, a: Action)
    requires Inv(s) && Enabled(s, a) && !IsInternal(a)
    ensures RestInv(Next(s, a))
  {
    match s.lock
    case Some(p) => assert Holds(s, p);
    case None =>
  }

  lemma OutsideKeepsLock(s: State, a: Action)
    requires LockExact(s) && Enabled(s, a) && !IsInternal(a)
    ensures LockExact(Next(s, a))
  {
    forall p ensures Holds(Next(s, a), p) <==> Next(s, a).lock == Some(p) {
      assert Holds(s, p) <==> s.lock == Some(p);
    }
  }
}
