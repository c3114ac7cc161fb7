/**
 The table of pending answers: every `send` that waits takes a message id and registers a waiter under it, and
 packets, teardowns and the loss of the receiver resolve waiters while the sends go on. A step is what happens
 between two suspensions.
 */
module Waiters {
  import opened Bytes
  import opened Sequences

  /** What an answer carries: a value, an RPC error, or the order to send again with another salt. */
  datatype Answer = Value(v: int) | RpcError(code: int) | BadSalt

  datatype Result = Returned(v: int) | RaisedRpc(code: int) | Resent | RaisedFailure | TimedOut | Aborted

  /** A send has its message id, is registered and before its wire write, waits for its event, or is over. */
  datatype Pc = Created | Sending | Waiting | Over(result: Result)

  datatype Waiter = Waiter(id: int, value: Option<Answer>, failed: bool, resolved: bool, pc: Pc)

  /** `results` maps message ids to waiters; `lastId` is the last id that the message factory gave out. */
  datatype State = State(waiters: seq<Waiter>, results: map<int, nat>, lastId: int)

  /** `Take` gives an id to something that waits for no answer, such as a ping or an acknowledgement. */
  datatype Step =
    | Take(clock: int)
    | Create(clock: int)
    | Register(w: nat)
    | Written(w: nat)
    | Abort(w: nat)
    | Wake(w: nat, timeout: bool)
    | Arrives(id: int, answer: Answer)
    | Teardown
    | ReceiverLost

  predicate Active(s: State, w: nat) {
    w < |s.waiters| && !s.waiters[w].pc.Over?
  }

  /** The send has been registered and is not over. */
  predicate InProgress(s: State, w: nat) {
    Active(s, w) && !s.waiters[w].pc.Created?
  }

  /** The table entry is the send's own. */
  predicate Registered(s: State, w: nat) {
    w < |s.waiters| && s.waiters[w].id in s.results && s.results[s.waiters[w].id] == w
  }

  // ----- the steps

  function Put(s: State, w: nat, next: Waiter): (r: State)
    requires w < |s.waiters|
  {
    s.(waiters := s.waiters[w := next])
  }

  /** The `finally` of `send`: the entry is removed only if it is this send's. */
  function Leave(s: State, w: nat, result: Result): (r: State)
    requires w < |s.waiters|
  {
    var gone := Put(s, w, s.waiters[w].(pc := Over(result)));
    if Registered(s, w) then gone.(results := s.results - {s.waiters[w].id}) else gone
  }

  /** What a send makes of its waiter once it wakes up: a failure counts before a value. */
  function Outcome(w: Waiter): (r: Result) {
    if w.failed then RaisedFailure
    else
      match w.value
      case None => TimedOut
      case Some(Value(v)) => Returned(v)
      case Some(RpcError(code)) => RaisedRpc(code)
      case Some(BadSalt) => Resent
  }

  function Fail(w: Waiter): (r: Waiter) {
    if w.resolved then w else w.(failed := true, resolved := true)
  }

  /** Every registered waiter that has no answer yet is failed. */
  function FailAll(s: State): (r: State)
    ensures |r.waiters| == |s.waiters| && r.results == s.results
  {
    s.(waiters := seq(|s.waiters|, w requires 0 <= w < |s.waiters| =>
      if Registered(s, w) then Fail(s.waiters[w]) else s.waiters[w]))
  }

  /** `allocate_message_identity`: the clock's id with its low bits cleared, or the next one after the last. */
  function Allocated(last: int, clock: int): (id: int)
    ensures id > last && (last % 4 == 0 ==> id % 4 == 0)
    ensures id > clock - 4 && (id <= clock || id == last + 4)
  {
    var base := clock - clock % 4;
    if base <= last then last + 4 else base
  }

  function Next(s: State, step: Step): (r: State) {
    match step
    case Take(clock) => s.(lastId := Allocated(s.lastId, clock))
    case Create(clock) =>
      var id := Allocated(s.lastId, clock);
      s.(waiters := s.waiters + [Waiter(id, None, false, false, Created)], lastId := id)
    case Register(w) =>
      if Active(s, w) && s.waiters[w].pc.Created? then
        Put(s, w, s.waiters[w].(pc := Sending)).(results := s.results[s.waiters[w].id := w])
      else
        s
    case Written(w) =>
      if Active(s, w) && s.waiters[w].pc.Sending? then Put(s, w, s.waiters[w].(pc := Waiting)) else s
    case Abort(w) =>
      if Active(s, w) then Leave(s, w, Aborted) else s
    case Wake(w, timeout) =>
      if Active(s, w) && s.waiters[w].pc.Waiting? && (timeout || s.waiters[w].resolved)
      then Leave(s, w, Outcome(s.waiters[w])) else s
    case Arrives(id, answer) =>
      if id in s.results && s.results[id] < |s.waiters| then
        var w := s.results[id];
        Put(s, w, s.waiters[w].(value := Some(answer), resolved := true))
      else
        s
    case Teardown => FailAll(s).(results := map[])
    case ReceiverLost => FailAll(s)
  }

  // ----- what every state keeps

  /** An entry belongs to a send in progress that waits under that id. */
  predicate EntryHolds(s: State, id: int) {
    id in s.results ==> InProgress(s, s.results[id]) && s.waiters[s.results[id]].id == id
  }

  predicate WaiterHolds(s: State, w: nat) {
    w < |s.waiters| ==>
      var x := s.waiters[w];
      && x.id <= s.lastId
      && (x.resolved <==> x.failed || x.value.Some?)
      && (x.pc.Over? ==> x.pc.result == Aborted || x.pc.result == Outcome(x))
  }

  /** Later sends have larger ids. */
  predicate IdsGrow(s: State, u: nat, w: nat) {
    u < w < |s.waiters| ==> s.waiters[u].id < s.waiters[w].id
  }

  ghost predicate Inv(s: State) {
    && (forall id :: EntryHolds(s, id))
    && (forall w: nat :: WaiterHolds(s, w))
    && (forall u: nat, w: nat :: IdsGrow(s, u, w))
  }

  lemma DistinctIds(s: State, u: nat, w: nat)
    requires Inv(s) && u < |s.waiters| && w < |s.waiters| && s.waiters[u].id == s.waiters[w].id
    ensures u == w
  {
    assert IdsGrow(s, u, w) && IdsGrow(s, w, u);
  }

  /** Ids that do not change go on growing. */
  lemma SameIdsGrow(a: State, b: State)
    requires Inv(a) && |b.waiters| == |a.waiters| && forall w :: 0 <= w < |a.waiters| ==> b.waiters[w].id == a.waiters[w].id
    ensures forall u: nat, w: nat :: IdsGrow(b, u, w)
  {
    forall u: nat, w: nat ensures IdsGrow(b, u, w) {
      assert IdsGrow(a, u, w);
    }
  }

  /** A waiter keeps its failure; one that has an answer and no failure keeps that; a result is final. */
  predicate KeptAt(a: State, b: State, w: nat) {
    w < |a.waiters| ==>
      && w < |b.waiters|
      && b.waiters[w].id == a.waiters[w].id
      && (a.waiters[w].failed ==> b.waiters[w].failed)
      && (a.waiters[w].resolved && !a.waiters[w].failed ==> !b.waiters[w].failed)
      && (a.waiters[w].resolved ==> b.waiters[w].resolved)
      && (a.waiters[w].pc.Over? ==> b.waiters[w] == a.waiters[w])
  }

  ghost predicate Kept(a: State, b: State) {
    forall w: nat :: KeptAt(a, b, w)
  }

  lemma FailAllAt(s: State, w: nat)
    requires Inv(s)
    ensures KeptAt(s, FailAll(s), w) && WaiterHolds(FailAll(s), w)
    ensures Registered(s, w) ==> FailAll(s).waiters[w].resolved
    ensures InProgress(FailAll(s), w) <==> InProgress(s, w)
  {
    assert WaiterHolds(s, w);
    if Registered(s, w) {
      assert EntryHolds(s, s.waiters[w].id);
    }
  }

  lemma LeaveKeeps(s: State, w: nat, result: Result)
    requires Inv(s) && Active(s, w) && (s.waiters[w].pc.Created? ==> result == Aborted) && (result == Aborted || result == Outcome(s.waiters[w]))
    ensures Inv(Leave(s, w, result)) && Kept(s, Leave(s, w, result))
  {
    var r := Leave(s, w, result);
    SameIdsGrow(s, r);
    forall id ensures EntryHolds(r, id) {
      assert EntryHolds(s, id);
    }
    forall u: nat ensures WaiterHolds(r, u) && KeptAt(s, r, u) {
      assert WaiterHolds(s, u);
    }
  }

  lemma ArrivesKeeps(s: State, id: int, answer: Answer)
    requires Inv(s)
    ensures var r := Next(s, Arrives(id, answer)); Inv(r) && Kept(s, r)
  {
    var r := Next(s, Arrives(id, answer));
    SameIdsGrow(s, r);
    assert EntryHolds(s, id);
    forall i ensures EntryHolds(r, i) {
      assert EntryHolds(s, i);
    }
    forall u: nat ensures WaiterHolds(r, u) && KeptAt(s, r, u) {
      assert WaiterHolds(s, u);
    }
  }

  lemma FailAllKeeps(s: State, clear: bool)
    requires Inv(s)
    ensures var r := if clear then FailAll(s).(results := map[]) else FailAll(s); Inv(r) && Kept(s, r)
  {
    var r := if clear then FailAll(s).(results := map[]) else FailAll(s);
    SameIdsGrow(s, r);
    forall id ensures EntryHolds(r, id) {
      assert EntryHolds(s, id);
      if id in s.results {
        FailAllAt(s, s.results[id]);
      }
    }
    forall u: nat ensures WaiterHolds(r, u) && KeptAt(s, r, u) {
      FailAllAt(s, u);
    }
  }

  lemma CreateKeeps(s: State, clock: int)
    requires Inv(s)
    ensures var r := Next(s, Create(clock)); Inv(r) && Kept(s, r)
  {
    var r := Next(s, Create(clock));
    forall i ensures EntryHolds(r, i) {
      assert EntryHolds(s, i);
    }
    forall u: nat ensures WaiterHolds(r, u) && KeptAt(s, r, u) {
      assert WaiterHolds(s, u);
    }
    forall u: nat, w: nat ensures IdsGrow(r, u, w) {
      assert IdsGrow(s, u, w) && WaiterHolds(s, u);
    }
  }

  lemma TakeKeeps(s: State, clock: int)
    requires Inv(s)
    ensures var r := Next(s, Take(clock)); Inv(r) && Kept(s, r)
  {
    var r := Next(s, Take(clock));
    SameIdsGrow(s, r);
    forall i ensures EntryHolds(r, i) {
      assert EntryHolds(s, i);
    }
    forall u: nat ensures WaiterHolds(r, u) && KeptAt(s, r, u) {
      assert WaiterHolds(s, u);
    }
  }

  lemma RegisterKeeps(s: State, w: nat)
    requires Inv(s)
    ensures var r := Next(s, Register(w)); Inv(r) && Kept(s, r)
  {
    var r := Next(s, Register(w));
    SameIdsGrow(s, r);
    forall i ensures EntryHolds(r, i) {
      assert EntryHolds(s, i);
    }
    forall u: nat ensures WaiterHolds(r, u) && KeptAt(s, r, u) {
      assert WaiterHolds(s, u);
    }
  }

  lemma WrittenKeeps(s: State, w: nat)
    requires Inv(s)
    ensures var r := Next(s, Written(w)); Inv(r) && Kept(s, r)
  {
    var r := Next(s, Written(w));
    SameIdsGrow(s, r);
    forall i ensures EntryHolds(r, i) {
      assert EntryHolds(s, i);
    }
    forall u: nat ensures WaiterHolds(r, u) && KeptAt(s, r, u) {
      assert WaiterHolds(s, u);
    }
  }

  lemma NextKeeps(s: State, step: Step)
    requires Inv(s)
    ensures Inv(Next(s, step)) && Kept(s, Next(s, step))
  {
    match step
    case Take(clock) => TakeKeeps(s, clock);
    case Create(clock) => CreateKeeps(s, clock);
    case Register(w) => RegisterKeeps(s, w);
    case Written(w) => WrittenKeeps(s, w);
    case Abort(w) => if Active(s, w) { LeaveKeeps(s, w, Aborted); }
    case Wake(w, timeout) => if InProgress(s, w) { LeaveKeeps(s, w, Outcome(s.waiters[w])); }
    case Arrives(id, answer) => ArrivesKeeps(s, id, answer);
    case Teardown => FailAllKeeps(s, true);
    case ReceiverLost => FailAllKeeps(s, false);
  }

  // ----- every run

  type Machine = (State, Step) -> State

  const EMPTY := State([], map[], 0)

  ghost predicate KeepsAt(next: Machine, s: State, step: Step) {
    Inv(s) ==> Inv(next(s, step)) && Kept(s, next(s, step))
  }

  ghost predicate Sound(next: Machine) {
    && (forall s, step :: KeepsAt(next, s, step))
    && (forall s, step :: StableAt(next, Inv, s, step))
  }

  lemma NextIsSound()
    ensures Sound(Next)
  {
    forall s, step ensures KeepsAt(Next, s, step) && StableAt(Next, Inv, s, step) {
      if Inv(s) {
        NextKeeps(s, step);
      }
    }
  }

  lemma KeptChain(a: State, b: State, c: State)
    requires Kept(a, b) && Kept(b, c)
    ensures Kept(a, c)
  {
    forall w: nat ensures KeptAt(a, c, w) {
      assert KeptAt(a, b, w) && KeptAt(b, c, w);
    }
  }

  lemma {:induction false} RunKept(next: Machine, s: State, steps: seq<Step>, i: nat, j: nat)
    requires i <= j <= |steps| && Inv(s) && Sound(next)
    ensures Kept(Run(next, s, steps, i), Run(next, s, steps, j))
    decreases j
  {
    if i < j {
      RunKept(next, s, steps, i, j - 1);
      RunKeeps(next, Inv, s, steps, j - 1);
      assert KeepsAt(next, Run(next, s, steps, j - 1), steps[j - 1]);
      KeptChain(Run(next, s, steps, i), Run(next, s, steps, j - 1), Run(next, s, steps, j));
    } else {
      var s := Run(next, s, steps, i);
      assert forall w: nat :: KeptAt(s, s, w);
    }
  }

  /** The results of any interleaving: a waiter that had its answer at some moment is never failed after it,
      one that was failed never gives a value back, and a result does not change. */
  lemma AnswersAndFailuresLast(steps: seq<Step>, i: nat, j: nat, w: nat)
    requires i <= j <= |steps| && w < |Run(Next, EMPTY, steps, i).waiters|
    ensures var a, b := Run(Next, EMPTY, steps, i), Run(Next, EMPTY, steps, j);
            && w < |b.waiters|
            && (a.waiters[w].resolved && !a.waiters[w].failed ==>
                  !b.waiters[w].failed && (b.waiters[w].pc.Over? ==> b.waiters[w].pc.result != RaisedFailure))
            && (a.waiters[w].failed && b.waiters[w].pc.Over? ==>
                  b.waiters[w].pc.result == RaisedFailure || b.waiters[w].pc.result == Aborted)
            && (a.waiters[w].pc.Over? ==> b.waiters[w] == a.waiters[w])
  {
    var a, b := Run(Next, EMPTY, steps, i), Run(Next, EMPTY, steps, j);
    NextIsSound();
    RunKept(Next, EMPTY, steps, i, j);
    RunKeeps(Next, Inv, EMPTY, steps, j);
    assert KeptAt(a, b, w) && WaiterHolds(b, w);
  }

  /** The table holds only entries of sends still in progress, each under its own id. */
  lemma TableHoldsSendsInProgress(steps: seq<Step>, n: nat, id: int)
    requires n <= |steps| && id in Run(Next, EMPTY, steps, n).results
    ensures var s := Run(Next, EMPTY, steps, n);
            InProgress(s, s.results[id]) && s.waiters[s.results[id]].id == id
  {
    NextIsSound();
    RunKeeps(Next, Inv, EMPTY, steps, n);
    assert EntryHolds(Run(Next, EMPTY, steps, n), id);
  }

  /** A teardown, and the loss of the receiver, resolve every registered waiter. */
  lemma RegisteredAreResolved(steps: seq<Step>, n: nat, w: nat)
    requires n < |steps| && (steps[n].Teardown? || steps[n].ReceiverLost?)
    requires Registered(Run(Next, EMPTY, steps, n), w)
    ensures w < |Run(Next, EMPTY, steps, n + 1).waiters| && Run(Next, EMPTY, steps, n + 1).waiters[w].resolved
  {
    NextIsSound();
    RunKeeps(Next, Inv, EMPTY, steps, n);
    FailAllAt(Run(Next, EMPTY, steps, n), w);
  }

  // ----- no waiter is lost

  /** A registered send that is not over is in the table, or has been resolved. */
  predicate CoveredAt(s: State, w: nat) {
    InProgress(s, w) ==> s.waiters[w].resolved || Registered(s, w)
  }

  ghost predicate Covered(s: State) {
    Inv(s) && forall w: nat :: CoveredAt(s, w)
  }

  /** Registering puts no other send out of the table: its id is its own. */
  lemma RegisterCovers(s: State, w: nat)
    requires Covered(s) && Active(s, w) && s.waiters[w].pc.Created?
    ensures s.waiters[w].id !in s.results
    ensures forall u: nat :: CoveredAt(Next(s, Register(w)), u)
  {
    var id := s.waiters[w].id;
    assert EntryHolds(s, id);
    if id in s.results {
      DistinctIds(s, s.results[id], w);
    }
    forall u: nat ensures CoveredAt(Next(s, Register(w)), u) {
      assert CoveredAt(s, u);
    }
  }

  lemma LeaveCovers(s: State, w: nat, result: Result)
    requires Covered(s) && Active(s, w)
    ensures forall u: nat :: CoveredAt(Leave(s, w, result), u)
  {
    forall u: nat ensures CoveredAt(Leave(s, w, result), u) {
      assert CoveredAt(s, u);
    }
  }

  lemma NextCovers(s: State, step: Step)
    requires Covered(s)
    ensures Covered(Next(s, step))
  {
    NextKeeps(s, step);
    var r := Next(s, step);
    if step.Register? && Active(s, step.w) && s.waiters[step.w].pc.Created? {
      RegisterCovers(s, step.w);
    } else if (step.Abort? || step.Wake?) && Active(s, step.w) {
      LeaveCovers(s, step.w, if step.Abort? then Aborted else Outcome(s.waiters[step.w]));
    }
    forall w: nat ensures CoveredAt(r, w) {
      assert CoveredAt(s, w);
      if step.Teardown? || step.ReceiverLost? {
        FailAllAt(s, w);
      }
    }
  }

  lemma RunCovers(steps: seq<Step>, n: nat)
    requires n <= |steps|
    ensures Covered(Run(Next, EMPTY, steps, n))
  {
    forall s, step ensures StableAt(Next, Covered, s, step) {
      if Covered(s) {
        NextCovers(s, step);
      }
    }
    RunKeeps(Next, Covered, EMPTY, steps, n);
  }

  /** In every interleaving no two sends have the same id, and no send in progress is both unresolved and out
      of the table. */
  lemma NoWaiterIsLost(steps: seq<Step>, n: nat, w: nat)
    requires n <= |steps|
    ensures var s := Run(Next, EMPTY, steps, n);
            && (InProgress(s, w) ==> s.waiters[w].resolved || Registered(s, w))
            && (forall u: nat :: u < |s.waiters| && w < |s.waiters| && u != w ==> s.waiters[u].id != s.waiters[w].id)
  {
    RunCovers(steps, n);
    var s := Run(Next, EMPTY, steps, n);
    assert CoveredAt(s, w);
    forall u: nat | u < |s.waiters| && w < |s.waiters| && u != w ensures s.waiters[u].id != s.waiters[w].id {
      assert IdsGrow(s, u, w) && IdsGrow(s, w, u);
    }
  }

  /** So a teardown, and the loss of the receiver, leave no registered send waiting. */
  lemma TeardownResolvesAll(steps: seq<Step>, n: nat, w: nat)
    requires n < |steps| && (steps[n].Teardown? || steps[n].ReceiverLost?)
    requires InProgress(Run(Next, EMPTY, steps, n + 1), w)
    ensures Run(Next, EMPTY, steps, n + 1).waiters[w].resolved
  {
    RunCovers(steps, n);
    var s := Run(Next, EMPTY, steps, n);
    assert CoveredAt(s, w);
    FailAllAt(s, w);
  }

  // ----- what a send answers

  function HeardAfter(s: State, step: Step, w: nat, heard: Option<Answer>): (r: Option<Answer>) {
    if step.Arrives? && Registered(s, w) && s.waiters[w].id == step.id then Some(step.answer) else heard
  }

  /** The last of the first `n` steps' answers that arrived under the send's id while the send was registered. */
  function Heard(steps: seq<Step>, n: nat, w: nat): (r: Option<Answer>)
    requires n <= |steps|
  {
    if n == 0 then None else HeardAfter(Run(Next, EMPTY, steps, n - 1), steps[n - 1], w, Heard(steps, n - 1, w))
  }

  predicate LostAfter(s: State, step: Step, w: nat, heard: Option<Answer>, lost: bool) {
    lost || ((step.Teardown? || step.ReceiverLost?) && Registered(s, w) && heard.None?)
  }

  /** A teardown or the loss of the receiver found the send registered before any answer. */
  predicate Lost(steps: seq<Step>, n: nat, w: nat)
    requires n <= |steps|
  {
    n > 0 && LostAfter(Run(Next, EMPTY, steps, n - 1), steps[n - 1], w, Heard(steps, n - 1, w), Lost(steps, n - 1, w))
  }

  predicate Tracks(s: State, w: nat, heard: Option<Answer>, lost: bool) {
    if w < |s.waiters| then s.waiters[w].value == heard && s.waiters[w].failed == lost else heard.None? && !lost
  }

  lemma NextTracks(s: State, step: Step, w: nat, heard: Option<Answer>, lost: bool)
    requires Inv(s) && Tracks(s, w, heard, lost)
    ensures Tracks(Next(s, step), w, HeardAfter(s, step, w, heard), LostAfter(s, step, w, heard, lost))
  {
    assert WaiterHolds(s, w);
    if step.Arrives? {
      assert EntryHolds(s, step.id);
    }
  }

  lemma {:induction false} RunTracks(steps: seq<Step>, n: nat, w: nat)
    requires n <= |steps|
    ensures Tracks(Run(Next, EMPTY, steps, n), w, Heard(steps, n, w), Lost(steps, n, w))
    decreases n
  {
    if n > 0 {
      RunTracks(steps, n - 1, w);
      RunCovers(steps, n - 1);
      NextTracks(Run(Next, EMPTY, steps, n - 1), steps[n - 1], w, Heard(steps, n - 1, w), Lost(steps, n - 1, w));
    }
  }

  /** In every interleaving, a send that is over and was not aborted raises the failure if it was lost before any
      answer, and otherwise answers by the last answer that came under its id while it was registered. */
  lemma SendAnswers(steps: seq<Step>, n: nat, w: nat)
    requires n <= |steps| && w < |Run(Next, EMPTY, steps, n).waiters|
    requires var x := Run(Next, EMPTY, steps, n).waiters[w]; x.pc.Over? && x.pc.result != Aborted
    ensures var result := Run(Next, EMPTY, steps, n).waiters[w].pc.result;
            if Lost(steps, n, w) then result == RaisedFailure
            else
              match Heard(steps, n, w)
              case None => result == TimedOut
              case Some(Value(v)) => result == Returned(v)
              case Some(RpcError(code)) => result == RaisedRpc(code)
              case Some(BadSalt) => result == Resent
  {
    RunTracks(steps, n, w);
    RunCovers(steps, n);
    assert WaiterHolds(Run(Next, EMPTY, steps, n), w);
  }

  /** The step that ends a send with the given result. */
  predicate Ends(step: Step, w: nat, result: Result) {
    if result == Aborted then step == Abort(w) else step.Wake? && step.w == w && (result == TimedOut ==> step.timeout)
  }

  lemma NextEnds(s: State, step: Step, w: nat)
    requires Inv(s) && w < |Next(s, step).waiters| && Next(s, step).waiters[w].pc.Over?
    ensures Ends(step, w, Next(s, step).waiters[w].pc.result)
         || (w < |s.waiters| && s.waiters[w].pc == Next(s, step).waiters[w].pc)
  {
    assert WaiterHolds(s, w);
    if step.Wake? && Active(s, step.w) {
      assert WaiterHolds(s, step.w);
    }
  }

  /** A send is over only by its own step: aborted by an abort, timed out by a timeout. */
  lemma {:induction false} SendEnds(steps: seq<Step>, n: nat, w: nat)
    requires n <= |steps| && w < |Run(Next, EMPTY, steps, n).waiters| && Run(Next, EMPTY, steps, n).waiters[w].pc.Over?
    ensures exists k :: 0 <= k < n && Ends(steps[k], w, Run(Next, EMPTY, steps, n).waiters[w].pc.result)
    decreases n
  {
    var s := Run(Next, EMPTY, steps, n - 1);
    RunCovers(steps, n - 1);
    NextEnds(s, steps[n - 1], w);
    if w < |s.waiters| && s.waiters[w].pc == Run(Next, EMPTY, steps, n).waiters[w].pc {
      SendEnds(steps, n - 1, w);
    }
  }

  predicate Own(step: Step, w: nat) {
    (step.Register? || step.Written? || step.Abort? || step.Wake?) && step.w == w
  }

  /** A send goes on by its own steps: it registers, waits, and once it has an answer or a failure, or its time is
      up, it is over and out of the table; until then a wake-up changes nothing. */
  lemma SendGoesOn(steps: seq<Step>, n: nat, w: nat)
    requires n < |steps| && w < |Run(Next, EMPTY, steps, n).waiters|
    ensures var a, b := Run(Next, EMPTY, steps, n), Run(Next, EMPTY, steps, n + 1);
            var pc := a.waiters[w].pc;
            && w < |b.waiters|
            && (steps[n] == Register(w) && pc.Created? ==> b.waiters[w].pc.Sending? && Registered(b, w))
            && (steps[n] == Written(w) && pc.Sending? ==> b.waiters[w].pc.Waiting?)
            && (steps[n] == Abort(w) && !pc.Over? ==> b.waiters[w].pc == Over(Aborted) && !Registered(b, w))
            && (steps[n].Wake? && steps[n].w == w && pc.Waiting? ==>
                  if steps[n].timeout || Heard(steps, n, w).Some? || Lost(steps, n, w)
                  then b.waiters[w].pc.Over? && b.waiters[w].pc.result != Aborted && !Registered(b, w)
                  else b == a)
            && (!Own(steps[n], w) ==>
                  b.waiters[w].pc == pc && (Registered(b, w) <==> Registered(a, w) && !steps[n].Teardown?))
  {
    RunTracks(steps, n, w);
    RunCovers(steps, n);
    NextGoesOn(Run(Next, EMPTY, steps, n), steps[n], w);
  }

  lemma NextGoesOn(s: State, step: Step, w: nat)
    requires Inv(s) && w < |s.waiters|
    ensures var r := Next(s, step);
            var pc := s.waiters[w].pc;
            && w < |r.waiters|
            && (step == Register(w) && pc.Created? ==> r.waiters[w].pc.Sending? && Registered(r, w))
            && (step == Written(w) && pc.Sending? ==> r.waiters[w].pc.Waiting?)
            && (step == Abort(w) && !pc.Over? ==> r.waiters[w].pc == Over(Aborted) && !Registered(r, w))
            && (step.Wake? && step.w == w && pc.Waiting? ==>
                  if step.timeout || s.waiters[w].value.Some? || s.waiters[w].failed
                  then r.waiters[w].pc.Over? && r.waiters[w].pc.result != Aborted && !Registered(r, w)
                  else r == s)
            && (!Own(step, w) ==> r.waiters[w].pc == pc && (Registered(r, w) <==> Registered(s, w) && !step.Teardown?))
  {
    assert WaiterHolds(s, w);
    if (step.Register? || step.Wake? || step.Abort?) && step.w < |s.waiters| && step.w != w {
      assert IdsGrow(s, w, step.w) && IdsGrow(s, step.w, w);
    }
  }

  /** A new send takes an id above every earlier one and is not registered yet. */
  lemma SendBegins(steps: seq<Step>, n: nat)
    requires n < |steps| && steps[n].Create?
    ensures var a, b := Run(Next, EMPTY, steps, n), Run(Next, EMPTY, steps, n + 1);
            var w := |a.waiters|;
            && |b.waiters| == w + 1 && b.waiters[..w] == a.waiters && b.waiters[w].pc.Created? && !Registered(b, w)
            && forall u :: 0 <= u < w ==> a.waiters[u].id < b.waiters[w].id
  {
    RunCovers(steps, n);
    RunCovers(steps, n + 1);
    var a, b := Run(Next, EMPTY, steps, n), Run(Next, EMPTY, steps, n + 1);
    var w := |a.waiters|;
    assert EntryHolds(b, b.waiters[w].id);
    forall u | 0 <= u < w ensures a.waiters[u].id < b.waiters[w].id {
      assert IdsGrow(b, u, w);
    }
  }
}
