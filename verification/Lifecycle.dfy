/**
 The life cycle of a session as an interleaving of its tasks: starts, restarts, scheduled restarts,
 the receiver, stops and teardowns. A step is what one task does between two suspensions; `_set_state`
 never suspends while it holds its lock, so it is part of the step that calls it.
 */
module Lifecycle {
  import opened Bytes
  import opened Sequences

  datatype Phase = Starting | Started | Stopping | Stopped | StopFailed

  /** A teardown has been created, has announced itself and drains, has tried to close the connection, is over. */
  datatype Teardown = Created | Draining | Closed(ok: bool) | Ended(ok: bool, clean: bool)

  /** Where a task that runs `start` or `restart` is suspended; `td` is the teardown it waits for. */
  datatype Pc =
    | Ready
    | Connecting(endpoint: nat)
    | LateClose(endpoint: nat)
    | Handshake(endpoint: nat)
    | Cleanup(endpoint: nat, td: nat)
    | Callback
    | Leave(td: nat)
    | Failed(td: nat)
    | Locking
    | RestartStop(td: nat)
    | LastStop(td: nat)
    | Sleeping
    | Over(raised: bool)

  /** `owner` marks the initial start. */
  datatype Task = Task(pc: Pc, restart: bool, scheduled: bool, owner: bool)

  datatype State = State(
    phase: Phase, flag: bool, started: bool, requested: bool, locked: bool,
    stopTask: Option<nat>, teardowns: seq<Teardown>, tasks: seq<Task>, endpoints: nat)

  /** What a suspended call comes back with. `Retry` stands for the errors that move on to the next
      endpoint, `Fatal` for all others and for a cancellation. */
  datatype Reply = Fine | Retry | Fatal | Pending

  datatype Step =
    | NewStart(owner: bool)
    | NewRestart
    | CallStop
    | Schedule
    | ReceiverEnds(current: bool)
    | Resume(task: nat, reply: Reply, alive: bool, callback: bool)
    | Tear(td: nat, ok: bool, clean: bool)

  predicate Up(p: Phase) {
    p == Starting || p == Started
  }

  predicate Down(p: Phase) {
    p == Stopped || p == StopFailed
  }

  predicate Live(s: State, t: nat) {
    t < |s.teardowns| && !s.teardowns[t].Ended?
  }

  // ----- what every state keeps

  /** Only the teardown that `_stop_task` names is live. */
  ghost predicate OneTeardown(s: State) {
    && (forall t: nat :: Live(s, t) ==> s.stopTask == Some(t))
    && (s.stopTask.Some? ==> s.stopTask.value < |s.teardowns|)
  }

  predicate Running(s: State) {
    s.stopTask.Some? && Live(s, s.stopTask.value)
  }

  /** The teardown that `_stop_task` names is over, with failures. */
  predicate Rejected(s: State) {
    && s.stopTask.Some? && s.stopTask.value < |s.teardowns|
    && s.teardowns[s.stopTask.value].Ended? && !s.teardowns[s.stopTask.value].clean
  }

  ghost predicate Core(s: State) {
    && OneTeardown(s)
    && (Down(s.phase) ==> !Running(s))
    && (s.phase == StopFailed ==> s.flag && Rejected(s))
    && (Running(s) && s.teardowns[s.stopTask.value].Closed? && !s.teardowns[s.stopTask.value].ok ==> s.flag)
  }

  /** ... and a session that must stay stopped is down as soon as no teardown is at work. */
  ghost predicate Inv(s: State) {
    Core(s) && (s.flag && !Running(s) ==> Down(s.phase))
  }

  /** Once the flag is up it stays and nothing makes the session start; a failed stop is final. */
  predicate Guarded(a: State, b: State) {
    && (a.flag ==> b.flag && (Up(b.phase) ==> b.phase == a.phase) && (b.started ==> a.started))
    && (a.flag && Down(a.phase) ==> b.phase == a.phase)
    && (a.phase == StopFailed ==> b.phase == StopFailed)
  }

  /** The live teardown has run its first piece. */
  predicate Announced(s: State) {
    Running(s) && !s.teardowns[s.stopTask.value].Created?
  }

  /** Only teardowns announce themselves and bring the session down. */
  predicate Calm(a: State, b: State) {
    var down := Down(b.phase) ==> b.phase == a.phase;
    down && (Announced(b) <==> Announced(a))
  }

  ghost predicate Keeps(a: State, b: State) {
    var safe := Inv(b) && Guarded(a, b);
    Inv(a) ==> safe
  }

  /** A step that is not a teardown's and leaves `is_started` alone. */
  ghost predicate Quiet(a: State, b: State) {
    var quiet := Keeps(a, b) && Calm(a, b) && b.started == a.started;
    quiet
  }

  /** Only task `k` has gone on, and a scheduled restart ends only if the session is ready or must stay stopped. */
  ghost predicate Persists(a: State, b: State, k: nat) {
    var alone := k < |a.tasks| == |b.tasks| && b.tasks == a.tasks[k := a.tasks[k].(pc := b.tasks[k].pc)];
    var ends := alone && a.tasks[k].scheduled && !a.tasks[k].pc.Over? && b.tasks[k].pc.Over?;
    var persists := alone && (ends ==> b.flag || (b.started && !b.requested));
    persists
  }

  /** What a piece of a task's step promises. */
  ghost predicate Advances(a: State, b: State, k: nat) {
    var advances := Quiet(a, b) && Persists(a, b, k);
    advances
  }

  // ----- the pieces of a step

  datatype Join = Wait(td: nat) | Returned | Refused

  /** `_stop` up to its suspension: join the live teardown, refuse after a failed one, or create one. */
  function StopCall(s: State): (r: (State, Join))
    ensures Core(s) ==> Inv(r.0)
    ensures Calm(s, r.0)
    ensures r.0.(stopTask := s.stopTask, teardowns := s.teardowns) == s
  {
    if Running(s) then (s, Wait(s.stopTask.value))
    else if s.phase == StopFailed && Rejected(s) then (s, Refused)
    else if s.phase == Stopped then (s, Returned)
    else (s.(stopTask := Some(|s.teardowns|), teardowns := s.teardowns + [Created]), Wait(|s.teardowns|))
  }

  function Park(s: State, k: nat, pc: Pc): (r: State)
    requires k < |s.tasks|
    ensures r.(tasks := s.tasks) == s
    ensures Quiet(s, r)
  {
    s.(tasks := s.tasks[k := s.tasks[k].(pc := pc)])
  }

  /** The end of a `start` that was called directly, or of a `restart`, which gives the lock back. A scheduled
      restart that raised, or that left the session unready, is tried again later. */
  function Finish(s: State, k: nat, raised: bool): (r: State)
    requires k < |s.tasks|
    ensures Advances(s, r, k)
  {
    var t := s.tasks[k];
    var again := t.scheduled && (raised || (!s.flag && (s.requested || !s.started)));
    Park(if t.restart then s.(locked := false) else s, k, if again then Sleeping else Over(raised))
  }

  /** `start` comes back normally; a restart then looks at the flag once more. */
  function Return(s: State, k: nat): (r: State)
    requires k < |s.tasks|
    ensures Advances(s, r, k)
  {
    if s.tasks[k].restart && s.flag then
      var (s', join) := StopCall(s);
      if join.Wait? then Park(s', k, LastStop(join.td)) else Finish(s', k, join.Refused?)
    else
      Finish(s, k, false)
  }

  /** An error leaves `_start`: the owner's failure raises the flag, then the session is stopped. */
  function Raise(s: State, k: nat): (r: State)
    requires k < |s.tasks|
    ensures Advances(s, r, k)
  {
    var (s', join) := StopCall(if s.tasks[k].owner then s.(flag := true) else s);
    if join.Wait? then Park(s', k, Failed(join.td)) else Finish(s', k, true)
  }

  /** The head of the endpoint loop. */
  function TryEndpoint(s: State, k: nat, endpoint: nat): (r: State)
    requires k < |s.tasks|
    ensures Advances(s, r, k)
  {
    if s.flag then Return(s, k) else Park(s.(phase := Starting), k, Connecting(endpoint))
  }

  /** The head of `_start`. */
  function Enter(s: State, k: nat): (r: State)
    requires k < |s.tasks|
    ensures Advances(s, r, k)
  {
    if Up(s.phase) || s.flag then Return(s, k) else TryEndpoint(s, k, 0)
  }

  /** `await self._stop(); return`. */
  function StopAndLeave(s: State, k: nat): (r: State)
    requires k < |s.tasks|
    ensures Advances(s, r, k)
  {
    var (s', join) := StopCall(s);
    match join
    case Wait(td) => Park(s', k, Leave(td))
    case Returned => Return(s', k)
    case Refused => Raise(s', k)
  }

  /** After the cleanup of a failed endpoint. */
  function NextEndpoint(s: State, k: nat, endpoint: nat): (r: State)
    requires k < |s.tasks|
    ensures Advances(s, r, k)
  {
    if s.flag then Return(s, k)
    else if endpoint + 1 >= s.endpoints then Raise(s, k)
    else TryEndpoint(s, k, endpoint + 1)
  }

  /** An endpoint has failed with an error that allows another. */
  function CleanUp(s: State, k: nat, endpoint: nat): (r: State)
    requires k < |s.tasks|
    ensures Advances(s, r, k)
  {
    var (s', join) := StopCall(s);
    match join
    case Wait(td) => Park(s', k, Cleanup(endpoint, td))
    case Returned => NextEndpoint(s', k, endpoint)
    case Refused => Raise(s', k)
  }

  /** The handshake is through: the session becomes ready, unless it must stay stopped. */
  function BecomeReady(s: State, k: nat, callback: bool): (r: State)
    requires k < |s.tasks|
    ensures Persists(s, r, k) && Keeps(s, r) && Calm(s, r) && r.started == (s.started || !s.flag)
    ensures !s.flag ==> r.phase == Started
  {
    if s.flag then StopAndLeave(s, k)
    else
      var ready := s.(phase := Started, started := true);
      if callback then Park(ready, k, Callback) else Return(ready, k)
  }

  /** A restart has stopped the session: it starts it again, unless it must stay stopped. */
  function StartAgain(s: State, k: nat): (r: State)
    requires k < |s.tasks|
    ensures Advances(s, r, k)
  {
    if s.flag then Finish(s, k, false) else Enter(s, k)
  }

  /** A restart that has the lock stops the session first. */
  function StopToRestart(s: State, k: nat): (r: State)
    requires k < |s.tasks|
    ensures Advances(s, r, k)
  {
    var (s', join) := StopCall(s);
    match join
    case Wait(td) => Park(s', k, RestartStop(td))
    case Returned => StartAgain(s', k)
    case Refused => Finish(s', k, true)
  }

  /** A call on the connection of an endpoint fails, or has not come back. */
  function EndpointFails(s: State, k: nat, endpoint: nat, reply: Reply): (r: State)
    requires k < |s.tasks|
    ensures Advances(s, r, k)
  {
    match reply
    case Retry => CleanUp(s, k, endpoint)
    case Fatal => Raise(s, k)
    case _ => s
  }

  // ----- the steps

  /** Whether the teardown that a caller waits for is over. */
  predicate IsOver(s: State, td: nat) {
    td < |s.teardowns| && s.teardowns[td].Ended?
  }

  /** The handshake comes back with everything in order: the guard of the branch that sets `is_started`. */
  predicate Finishes(s: State, k: nat, reply: Reply, alive: bool) {
    k < |s.tasks| && s.tasks[k].pc.Handshake? && reply == Fine && alive && !s.requested && !s.flag
  }

  /** A task goes on; `alive` tells that the receiver runs, `callback` that a connect handler is set. */
  function Resumed(s: State, k: nat, reply: Reply, alive: bool, callback: bool): (r: State)
    requires k < |s.tasks|
    ensures Keeps(s, r) && Calm(s, r)
    ensures r.started == (s.started || Finishes(s, k, reply, alive))
    ensures Finishes(s, k, reply, alive) ==> r.phase == Started
  {
    match s.tasks[k].pc
    case Ready => Enter(s, k)
    case Connecting(e) =>
      if reply == Fine then Park(s, k, if s.flag then LateClose(e) else Handshake(e))
      else EndpointFails(s, k, e, reply)
    case LateClose(e) =>
      if reply == Fine then Return(s, k) else EndpointFails(s, k, e, reply)
    case Handshake(e) =>
      if reply == Fine && alive && !s.requested then BecomeReady(s, k, callback)
      else EndpointFails(s, k, e, if reply == Fine then Retry else reply)
    case Callback =>
      if reply == Pending then s
      else if reply == Fatal then Raise(s, k)
      else if s.flag then StopAndLeave(s, k)
      else if alive && !s.requested then Return(s, k)
      else Raise(s, k)
    case Cleanup(e, td) =>
      if !IsOver(s, td) then s
      else if reply == Fatal || !s.teardowns[td].clean then Raise(s, k)
      else NextEndpoint(s, k, e)
    case Leave(td) =>
      if !IsOver(s, td) then s
      else if reply == Fatal || !s.teardowns[td].clean then Raise(s, k)
      else Return(s, k)
    case Failed(td) => if !IsOver(s, td) then s else Finish(s, k, true)
    case Locking =>
      if s.locked then s
      else if reply == Fatal then Park(s, k, Over(true))
      else StopToRestart(s.(locked := true), k)
    case RestartStop(td) =>
      if !IsOver(s, td) then s
      else if reply == Fatal || !s.teardowns[td].clean then Finish(s, k, true)
      else StartAgain(s, k)
    case LastStop(td) =>
      if !IsOver(s, td) then s else Finish(s, k, reply == Fatal || !s.teardowns[td].clean)
    case Sleeping =>
      if s.flag || reply != Retry then Park(s, k, Over(reply == Fatal))
      else Park(s.(requested := false), k, Locking)
    case Over(_) => s
  }

  predicate ScheduledLive(s: State) {
    exists k :: 0 <= k < |s.tasks| && s.tasks[k].scheduled && !s.tasks[k].pc.Over?
  }

  /** `schedule_restart`. */
  function Scheduled(s: State): (r: State)
    ensures Keeps(s, r) && Calm(s, r)
  {
    if s.flag then s
    else
      var asked := s.(requested := true, started := false);
      if ScheduledLive(s) then asked
      else asked.(tasks := s.tasks + [Task(Sleeping, true, true, false)])
  }

  /** The `finally` of the receiver; `current` tells that it is the session's own receiver. */
  function ReceiverEnded(s: State, current: bool): (r: State)
    ensures Keeps(s, r) && Calm(s, r)
  {
    if current && !s.flag && Up(s.phase) then
      var silent := s.(started := false);
      if s.phase == Started then Scheduled(silent) else silent
    else
      s
  }

  /** One piece of `_stop_resources`. */
  function Torn(s: State, td: nat, ok: bool, clean: bool): (r: State)
    requires td < |s.teardowns|
  {
    match s.teardowns[td]
    case Created => s.(phase := Stopping, started := false, teardowns := s.teardowns[td := Draining])
    case Draining => s.(flag := s.flag || !ok, teardowns := s.teardowns[td := Closed(ok)])
    case Closed(ok) =>
      s.(phase := if ok then Stopped else StopFailed, teardowns := s.teardowns[td := Ended(ok, ok && clean)])
    case Ended(_, _) => s
  }

  lemma TornKeeps(s: State, td: nat, ok: bool, clean: bool)
    requires td < |s.teardowns|
    ensures Keeps(s, Torn(s, td, ok, clean))
  {
    var r := Torn(s, td, ok, clean);
    if Inv(s) && Live(s, td) {
      assert s.stopTask == Some(td);
      forall t: nat | Live(r, t) ensures r.stopTask == Some(t) {
        assert Live(s, t);
      }
    }
  }

  function Next(s: State, step: Step): (r: State)
    ensures Keeps(s, r)
    ensures !step.Tear? ==> Calm(s, r)
  {
    match step
    case NewStart(owner) => s.(tasks := s.tasks + [Task(Ready, false, false, owner)])
    case NewRestart => s.(tasks := s.tasks + [Task(Locking, true, false, false)])
    case CallStop => StopCall(s.(flag := true)).0
    case Schedule => Scheduled(s)
    case ReceiverEnds(current) => ReceiverEnded(s, current)
    case Resume(k, reply, alive, callback) => if k < |s.tasks| then Resumed(s, k, reply, alive, callback) else s
    case Tear(td, ok, clean) =>
      if td < |s.teardowns| then
        TornKeeps(s, td, ok, clean);
        Torn(s, td, ok, clean)
      else
        s
  }

  function Initial(endpoints: nat): (s: State) {
    State(Stopped, false, false, false, false, None, [], [], endpoints)
  }

  lemma InitialHolds(endpoints: nat)
    ensures Inv(Initial(endpoints))
  {
  }

  // ----- every run

  type Machine = (State, Step) -> State

  /** The session after the first `n` steps of a run. */
  function Session(endpoints: nat, steps: seq<Step>, n: nat): (s: State)
    requires n <= |steps|
  {
    Run(Next, Initial(endpoints), steps, n)
  }

  ghost predicate KeepsAt(next: Machine, s: State, step: Step) {
    Keeps(s, next(s, step))
  }

  ghost predicate Sound(next: Machine) {
    && (forall s, step :: KeepsAt(next, s, step))
    && (forall s, step :: StableAt(next, Inv, s, step))
  }

  lemma NextIsSound()
    ensures Sound(Next)
  {
    forall s, step ensures KeepsAt(Next, s, step) && StableAt(Next, Inv, s, step) {
      assert Keeps(s, Next(s, step));
    }
  }

  lemma GuardedChain(a: State, b: State, c: State)
    requires Guarded(a, b) && Guarded(b, c)
    ensures Guarded(a, c)
  {
  }

  lemma {:induction false} RunGuards(next: Machine, s: State, steps: seq<Step>, i: nat, j: nat)
    requires i <= j <= |steps| && Inv(s) && Sound(next)
    ensures Guarded(Run(next, s, steps, i), Run(next, s, steps, j))
    decreases j
  {
    if i < j {
      RunGuards(next, s, steps, i, j - 1);
      RunKeeps(next, Inv, s, steps, j - 1);
      assert KeepsAt(next, Run(next, s, steps, j - 1), steps[j - 1]);
      GuardedChain(Run(next, s, steps, i), Run(next, s, steps, j - 1), Run(next, s, steps, j));
    }
  }

  /** Between any two states of any interleaving: once the flag is up it stays up, `is_started` is not set and
      the session does not move to STARTING or STARTED; a session down with the flag up stays as it is, and
      STOP_FAILED is never left. */
  lemma StopIsFinal(endpoints: nat, steps: seq<Step>, i: nat, j: nat)
    requires i <= j <= |steps|
    ensures Guarded(Session(endpoints, steps, i), Session(endpoints, steps, j))
  {
    NextIsSound();
    InitialHolds(endpoints);
    RunGuards(Next, Initial(endpoints), steps, i, j);
  }

  /** In every reachable state at most one teardown is live, a failed stop has the flag up, and a session
      that must stay stopped is down as soon as no teardown is live. */
  lemma ReachableStates(endpoints: nat, steps: seq<Step>, n: nat)
    requires n <= |steps|
    ensures var s := Session(endpoints, steps, n);
            && (forall t: nat, u: nat :: Live(s, t) && Live(s, u) ==> t == u)
            && (s.phase == StopFailed ==> s.flag)
            && (s.flag && (forall t: nat :: !Live(s, t)) ==> Down(s.phase))
  {
    NextIsSound();
    InitialHolds(endpoints);
    RunKeeps(Next, Inv, Initial(endpoints), steps, n);
  }

  // ----- readiness after a stop

  /** A session that is down, or whose teardown has begun, is not ready. */
  predicate Unready(s: State) {
    Announced(s) || Down(s.phase) ==> !s.started
  }

  /** A start comes out of its handshake in order, with the flag down, while a teardown is at work. */
  predicate Races(s: State, step: Step) {
    Announced(s) && step.Resume? && Finishes(s, step.task, step.reply, step.alive)
  }

  ghost predicate UnreadyAt(next: Machine, s: State, step: Step) {
    Inv(s) && Unready(s) ==> (Unready(next(s, step)) <==> !Races(s, step))
  }

  lemma TornUnready(s: State, td: nat, ok: bool, clean: bool)
    requires td < |s.teardowns| && Inv(s) && Unready(s)
    ensures Unready(Torn(s, td, ok, clean))
  {
    if Live(s, td) {
      assert s.stopTask == Some(td);
    }
  }

  lemma NextUnready(s: State, step: Step)
    ensures UnreadyAt(Next, s, step)
  {
    if Inv(s) && Unready(s) && step.Tear? && step.td < |s.teardowns| {
      TornUnready(s, step.td, step.ok, step.clean);
    }
  }

  ghost predicate AllUnready(next: Machine, s: State, steps: seq<Step>, n: nat)
    requires n <= |steps|
  {
    forall i :: 0 <= i <= n ==> Unready(Run(next, s, steps, i))
  }

  ghost predicate NoRace(next: Machine, s: State, steps: seq<Step>, n: nat)
    requires n <= |steps|
  {
    forall i :: 0 <= i < n ==> !RaceAt(next, s, steps, i)
  }

  predicate RaceAt(next: Machine, s: State, steps: seq<Step>, i: nat)
    requires i < |steps|
  {
    Races(Run(next, s, steps, i), steps[i])
  }

  lemma {:induction false} RunUnreadyIff(next: Machine, s: State, steps: seq<Step>, n: nat)
    requires n <= |steps| && Inv(s) && Unready(s) && Sound(next) && (forall a, step :: UnreadyAt(next, a, step))
    ensures AllUnready(next, s, steps, n) <==> NoRace(next, s, steps, n)
  {
    if n > 0 {
      RunUnreadyIff(next, s, steps, n - 1);
      RunKeeps(next, Inv, s, steps, n - 1);
      assert UnreadyAt(next, Run(next, s, steps, n - 1), steps[n - 1]);
      if AllUnready(next, s, steps, n) {
        assert AllUnready(next, s, steps, n - 1);
        assert Unready(Run(next, s, steps, n - 1)) && Unready(Run(next, s, steps, n));
        assert !RaceAt(next, s, steps, n - 1);
      }
      if NoRace(next, s, steps, n) {
        assert !RaceAt(next, s, steps, n - 1);
      }
    }
  }

  /** A session that is down, or going down, is never ready, exactly if no handshake comes back in order, with
      the flag down and no restart requested, while a teardown is at work. */
  lemma DownIsNotReadyIff(endpoints: nat, steps: seq<Step>, n: nat)
    requires n <= |steps|
    ensures AllUnready(Next, Initial(endpoints), steps, n) <==> NoRace(Next, Initial(endpoints), steps, n)
  {
    NextIsSound();
    forall a, step ensures UnreadyAt(Next, a, step) {
      NextUnready(a, step);
    }
    InitialHolds(endpoints);
    RunUnreadyIff(Next, Initial(endpoints), steps, n);
  }

  /** A start and a restart on one endpoint; the start is in its handshake when the restart's teardown begins. */
  function Racing(phase: Phase, flag: bool, started: bool, start: Pc, teardown: Teardown): (s: State) {
    State(phase, flag, started, false, true, Some(0), [teardown],
      [Task(start, false, false, false), Task(RestartStop(0), true, false, false)], 1)
  }

  function RaceSteps(): (steps: seq<Step>) {
    [NewStart(false), Resume(0, Fine, true, false), Resume(0, Fine, true, false),
     NewRestart, Resume(1, Fine, true, false), Tear(0, true, true),
     Resume(0, Fine, true, false), Tear(0, true, true), Tear(0, true, true), CallStop]
  }

  lemma RaceBegins()
    ensures Next(Initial(1), NewStart(false)) == Initial(1).(tasks := [Task(Ready, false, false, false)])
    ensures Next(Initial(1).(tasks := [Task(Ready, false, false, false)]), Resume(0, Fine, true, false))
         == Initial(1).(phase := Starting, tasks := [Task(Connecting(0), false, false, false)])
    ensures Next(Initial(1).(phase := Starting, tasks := [Task(Connecting(0), false, false, false)]), Resume(0, Fine, true, false))
         == Initial(1).(phase := Starting, tasks := [Task(Handshake(0), false, false, false)])
  {
  }

  lemma RaceTeardown()
    ensures var s := Initial(1).(phase := Starting, tasks := [Task(Handshake(0), false, false, false)]);
            Next(Next(s, NewRestart), Resume(1, Fine, true, false)) == Racing(Starting, false, false, Handshake(0), Created)
  {
  }

  lemma RaceEnds()
    ensures Next(Racing(Starting, false, false, Handshake(0), Created), Tear(0, true, true))
         == Racing(Stopping, false, false, Handshake(0), Draining)
    ensures Next(Racing(Stopping, false, false, Handshake(0), Draining), Resume(0, Fine, true, false))
         == Racing(Started, false, true, Over(false), Draining)
  {
  }

  lemma RaceStops()
    ensures Next(Racing(Started, false, true, Over(false), Draining), Tear(0, true, true))
         == Racing(Started, false, true, Over(false), Closed(true))
    ensures Next(Racing(Started, false, true, Over(false), Closed(true)), Tear(0, true, true))
         == Racing(Stopped, false, true, Over(false), Ended(true, true))
    ensures Next(Racing(Stopped, false, true, Over(false), Ended(true, true)), CallStop)
         == Racing(Stopped, true, true, Over(false), Ended(true, true))
  {
  }

  lemma RaceHandshake()
    ensures Session(1, RaceSteps(), 3) == Initial(1).(phase := Starting, tasks := [Task(Handshake(0), false, false, false)])
  {
    RaceBegins();
  }

  lemma RaceIsOn()
    ensures Session(1, RaceSteps(), 5) == Racing(Starting, false, false, Handshake(0), Created)
  {
    RaceHandshake();
    RaceTeardown();
  }

  /** With such a race the session ends stopped for good and yet ready. */
  lemma RaceLeavesReady()
    ensures Session(1, RaceSteps(), 10) == Racing(Stopped, true, true, Over(false), Ended(true, true))
  {
    RaceIsOn();
    RaceEnds();
    RaceStops();
    assert Session(1, RaceSteps(), 7) == Racing(Started, false, true, Over(false), Draining);
  }
}
