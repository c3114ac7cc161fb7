/**
 What the tasks of a session achieve: how a start, a restart, a stop and a failing endpoint go on, over runs.
 */
module LifecycleRuns {
  import opened Bytes
  import opened Sequences
  import opened Lifecycle

  /** The session with task `k` suspended elsewhere. */
  function Moved(s: State, k: nat, pc: Pc): (r: State)
    requires k < |s.tasks|
  {
    s.(tasks := s.tasks[k := s.tasks[k].(pc := pc)])
  }

  /** The session with a teardown just created. */
  function Halting(s: State): (r: State) {
    s.(stopTask := Some(|s.teardowns|), teardowns := s.teardowns + [Created])
  }

  /** The restart lock is given back by a task that held it. */
  function Unlocked(s: State, k: nat): (r: State)
    requires k < |s.tasks|
  {
    if s.tasks[k].restart then s.(locked := false) else s
  }

  /** No teardown is at work. */
  predicate Idle(s: State) {
    s.stopTask.Some? ==> s.stopTask.value < |s.teardowns| && s.teardowns[s.stopTask.value].Ended?
  }

  predicate EndedClean(s: State, td: nat) {
    td < |s.teardowns| && s.teardowns[td].Ended? && s.teardowns[td].clean
  }

  /** A task whose call raised: a scheduled restart will be tried again. */
  function AfterError(t: Task): (pc: Pc) {
    if t.scheduled then Sleeping else Over(true)
  }

  /** A start that was called directly. */
  predicate Direct(t: Task) {
    !t.restart && !t.scheduled
  }

  // ----- where a task goes

  /** An endpoint whose connection fails is cleaned up, and any other error ends the start with a stop. */
  predicate FailsTo(s: State, k: nat, e: nat, reply: Reply, r: State) {
    k < |s.tasks| && Idle(s) && !Down(s.phase) ==>
      && (reply == Retry ==> r == Moved(Halting(s), k, Cleanup(e, |s.teardowns|)))
      && (reply == Fatal ==> r == Moved(Halting(s.(flag := s.flag || s.tasks[k].owner)), k, Failed(|s.teardowns|)))
  }

  predicate FromHandshake(s: State, k: nat, e: nat, reply: Reply, alive: bool, callback: bool, r: State) {
    var ready := s.(phase := Started, started := true);
    k < |s.tasks| ==>
      if reply == Fine && alive && !s.requested then
        if s.flag then Idle(s) && !Down(s.phase) ==> r == Moved(Halting(s), k, Leave(|s.teardowns|))
        else r == if callback then Moved(ready, k, Callback) else Moved(Unlocked(ready, k), k, Over(false))
      else
        FailsTo(s, k, e, if reply == Fine then Retry else reply, r)
  }

  /** Once the failed endpoint is cleaned up the next one is tried; after the last one the start raises. */
  predicate FromCleanup(s: State, k: nat, e: nat, td: nat, reply: Reply, r: State) {
    k < |s.tasks| ==>
      && (!IsOver(s, td) ==> r == s)
      && (EndedClean(s, td) && reply != Fatal && !s.flag ==>
          if e + 1 < s.endpoints then r == Moved(s.(phase := Starting), k, Connecting(e + 1))
          else
            Idle(s) && s.phase == Stopped ==>
              r == Moved(Unlocked(s, k).(flag := s.tasks[k].owner), k, AfterError(s.tasks[k])))
  }

  predicate FromLocking(s: State, k: nat, reply: Reply, r: State) {
    k < |s.tasks| ==>
      && (s.locked ==> r == s)
      && (!s.locked && reply != Fatal && Idle(s) ==>
          && (!Down(s.phase) ==> r == Moved(Halting(s.(locked := true)), k, RestartStop(|s.teardowns|)))
          && (s.phase == Stopped && !s.flag ==> r == Moved(s.(locked := true, phase := Starting), k, Connecting(0))))
  }

  /** The restart comes back, unless another start has come first. */
  predicate FromRestartStop(s: State, k: nat, td: nat, reply: Reply, r: State) {
    k < |s.tasks| ==>
      && (!IsOver(s, td) ==> r == s)
      && (EndedClean(s, td) && reply != Fatal && !s.flag && !Up(s.phase) ==> r == Moved(s.(phase := Starting), k, Connecting(0)))
  }

  /** Where a resumed task goes, by where it was. */
  predicate GoesOn(s: State, k: nat, reply: Reply, alive: bool, callback: bool, r: State)
    requires k < |s.tasks|
  {
    match s.tasks[k].pc
    case Ready =>
      if !s.flag && !Up(s.phase) then r == Moved(s.(phase := Starting), k, Connecting(0))
      else Direct(s.tasks[k]) ==> r == Moved(s, k, Over(false))
    case Connecting(e) =>
      if reply == Fine then r == Moved(s, k, if s.flag then LateClose(e) else Handshake(e)) else FailsTo(s, k, e, reply, r)
    case LateClose(e) =>
      if reply == Fine then Direct(s.tasks[k]) ==> r == Moved(s, k, Over(false)) else FailsTo(s, k, e, reply, r)
    case Handshake(e) => FromHandshake(s, k, e, reply, alive, callback, r)
    case Callback =>
      (reply == Fine || reply == Retry) && !s.flag && alive && !s.requested && s.started ==>
        r == Moved(Unlocked(s, k), k, Over(false))
    case Cleanup(e, td) => FromCleanup(s, k, e, td, reply, r)
    case Leave(td) =>
      && (!IsOver(s, td) ==> r == s)
      && (EndedClean(s, td) && reply != Fatal && Direct(s.tasks[k]) ==> r == Moved(s, k, Over(false)))
    case LastStop(td) =>
      && (!IsOver(s, td) ==> r == s)
      && (EndedClean(s, td) && reply != Fatal && s.flag ==> r == Moved(Unlocked(s, k), k, Over(false)))
    case Failed(td) => IsOver(s, td) ==> r == Moved(Unlocked(s, k), k, AfterError(s.tasks[k]))
    case Locking => FromLocking(s, k, reply, r)
    case RestartStop(td) => FromRestartStop(s, k, td, reply, r)
    case Sleeping =>
      if !s.flag && reply == Retry then r == Moved(s.(requested := false), k, Locking) else r == Moved(s, k, Over(reply == Fatal))
    case Over(_) => r == s
  }

  lemma ReadyGoesOn(s: State, k: nat, reply: Reply, alive: bool, callback: bool)
    requires k < |s.tasks| && s.tasks[k].pc.Ready?
    ensures GoesOn(s, k, reply, alive, callback, Resumed(s, k, reply, alive, callback))
  {
  }

  lemma EndpointGoesOn(s: State, k: nat, reply: Reply, alive: bool, callback: bool)
    requires k < |s.tasks| && (s.tasks[k].pc.Connecting? || s.tasks[k].pc.LateClose?)
    ensures GoesOn(s, k, reply, alive, callback, Resumed(s, k, reply, alive, callback))
  {
    if reply != Fine {
      var e := s.tasks[k].pc.endpoint;
      assert Resumed(s, k, reply, alive, callback) == EndpointFails(s, k, e, reply);
      EndpointFailsTo(s, k, e, reply);
    }
  }

  lemma EndpointFailsTo(s: State, k: nat, e: nat, reply: Reply)
    requires k < |s.tasks|
    ensures FailsTo(s, k, e, reply, EndpointFails(s, k, e, reply))
  {
  }

  lemma HandshakeGoesOn(s: State, k: nat, reply: Reply, alive: bool, callback: bool)
    requires k < |s.tasks| && s.tasks[k].pc.Handshake?
    ensures GoesOn(s, k, reply, alive, callback, Resumed(s, k, reply, alive, callback))
  {
  }

  lemma RaisesWhenStopped(s: State, k: nat)
    requires k < |s.tasks| && Idle(s) && s.phase == Stopped && !s.flag
    ensures Raise(s, k) == Moved(Unlocked(s, k).(flag := s.tasks[k].owner), k, AfterError(s.tasks[k]))
  {
  }

  lemma NextEndpointIs(s: State, k: nat, e: nat)
    requires k < |s.tasks| && !s.flag
    ensures NextEndpoint(s, k, e) == if e + 1 < s.endpoints then Moved(s.(phase := Starting), k, Connecting(e + 1)) else Raise(s, k)
  {
  }

  lemma CleanupGoesOn(s: State, k: nat, reply: Reply, alive: bool, callback: bool)
    requires k < |s.tasks| && s.tasks[k].pc.Cleanup?
    ensures GoesOn(s, k, reply, alive, callback, Resumed(s, k, reply, alive, callback))
  {
    var e, td := s.tasks[k].pc.endpoint, s.tasks[k].pc.td;
    if EndedClean(s, td) && reply != Fatal && !s.flag {
      assert Resumed(s, k, reply, alive, callback) == NextEndpoint(s, k, e);
      NextEndpointIs(s, k, e);
      if Idle(s) && s.phase == Stopped {
        RaisesWhenStopped(s, k);
      }
    }
  }

  lemma RestartGoesOn(s: State, k: nat, reply: Reply, alive: bool, callback: bool)
    requires k < |s.tasks| && (s.tasks[k].pc.Locking? || s.tasks[k].pc.RestartStop?)
    ensures GoesOn(s, k, reply, alive, callback, Resumed(s, k, reply, alive, callback))
  {
  }

  lemma StopGoesOn(s: State, k: nat, reply: Reply, alive: bool, callback: bool)
    requires k < |s.tasks| && (s.tasks[k].pc.Leave? || s.tasks[k].pc.LastStop? || s.tasks[k].pc.Failed?)
    ensures GoesOn(s, k, reply, alive, callback, Resumed(s, k, reply, alive, callback))
  {
  }

  lemma OtherGoesOn(s: State, k: nat, reply: Reply, alive: bool, callback: bool)
    requires k < |s.tasks| && (s.tasks[k].pc.Callback? || s.tasks[k].pc.Sleeping? || s.tasks[k].pc.Over?)
    ensures GoesOn(s, k, reply, alive, callback, Resumed(s, k, reply, alive, callback))
  {
  }

  lemma TaskGoesOn(s: State, k: nat, reply: Reply, alive: bool, callback: bool)
    requires k < |s.tasks|
    ensures GoesOn(s, k, reply, alive, callback, Resumed(s, k, reply, alive, callback))
  {
    match s.tasks[k].pc
    case Ready => ReadyGoesOn(s, k, reply, alive, callback);
    case Connecting(_) => EndpointGoesOn(s, k, reply, alive, callback);
    case LateClose(_) => EndpointGoesOn(s, k, reply, alive, callback);
    case Handshake(_) => HandshakeGoesOn(s, k, reply, alive, callback);
    case Cleanup(_, _) => CleanupGoesOn(s, k, reply, alive, callback);
    case Locking => RestartGoesOn(s, k, reply, alive, callback);
    case RestartStop(_) => RestartGoesOn(s, k, reply, alive, callback);
    case Leave(_) => StopGoesOn(s, k, reply, alive, callback);
    case LastStop(_) => StopGoesOn(s, k, reply, alive, callback);
    case Failed(_) => StopGoesOn(s, k, reply, alive, callback);
    case _ => OtherGoesOn(s, k, reply, alive, callback);
  }

  ghost predicate GoesOnAt(next: Machine, s: State, step: Step) {
    step.Resume? && step.task < |s.tasks| ==> GoesOn(s, step.task, step.reply, step.alive, step.callback, next(s, step))
  }

  /** The three pieces of a teardown. */
  predicate TearsTo(s: State, td: nat, ok: bool, clean: bool, r: State) {
    td < |s.teardowns| ==>
      match s.teardowns[td]
      case Created => r == s.(phase := Stopping, started := false, teardowns := s.teardowns[td := Draining])
      case Draining => r == s.(flag := s.flag || !ok, teardowns := s.teardowns[td := Closed(ok)])
      case Closed(closed) =>
        r == s.(phase := if closed then Stopped else StopFailed, teardowns := s.teardowns[td := Ended(closed, closed && clean)])
      case Ended(_, _) => r == s
  }

  ghost predicate TearsAt(next: Machine, s: State, step: Step) {
    step.Tear? ==> TearsTo(s, step.td, step.ok, step.clean, next(s, step))
  }

  ghost predicate Moves(next: Machine) {
    (forall s, step :: GoesOnAt(next, s, step)) && (forall s, step :: TearsAt(next, s, step))
  }

  lemma NextMoves()
    ensures Moves(Next)
  {
    forall s, step ensures GoesOnAt(Next, s, step) && TearsAt(Next, s, step) {
      if step.Resume? && step.task < |s.tasks| {
        TaskGoesOn(s, step.task, step.reply, step.alive, step.callback);
      }
    }
  }

  /** In every run, whatever else goes on: a start goes from its head to its first endpoint, through connection and
      handshake to a ready session, after a failure to the cleanup and from a clean one to the next endpoint or,
      after the last, to an error; a restart goes through its stop to a start. */
  lemma TasksGoOn(endpoints: nat, steps: seq<Step>, n: nat)
    requires n < |steps|
    ensures GoesOnAt(Next, Session(endpoints, steps, n), steps[n])
    ensures Session(endpoints, steps, n + 1) == Next(Session(endpoints, steps, n), steps[n])
  {
    NextMoves();
  }

  // ----- undisturbed runs

  predicate Resumes(steps: seq<Step>, i: nat, k: nat, reply: Reply) {
    i < |steps| && steps[i].Resume? && steps[i].task == k && steps[i].reply == reply
  }

  /** The three pieces of one teardown, from step `i` on. */
  predicate TearsDown(steps: seq<Step>, i: nat, td: nat, ok: bool, clean: bool) {
    && i + 2 < |steps|
    && steps[i].Tear? && steps[i].td == td
    && steps[i + 1].Tear? && steps[i + 1].td == td && steps[i + 1].ok == ok
    && steps[i + 2].Tear? && steps[i + 2].td == td && steps[i + 2].clean == clean
  }

  /** The session after a whole teardown. */
  function TornDown(s: State, td: nat, ok: bool, clean: bool): (r: State)
    requires td < |s.teardowns|
  {
    s.(phase := if ok then Stopped else StopFailed, started := false, flag := s.flag || !ok,
       teardowns := s.teardowns[td := Ended(ok, ok && clean)])
  }

  lemma TeardownEnds(next: Machine, s: State, steps: seq<Step>, n: nat, td: nat, ok: bool, clean: bool)
    requires Moves(next) && TearsDown(steps, n, td, ok, clean)
    requires var a := Run(next, s, steps, n); td < |a.teardowns| && a.teardowns[td].Created?
    ensures Run(next, s, steps, n + 3) == TornDown(Run(next, s, steps, n), td, ok, clean)
  {
    var a, b, c := Run(next, s, steps, n), Run(next, s, steps, n + 1), Run(next, s, steps, n + 2);
    assert TearsAt(next, a, steps[n]);
    assert TearsAt(next, b, steps[n + 1]);
    assert TearsAt(next, c, steps[n + 2]);
    assert Run(next, s, steps, n + 3) == next(c, steps[n + 2]);
    assert a.teardowns[td := Draining][td := Closed(ok)][td := Ended(ok, ok && clean)] == a.teardowns[td := Ended(ok, ok && clean)];
  }

  /** Task `k` connects to endpoint `e`, with nothing else at work; it is as it was in `a` otherwise. */
  predicate Trying(a: State, s: State, k: nat, e: nat, torn: nat) {
    && k < |a.tasks| && k < |s.tasks| && s.tasks[k] == a.tasks[k].(pc := Connecting(e))
    && s.phase == Starting && !s.flag && Idle(s) && |s.teardowns| == torn
    && s.endpoints == a.endpoints && s.requested == a.requested
  }

  /** The connection to an endpoint fails, and is cleaned up by teardown `td`. */
  predicate EndpointFailsAt(steps: seq<Step>, i: nat, k: nat, td: nat) {
    Resumes(steps, i, k, Retry) && TearsDown(steps, i + 1, td, true, true) && Resumes(steps, i + 4, k, Fine)
  }

  /** The session after a failed endpoint has been cleaned up, before its task goes on. */
  function CleanedUp(s: State, k: nat, e: nat): (r: State)
    requires k < |s.tasks|
  {
    Moved(s, k, Cleanup(e, |s.teardowns|)).(phase := Stopped, started := false,
      stopTask := Some(|s.teardowns|), teardowns := s.teardowns + [Ended(true, true)])
  }

  lemma FailedEndpointIsCleaned(next: Machine, a: State, s: State, steps: seq<Step>, n: nat, k: nat, e: nat, torn: nat)
    requires Moves(next) && EndpointFailsAt(steps, n, k, torn) && Trying(a, Run(next, s, steps, n), k, e, torn)
    ensures Run(next, s, steps, n + 4) == CleanedUp(Run(next, s, steps, n), k, e)
  {
    var b := Run(next, s, steps, n);
    assert GoesOnAt(next, b, steps[n]);
    assert Run(next, s, steps, n + 1) == Moved(Halting(b), k, Cleanup(e, torn));
    TeardownEnds(next, s, steps, n + 1, torn, true, true);
    assert (b.teardowns + [Created])[torn := Ended(true, true)] == b.teardowns + [Ended(true, true)];
  }

  /** A failed endpoint leads to the next one, and to an error only after the last. */
  lemma FailsOver(next: Machine, a: State, s: State, steps: seq<Step>, n: nat, k: nat, e: nat, torn: nat)
    requires Moves(next) && EndpointFailsAt(steps, n, k, torn) && Trying(a, Run(next, s, steps, n), k, e, torn)
    ensures var r := Run(next, s, steps, n + 5);
            if e + 1 < a.endpoints then Trying(a, r, k, e + 1, torn + 1)
            else k < |r.tasks| && r.tasks[k].pc == AfterError(a.tasks[k]) && r.phase == Stopped && r.flag == a.tasks[k].owner
  {
    FailedEndpointIsCleaned(next, a, s, steps, n, k, e, torn);
    var b := Run(next, s, steps, n + 4);
    assert GoesOnAt(next, b, steps[n + 4]);
    assert Run(next, s, steps, n + 5) == next(b, steps[n + 4]);
    assert EndedClean(b, torn) && Idle(b);
  }

  /** The first `j` endpoints fail, one after the other. */
  ghost predicate EndpointsFail(steps: seq<Step>, n: nat, k: nat, torn: nat, j: nat) {
    forall i: nat :: i < j ==> EndpointFailsAt(steps, n + 5 * i, k, torn + i)
  }

  lemma {:induction false} EndpointsFailOver(next: Machine, s: State, steps: seq<Step>, n: nat, k: nat, j: nat)
    requires Moves(next) && n + 5 * j <= |steps|
    requires var a := Run(next, s, steps, n);
             j < a.endpoints && Trying(a, a, k, 0, |a.teardowns|) && EndpointsFail(steps, n, k, |a.teardowns|, j)
    ensures var a := Run(next, s, steps, n); Trying(a, Run(next, s, steps, n + 5 * j), k, j, |a.teardowns| + j)
    decreases j
  {
    if j > 0 {
      var a := Run(next, s, steps, n);
      EndpointsFailOver(next, s, steps, n, k, j - 1);
      assert EndpointFailsAt(steps, n + 5 * (j - 1), k, |a.teardowns| + (j - 1));
      FailsOver(next, a, s, steps, n + 5 * (j - 1), k, j - 1, |a.teardowns| + (j - 1));
    }
  }

  /** The connection and the handshake go through. */
  predicate EndpointWorksAt(steps: seq<Step>, i: nat, k: nat) {
    Resumes(steps, i, k, Fine) && Resumes(steps, i + 1, k, Fine) && steps[i + 1].alive
  }

  lemma Connects(next: Machine, a: State, s: State, steps: seq<Step>, n: nat, k: nat, e: nat, torn: nat)
    requires Moves(next) && EndpointWorksAt(steps, n, k) && Trying(a, Run(next, s, steps, n), k, e, torn) && !a.requested
    ensures var r := Run(next, s, steps, n + 2);
            r.phase == Started && r.started && k < |r.tasks| && r.tasks[k].pc == if steps[n + 1].callback then Callback else Over(false)
  {
    var b, c := Run(next, s, steps, n), Run(next, s, steps, n + 1);
    assert GoesOnAt(next, b, steps[n]);
    assert c == Moved(b, k, Handshake(e));
    assert GoesOnAt(next, c, steps[n + 1]);
    assert Run(next, s, steps, n + 2) == next(c, steps[n + 1]);
  }

  /** Where task `k`, which tried the first endpoint in `a`, is once `j` endpoints have failed. */
  predicate AfterFailures(a: State, r: State, k: nat, j: nat) {
    && k < |a.tasks| && k < |r.tasks|
    && (j < a.endpoints ==> r.tasks[k].pc == Connecting(j) && r.phase == Starting)
    && (0 < j == a.endpoints ==> r.tasks[k].pc == AfterError(a.tasks[k]) && r.phase == Stopped && r.flag == a.tasks[k].owner)
  }

  lemma InTurn(next: Machine, s: State, steps: seq<Step>, n: nat, k: nat, j: nat)
    requires Moves(next) && n + 5 * j <= |steps|
    requires var a := Run(next, s, steps, n);
             j <= a.endpoints && Trying(a, a, k, 0, |a.teardowns|) && EndpointsFail(steps, n, k, |a.teardowns|, j)
    ensures AfterFailures(Run(next, s, steps, n), Run(next, s, steps, n + 5 * j), k, j)
  {
    var a := Run(next, s, steps, n);
    if j < a.endpoints {
      EndpointsFailOver(next, s, steps, n, k, j);
    } else if j > 0 {
      EndpointsFailOver(next, s, steps, n, k, j - 1);
      assert EndpointFailsAt(steps, n + 5 * (j - 1), k, |a.teardowns| + (j - 1));
      FailsOver(next, a, s, steps, n + 5 * (j - 1), k, j - 1, |a.teardowns| + (j - 1));
    }
  }

  lemma WorksInTurn(next: Machine, s: State, steps: seq<Step>, n: nat, k: nat, j: nat)
    requires Moves(next) && EndpointWorksAt(steps, n + 5 * j, k)
    requires var a := Run(next, s, steps, n);
             && j < a.endpoints && Trying(a, a, k, 0, |a.teardowns|) && !a.requested
             && EndpointsFail(steps, n, k, |a.teardowns|, j)
    ensures IsReady(Run(next, s, steps, n + 5 * j + 2))
  {
    var a := Run(next, s, steps, n);
    EndpointsFailOver(next, s, steps, n, k, j);
    Connects(next, a, s, steps, n + 5 * j, k, j, |a.teardowns| + j);
  }

  predicate IsReady(s: State) {
    s.phase == Started && s.started
  }

  /** A start or restart that connects, in any reachable state with nothing else at work, tries the endpoints in
      turn: after `j` failures it is at the next one, and it raises only after the last. */
  lemma EndpointsInTurn(endpoints: nat, steps: seq<Step>, n: nat, k: nat, j: nat)
    requires n + 5 * j <= |steps|
    requires var a := Session(endpoints, steps, n);
             j <= a.endpoints && Trying(a, a, k, 0, |a.teardowns|) && EndpointsFail(steps, n, k, |a.teardowns|, j)
    ensures AfterFailures(Session(endpoints, steps, n), Session(endpoints, steps, n + 5 * j), k, j)
  {
    NextMoves();
    InTurn(Next, Initial(endpoints), steps, n, k, j);
  }

  /** If the first endpoints fail and the next one works, the session becomes ready. */
  lemma ReadyAtTheFirstThatWorks(endpoints: nat, steps: seq<Step>, n: nat, k: nat, j: nat)
    requires EndpointWorksAt(steps, n + 5 * j, k)
    requires var a := Session(endpoints, steps, n);
             && j < a.endpoints && Trying(a, a, k, 0, |a.teardowns|) && !a.requested
             && EndpointsFail(steps, n, k, |a.teardowns|, j)
    ensures IsReady(Session(endpoints, steps, n + 5 * j + 2))
  {
    NextMoves();
    WorksInTurn(Next, Initial(endpoints), steps, n, k, j);
  }

  // ----- starts and restarts

  lemma StartConnects(next: Machine, s: State, steps: seq<Step>, n: nat, k: nat)
    requires Moves(next) && Resumes(steps, n, k, Fine) && EndpointWorksAt(steps, n + 1, k)
    requires var a := Run(next, s, steps, n);
             k < |a.tasks| && a.tasks[k].pc == Ready && !a.flag && !Up(a.phase) && !a.requested && Idle(a)
    ensures IsReady(Run(next, s, steps, n + 3))
  {
    var a, b := Run(next, s, steps, n), Run(next, s, steps, n + 1);
    assert GoesOnAt(next, a, steps[n]);
    assert Trying(a, b, k, 0, |a.teardowns|);
    Connects(next, a, s, steps, n + 1, k, 0, |a.teardowns|);
  }

  /** In every run, a start of a session that is down, undisturbed, makes it ready. */
  lemma StartMakesReady(endpoints: nat, steps: seq<Step>, n: nat, k: nat)
    requires Resumes(steps, n, k, Fine) && EndpointWorksAt(steps, n + 1, k)
    requires var a := Session(endpoints, steps, n);
             k < |a.tasks| && a.tasks[k].pc == Ready && !a.flag && !Up(a.phase) && !a.requested && Idle(a)
    ensures IsReady(Session(endpoints, steps, n + 3))
  {
    NextMoves();
    StartConnects(Next, Initial(endpoints), steps, n, k);
  }

  /** Task `k` is at the first endpoint of a session that is starting. */
  predicate AtFirstEndpoint(s: State, k: nat) {
    k < |s.tasks| && s.tasks[k].pc == Connecting(0) && s.phase == Starting
  }

  /** In every run, a restart whose teardown has ended clean, with the flag down and no other start in between,
      connects to the first endpoint. */
  lemma RestartConnects(endpoints: nat, steps: seq<Step>, n: nat, k: nat, td: nat)
    requires n < |steps| && steps[n].Resume? && steps[n].task == k && steps[n].reply != Fatal
    requires var a := Session(endpoints, steps, n);
             k < |a.tasks| && a.tasks[k].pc == RestartStop(td) && EndedClean(a, td) && !a.flag && !Up(a.phase)
    ensures AtFirstEndpoint(Session(endpoints, steps, n + 1), k)
  {
    NextMoves();
    Reconnects(Next, Initial(endpoints), steps, n, k, td);
  }

  lemma Reconnects(next: Machine, s: State, steps: seq<Step>, n: nat, k: nat, td: nat)
    requires Moves(next) && n < |steps| && steps[n].Resume? && steps[n].task == k && steps[n].reply != Fatal
    requires var a := Run(next, s, steps, n);
             k < |a.tasks| && a.tasks[k].pc == RestartStop(td) && EndedClean(a, td) && !a.flag && !Up(a.phase)
    ensures Run(next, s, steps, n + 1) == Moved(Run(next, s, steps, n).(phase := Starting), k, Connecting(0))
    ensures AtFirstEndpoint(Run(next, s, steps, n + 1), k)
  {
    assert GoesOnAt(next, Run(next, s, steps, n), steps[n]);
  }

  /** A restart gets the lock, tears the session down, and connects. */
  predicate RestartRuns(steps: seq<Step>, n: nat, k: nat, td: nat) {
    && Resumes(steps, n, k, Fine) && TearsDown(steps, n + 1, td, true, true) && Resumes(steps, n + 4, k, Fine)
    && EndpointWorksAt(steps, n + 5, k)
  }

  /** A restart waits for the lock, which is free, and nothing else is at work in a session that may go on. */
  predicate MayRestart(s: State, k: nat) {
    && k < |s.tasks| && s.tasks[k].pc == Locking && !s.locked
    && Idle(s) && !Down(s.phase) && !s.flag && !s.requested
  }

  lemma RestartStops(next: Machine, s: State, steps: seq<Step>, n: nat, k: nat, td: nat)
    requires Moves(next) && RestartRuns(steps, n, k, td) && MayRestart(Run(next, s, steps, n), k)
    requires td == |Run(next, s, steps, n).teardowns|
    ensures Run(next, s, steps, n + 4)
         == Moved(Run(next, s, steps, n), k, RestartStop(td)).(locked := true, phase := Stopped, started := false,
              stopTask := Some(td), teardowns := Run(next, s, steps, n).teardowns + [Ended(true, true)])
  {
    var a := Run(next, s, steps, n);
    assert GoesOnAt(next, a, steps[n]);
    assert Run(next, s, steps, n + 1) == Moved(Halting(a.(locked := true)), k, RestartStop(td));
    TeardownEnds(next, s, steps, n + 1, td, true, true);
    assert (a.teardowns + [Created])[td := Ended(true, true)] == a.teardowns + [Ended(true, true)];
  }

  /** The session is stopped, then starting at the first endpoint, then ready. */
  predicate ComesBack(stopped: State, starting: State, ready: State, k: nat) {
    stopped.phase == Stopped && !stopped.started && AtFirstEndpoint(starting, k) && IsReady(ready)
  }

  lemma RestartReconnects(next: Machine, s: State, steps: seq<Step>, n: nat, k: nat, td: nat)
    requires Moves(next) && RestartRuns(steps, n, k, td) && MayRestart(Run(next, s, steps, n), k)
    requires td == |Run(next, s, steps, n).teardowns|
    ensures ComesBack(Run(next, s, steps, n + 4), Run(next, s, steps, n + 5), Run(next, s, steps, n + 7), k)
  {
    RestartStops(next, s, steps, n, k, td);
    var a, b := Run(next, s, steps, n), Run(next, s, steps, n + 4);
    assert EndedClean(b, td);
    Reconnects(next, s, steps, n + 4, k, td);
    assert Trying(a, Run(next, s, steps, n + 5), k, 0, td + 1);
    Connects(next, a, s, steps, n + 5, k, 0, td + 1);
  }

  /** In every run, a restart that gets the lock and is not disturbed stops the session and makes it ready again. */
  lemma RestartComesBack(endpoints: nat, steps: seq<Step>, n: nat, k: nat)
    requires n <= |steps| && RestartRuns(steps, n, k, |Session(endpoints, steps, n).teardowns|)
    requires MayRestart(Session(endpoints, steps, n), k)
    ensures ComesBack(Session(endpoints, steps, n + 4), Session(endpoints, steps, n + 5), Session(endpoints, steps, n + 7), k)
  {
    NextMoves();
    RestartReconnects(Next, Initial(endpoints), steps, n, k, |Session(endpoints, steps, n).teardowns|);
  }

  // ----- stops, schedules and the end of the receiver

  /** What the other steps do. */
  predicate Answers(s: State, step: Step, r: State) {
    match step
    case NewStart(owner) => r == s.(tasks := s.tasks + [Task(Ready, false, false, owner)])
    case NewRestart => r == s.(tasks := s.tasks + [Task(Locking, true, false, false)])
    case CallStop => Idle(s) && !Down(s.phase) ==> r == Halting(s.(flag := true))
    case Schedule => if s.flag then r == s else Asks(s, r)
    case ReceiverEnds(current) =>
      if current && !s.flag && s.phase == Started then Asks(s, r)
      else r == if current && !s.flag && s.phase == Starting then s.(started := false) else s
    case _ => true
  }

  predicate AtWork(t: Task) {
    t.scheduled && !t.pc.Over?
  }

  /** A restart is asked for: the scheduled restart at work will do, and without one a new task is scheduled. */
  predicate Asks(s: State, r: State) {
    && r.(tasks := s.tasks) == s.(requested := true, started := false)
    && r.tasks == if exists k :: 0 <= k < |s.tasks| && AtWork(s.tasks[k]) then s.tasks else s.tasks + [Task(Sleeping, true, true, false)]
  }

  lemma ScheduleAsks(s: State)
    requires !s.flag
    ensures Asks(s, Scheduled(s)) && Asks(s, Scheduled(s.(started := false)))
  {
    if k :| 0 <= k < |s.tasks| && s.tasks[k].scheduled && !s.tasks[k].pc.Over? {
      assert AtWork(s.tasks[k]);
    }
    if k :| 0 <= k < |s.tasks| && AtWork(s.tasks[k]) {
      assert s.tasks[k].scheduled;
    }
    assert Scheduled(s.(started := false)) == Scheduled(s);
  }

  /** In every run: new tasks begin, a stop raises the flag and creates a teardown, and asking for a restart, as the
      end of a ready session's receiver does, clears `is_started` and leaves a scheduled restart at work. */
  lemma StepsAnswer(endpoints: nat, steps: seq<Step>, n: nat)
    requires n < |steps|
    ensures Answers(Session(endpoints, steps, n), steps[n], Session(endpoints, steps, n + 1))
  {
    var s := Session(endpoints, steps, n);
    NextAnswers(s, steps[n]);
  }

  lemma NextAnswers(s: State, step: Step)
    ensures Answers(s, step, Next(s, step))
  {
    if !s.flag {
      ScheduleAsks(s);
    }
  }

  /** In every run, a stop of a session that is up, once torn down, leaves it stopped for good and not ready. */
  lemma StopStops(endpoints: nat, steps: seq<Step>, n: nat, ok: bool, clean: bool)
    requires n < |steps| && steps[n].CallStop?
    requires TearsDown(steps, n + 1, |Session(endpoints, steps, n).teardowns|, ok, clean)
    requires Idle(Session(endpoints, steps, n)) && !Down(Session(endpoints, steps, n).phase)
    ensures var r := Session(endpoints, steps, n + 4);
            r.phase == (if ok then Stopped else StopFailed) && r.flag && !r.started && Idle(r)
  {
    NextMoves();
    StepsAnswer(endpoints, steps, n);
    TeardownEnds(Next, Initial(endpoints), steps, n + 1, |Session(endpoints, steps, n).teardowns|, ok, clean);
  }

  // ----- a scheduled restart does not give up

  /** Only its own step ends a scheduled restart: the session is ready, or it must stay stopped, or the task was
      told to end. */
  predicate EndsRightly(s: State, step: Step, r: State, k: nat) {
    k < |s.tasks| && s.tasks[k].scheduled && !s.tasks[k].pc.Over? ==>
      && k < |r.tasks|
      && (r.tasks[k].pc.Over? ==>
          && step.Resume? && step.task == k
          && (r.flag || (r.started && !r.requested)
              || (s.tasks[k].pc.Sleeping? && step.reply != Retry) || (s.tasks[k].pc.Locking? && step.reply == Fatal)))
  }

  lemma ResumedPersists(s: State, k: nat, reply: Reply, alive: bool, callback: bool)
    requires k < |s.tasks| && !s.tasks[k].pc.Sleeping? && !s.tasks[k].pc.Locking?
    ensures Persists(s, Resumed(s, k, reply, alive, callback), k)
  {
    var pc := s.tasks[k].pc;
    if pc.Connecting? || pc.LateClose? || pc.Handshake? || pc.Ready? {
      StartPersists(s, k, reply, alive, callback);
    } else {
      WaitPersists(s, k, reply, alive, callback);
    }
  }

  lemma StartPersists(s: State, k: nat, reply: Reply, alive: bool, callback: bool)
    requires k < |s.tasks|
    requires var pc := s.tasks[k].pc; pc.Connecting? || pc.LateClose? || pc.Handshake? || pc.Ready?
    ensures Persists(s, Resumed(s, k, reply, alive, callback), k)
  {
  }

  lemma WaitPersists(s: State, k: nat, reply: Reply, alive: bool, callback: bool)
    requires k < |s.tasks|
    requires var pc := s.tasks[k].pc;
             pc.Callback? || pc.Cleanup? || pc.Leave? || pc.Failed? || pc.RestartStop? || pc.LastStop? || pc.Over?
    ensures Persists(s, Resumed(s, k, reply, alive, callback), k)
  {
  }

  lemma LockingPersists(s: State, k: nat, reply: Reply, alive: bool, callback: bool)
    requires k < |s.tasks| && (s.tasks[k].pc.Sleeping? || s.tasks[k].pc.Locking?)
    ensures var r := Resumed(s, k, reply, alive, callback);
            && (Persists(s, r, k) || (s.tasks[k].pc.Sleeping? && reply != Retry) || (s.tasks[k].pc.Locking? && reply == Fatal))
            && |r.tasks| == |s.tasks| && forall j :: 0 <= j < |s.tasks| && j != k ==> r.tasks[j] == s.tasks[j]
  {
  }

  lemma NextEndsRightly(s: State, step: Step, k: nat)
    ensures EndsRightly(s, step, Next(s, step), k)
  {
    if step.Resume? && step.task < |s.tasks| {
      var pc := s.tasks[step.task].pc;
      if pc.Sleeping? || pc.Locking? {
        LockingPersists(s, step.task, step.reply, step.alive, step.callback);
      } else {
        ResumedPersists(s, step.task, step.reply, step.alive, step.callback);
      }
    }
  }

  /** In every run, a scheduled restart goes on until the session is ready or must stay stopped, unless its task is
      told to end. */
  lemma RestartsUntilReady(endpoints: nat, steps: seq<Step>, n: nat, k: nat)
    requires n < |steps|
    ensures EndsRightly(Session(endpoints, steps, n), steps[n], Session(endpoints, steps, n + 1), k)
  {
    NextEndsRightly(Session(endpoints, steps, n), steps[n], k);
  }

  // ----- one scheduled restart

  predicate NotBoth(s: State, j: nat, k: nat) {
    j < k < |s.tasks| ==> !(AtWork(s.tasks[j]) && AtWork(s.tasks[k]))
  }

  ghost predicate OneAtWork(s: State) {
    forall j: nat, k: nat :: NotBoth(s, j, k)
  }

  /** No step sets a scheduled restart to work again once it is over. */
  ghost predicate NoneRevived(s: State, r: State) {
    |r.tasks| == |s.tasks| && forall k :: 0 <= k < |s.tasks| && AtWork(r.tasks[k]) ==> AtWork(s.tasks[k])
  }

  lemma NoneRevivedKeeps(s: State, r: State)
    requires OneAtWork(s) && NoneRevived(s, r)
    ensures OneAtWork(r)
  {
    forall j: nat, k: nat ensures NotBoth(r, j, k) {
      assert NotBoth(s, j, k);
    }
  }

  lemma ResumeRevivesNone(s: State, k: nat, reply: Reply, alive: bool, callback: bool)
    requires k < |s.tasks|
    ensures NoneRevived(s, Resumed(s, k, reply, alive, callback))
  {
    var pc := s.tasks[k].pc;
    if pc.Over? {
      assert Resumed(s, k, reply, alive, callback) == s;
    } else if pc.Sleeping? || pc.Locking? {
      LockingPersists(s, k, reply, alive, callback);
      LockingKeepsTask(s, k, reply, alive, callback);
    } else {
      ResumedPersists(s, k, reply, alive, callback);
    }
  }

  lemma LockingKeepsTask(s: State, k: nat, reply: Reply, alive: bool, callback: bool)
    requires k < |s.tasks| && (s.tasks[k].pc.Sleeping? || s.tasks[k].pc.Locking?)
    ensures var r := Resumed(s, k, reply, alive, callback);
            k < |r.tasks| && r.tasks[k].scheduled == s.tasks[k].scheduled
  {
  }

  /** Asking for a restart adds a task only if none is at work. */
  lemma AskKeepsOne(s: State, r: State)
    requires OneAtWork(s) && Asks(s, r)
    ensures OneAtWork(r)
  {
    forall j: nat, k: nat ensures NotBoth(r, j, k) {
      assert NotBoth(s, j, k);
    }
  }

  lemma BeginKeepsOne(s: State, r: State, t: Task)
    requires OneAtWork(s) && !t.scheduled && r.tasks == s.tasks + [t]
    ensures OneAtWork(r)
  {
    forall j: nat, k: nat ensures NotBoth(r, j, k) {
      assert NotBoth(s, j, k);
    }
  }

  lemma NextKeepsOne(s: State, step: Step)
    requires OneAtWork(s)
    ensures OneAtWork(Next(s, step))
  {
    var r := Next(s, step);
    NextAnswers(s, step);
    match step
    case NewStart(owner) => BeginKeepsOne(s, r, Task(Ready, false, false, owner));
    case NewRestart => BeginKeepsOne(s, r, Task(Locking, true, false, false));
    case Schedule => if !s.flag { AskKeepsOne(s, r); }
    case ReceiverEnds(current) =>
      if current && !s.flag && s.phase == Started { AskKeepsOne(s, r); } else { NoneRevivedKeeps(s, r); }
    case Resume(k, reply, alive, callback) =>
      if k < |s.tasks| {
        ResumeRevivesNone(s, k, reply, alive, callback);
        NoneRevivedKeeps(s, r);
      }
    case _ => NoneRevivedKeeps(s, r);
  }

  /** In every run at most one scheduled restart is at work. */
  lemma OneScheduledRestart(endpoints: nat, steps: seq<Step>, n: nat, j: nat, k: nat)
    requires n <= |steps| && j < k < |Session(endpoints, steps, n).tasks|
    ensures !(AtWork(Session(endpoints, steps, n).tasks[j]) && AtWork(Session(endpoints, steps, n).tasks[k]))
  {
    forall s, step ensures StableAt(Next, OneAtWork, s, step) {
      if OneAtWork(s) {
        NextKeepsOne(s, step);
      }
    }
    RunKeeps(Next, OneAtWork, Initial(endpoints), steps, n);
    assert NotBoth(Session(endpoints, steps, n), j, k);
  }
}
