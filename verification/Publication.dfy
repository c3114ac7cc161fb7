/**
 One publication scope: the loop that sends a query under an intent that is committed once, and never
 lets a publication whose outcome is unknown be taken for one that was not sent.

 Everything outside the session is a script: each point where the loop gives up control takes the next
 turn, which says what the world looks like afterwards and what came back. A run on a script that ends
 too early is cut, so every prefix of every run is the run of some script.
 */
module Publication {
  import opened Bytes
  import Receipt
  import Sequences

  datatype Actor = Actor(id: int, isBot: bool)

  /** What the identity check reads, and what the query serialises to at this moment. */
  datatype World = World(
    clientSession: Option<nat>, actor: Option<Actor>, sessionId: seq<byte>, authKeyId: seq<byte>, query: seq<byte>)

  /** `OsLike` stands for OSError, InternalServerError and ServiceUnavailable; `Rpc` for the other RPC errors. */
  datatype Failure = Cancelled | OsLike | Rpc(duplicate: bool) | Unconfirmed | Other

  /** At each point, a reply that it cannot give counts as `Fine`. */
  datatype Reply = Fine | TimedOut | BadSalt | Result(result: Receipt.Result) | Fails(failure: Failure)

  datatype Turn = Turn(world: World, reply: Reply)

  /** A wire write keeps the number of the turn in which its payload was packed, the world of that turn, and the
      world it was checked in. */
  datatype Event =
    | Intent(query: seq<byte>, ids: seq<int>)
    | Native
    | Wire(turn: nat, packedIn: World, checkedIn: World)
    | Answered(result: Receipt.Result)
    | Receipted(targets: seq<int>)

  datatype Point = Readiness | Hook | Send

  /** The messages of `PublicationUnconfirmed`. */
  datatype Reason = FreshQueryForbidden | ManifestMismatch | IdentityChanged | QueryMutated | OutcomeUnconfirmed | ReceiptUnconfirmed

  datatype Error = PublicationUnconfirmed(reason: Reason) | SessionNotReady | From(point: Point, failure: Failure)

  datatype Outcome = Cut | Returned(result: Receipt.Result) | Raised(error: Error)

  datatype Sent = SendCut | Got(result: Receipt.Result) | Threw(failure: Failure)

  /** The fixed part of `OrdinaryPublicationPolicy`. */
  datatype Terms = Terms(
    session: Option<nat>, accountId: int, peerBytes: seq<byte>, sourceCount: nat, maxRetries: nat,
    identity: Option<(seq<byte>, seq<byte>)>, observed: bool)

  /** `OrdinaryPublicationPolicy.check`. */
  predicate Check(t: Terms, session: Option<nat>, w: World) {
    && session.Some?
    && session == t.session
    && w.clientSession == session
    && w.actor.Some? && w.actor.value.id == t.accountId && !w.actor.value.isBot
    && (t.identity.Some? ==> (w.sessionId, w.authKeyId) == t.identity.value)
  }

  /** The scope's own session, account and keys, as a caller reads them off the world. */
  predicate OwnWorld(t: Terms, w: World) {
    && w.clientSession == t.session && w.clientSession.Some?
    && w.actor == Some(Actor(t.accountId, false))
    && (t.identity == None || t.identity == Some((w.sessionId, w.authKeyId)))
  }

  lemma CheckIff(t: Terms, session: nat, w: World)
    ensures Check(t, Some(session), w) <==> t.session == Some(session) && OwnWorld(t, w)
  {
  }

  /** Every write goes out in the scope's own session, as its own account, under its own keys. */
  predicate WritesAsOwner(t: Terms, trace: seq<Event>) {
    forall i :: 0 <= i < |trace| && trace[i].Wire? ==> OwnWorld(t, trace[i].checkedIn)
  }

  lemma CheckedWritesAsOwner(t: Terms, bytes: Option<seq<byte>>, trace: seq<Event>)
    requires AllChecked(t, bytes, trace)
    ensures WritesAsOwner(t, trace)
  {
    forall i | 0 <= i < |trace| && trace[i].Wire? ensures OwnWorld(t, trace[i].checkedIn) {
      assert Checked(t, bytes, trace[i]);
    }
  }

  /** What goes out is the query as it was when it was packed. */
  function Payload(e: Event): (b: seq<byte>)
    requires e.Wire?
  {
    e.packedIn.query
  }

  // ----- what every trace keeps

  function Natives(trace: seq<Event>): (n: nat) {
    if trace == [] then 0
    else Natives(trace[..|trace| - 1]) + if trace[|trace| - 1].Native? then 1 else 0
  }

  /** The intent comes first, and there is no other. */
  predicate IntentFirst(trace: seq<Event>) {
    forall i :: 0 <= i < |trace| ==> (trace[i].Intent? <==> i == 0)
  }

  /** The write passed the identity check, with the query still serialising to the fixed bytes. */
  predicate Checked(t: Terms, bytes: Option<seq<byte>>, e: Event) {
    e.Wire? ==> Check(t, t.session, e.checkedIn) && bytes == Some(e.checkedIn.query)
  }

  predicate AllChecked(t: Terms, bytes: Option<seq<byte>>, trace: seq<Event>) {
    forall i :: 0 <= i < |trace| ==> Checked(t, bytes, trace[i])
  }

  /** The payload was packed in one turn of the run and checked in the next one. */
  predicate PackedAt(taken: seq<Turn>, e: Event) {
    e.Wire? ==>
      && e.turn + 1 < |taken|
      && taken[e.turn].world == e.packedIn && taken[e.turn + 1].world == e.checkedIn
  }

  predicate AllPacked(taken: seq<Turn>, trace: seq<Event>) {
    forall i :: 0 <= i < |trace| ==> PackedAt(taken, trace[i])
  }

  /** The write carries the fixed bytes exactly if the query serialised to them in the turn that packed it. */
  predicate CarriesAt(bytes: seq<byte>, taken: seq<Turn>, e: Event) {
    e.Wire? ==> e.turn < |taken| && (Payload(e) == bytes <==> taken[e.turn].world.query == bytes)
  }

  predicate CarriesFixed(bytes: seq<byte>, e: Event) {
    e.Wire? ==> Payload(e) == bytes
  }

  /** No turn changes what the query serialises to. */
  predicate Steady(turns: seq<Turn>, bytes: seq<byte>) {
    forall i :: 0 <= i < |turns| ==> turns[i].world.query == bytes
  }

  /** A send that begins `k` turns into the script reaches the wire: nothing fails on the way, and the check passes. */
  predicate Reaches(t: Terms, bytes: Option<seq<byte>>, session: nat, script: seq<Turn>, k: nat) {
    && |script| >= k + 3
    && (forall i :: 0 <= i < k + 3 ==> !script[i].reply.Fails?)
    && Check(t, Some(session), script[k + 2].world) && bytes == Some(script[k + 2].world.query)
  }

  /** The write of such a send. */
  function FirstWrite(script: seq<Turn>, before: nat, k: nat): (e: Event)
    requires |script| >= k + 3
  {
    Wire(before + k + 1, script[k + 1].world, script[k + 2].world)
  }

  lemma ReachesLater(t: Terms, bytes: Option<seq<byte>>, session: nat, script: seq<Turn>, rest: seq<Turn>, before: nat, k: nat)
    requires script != [] && rest == script[1..]
    ensures Reaches(t, bytes, session, script, k + 1) ==> Reaches(t, bytes, session, rest, k)
    ensures |rest| >= k + 3 ==> FirstWrite(rest, before + 1, k) == FirstWrite(script, before, k + 1)
  {
  }

  /** What the turns of a run say about the payloads of its writes. */
  lemma PayloadsOfTurns(turns: seq<Turn>, taken: seq<Turn>, trace: seq<Event>, bytes: seq<byte>)
    requires taken <= turns && AllPacked(taken, trace)
    ensures forall i :: 0 <= i < |trace| ==> CarriesAt(bytes, turns, trace[i])
    ensures Steady(turns, bytes) ==> forall i :: 0 <= i < |trace| ==> CarriesFixed(bytes, trace[i])
  {
    forall i | 0 <= i < |trace|
      ensures CarriesAt(bytes, turns, trace[i]) && (Steady(turns, bytes) ==> CarriesFixed(bytes, trace[i]))
    {
      assert PackedAt(taken, trace[i]);
    }
  }

  lemma NativesAppend(trace: seq<Event>, e: Event)
    ensures Natives(trace + [e]) == Natives(trace) + if e.Native? then 1 else 0
  {
    assert (trace + [e])[..|trace|] == trace;
  }

  lemma CountFirst(e: Event)
    ensures Natives([e, Native]) == if e.Native? then 2 else 1
  {
    NativesAppend([], e);
    NativesAppend([e], Native);
    assert [] + [e] == [e] && [e] + [Native] == [e, Native];
  }

  class Publication {
    const terms: Terms
    var attempted: bool
    var unknown: bool
    var succeeded: bool
    var queryBytes: Option<seq<byte>>
    var targets: Option<seq<int>>
    var nativeCalls: nat
    /** The number of waits for another round, which is the number of the round. */
    var waits: nat

    /** The world as it is, and the turns to come. */
    var world: World
    var script: seq<Turn>

    /** The turns taken, and what the scope has done in them. */
    ghost var taken: seq<Turn>
    ghost var trace: seq<Event>

    constructor (terms: Terms, world: World, script: seq<Turn>)
      ensures this.terms == terms && this.world == world && this.script == script
      ensures Valid() && trace == [] && taken == [] && queryBytes.None? && !unknown
    {
      waits, taken := 0, [];
      this.terms, this.world, this.script := terms, world, script;
      attempted, unknown, succeeded := false, false, false;
      queryBytes, targets, nativeCalls, trace := None, None, 0, [];
    }

    /** What holds between calls, at every suspension and when an error leaves. */
    ghost predicate Valid()
      reads this
    {
      && IntentFirst(trace)
      && AllChecked(terms, queryBytes, trace)
      && AllPacked(taken, trace)
      && (taken != [] ==> world == taken[|taken| - 1].world)
      && (attempted <==> trace != [])
      && (attempted <==> nativeCalls > 0)
      && Natives(trace) == nativeCalls <= terms.maxRetries + 1
      && (unknown ==> attempted)
      && (queryBytes.None? ==> !attempted && !succeeded && taken == [])
    }

    /** The reply of the last turn. */
    ghost function Last(): (reply: Reply)
      reads this
    {
      if taken == [] then Fine else taken[|taken| - 1].reply
    }

    /** The turns of the whole run. */
    ghost function Turns(): (turns: seq<Turn>)
      reads this
    {
      taken + script
    }

    /** Gives up control. */
    method Next() returns (reply: Option<Reply>)
      requires Valid() && queryBytes.Some?
      modifies this`world, this`script, this`taken
      ensures Valid() && Turns() == old(Turns())
      ensures reply.None? ==> script == [] == old(script) && taken == old(taken) && world == old(world)
      ensures reply.Some? ==> old(script) == [Turn(world, reply.value)] + script
      ensures reply.Some? ==> taken == old(taken) + [Turn(world, reply.value)] && Last() == reply.value
    {
      if script == [] {
        return None;
      }
      world := script[0].world;
      reply := Some(script[0].reply);
      taken := taken + [script[0]];
      script := script[1..];
    }

    ghost method Record(e: Event)
      requires Valid() && attempted && !e.Intent? && !e.Native? && Checked(terms, queryBytes, e) && PackedAt(taken, e)
      modifies this`trace
      ensures Valid() && trace == old(trace) + [e]
    {
      NativesAppend(trace, e);
      trace := trace + [e];
    }

    /** A point that only goes on or fails. */
    method Pass() returns (r: Option<Sent>)
      requires Valid() && queryBytes.Some?
      modifies this`world, this`script, this`taken
      ensures Valid() && Turns() == old(Turns())
      ensures r.None? ==> old(script) != [] && !old(script)[0].reply.Fails?
      ensures r.None? ==> taken == old(taken) + [old(script)[0]] && script == old(script)[1..]
      ensures r.Some? ==> Stopped(r.value) && (old(script) == [] || old(script)[0].reply.Fails?) && |script| <= |old(script)|
    {
      var reply := Next();
      if reply.None? {
        return Some(SendCut);
      }
      if reply.value.Fails? {
        return Some(Threw(reply.value.failure));
      }
      return None;
    }

    /** The script has ended, or its last reply was a failure. */
    ghost predicate Stopped(r: Sent)
      reads this
    {
      (r.SendCut? && script == []) || (r.Threw? && Last() == Fails(r.failure))
    }

    /** The message is created and packed, which fixes the payload; then comes `before_attempt`, the check, and
        the write. */
    method WriteOnce(session: nat) returns (r: Option<Sent>)
      requires Valid() && attempted
      modifies this`world, this`script, this`taken, this`trace
      ensures Valid() && Turns() == old(Turns())
      ensures Reaches(terms, queryBytes, session, old(script), 0) <==> r.None?
      ensures r.None? ==> script == old(script)[3..]
      ensures r.None? ==> trace == old(trace) + [FirstWrite(old(script), |old(taken)|, 0)]
      ensures r.Some? ==> trace == old(trace)
      ensures r.Some? ==> Stopped(r.value) || (r.value == Threw(Unconfirmed) && Refused(session))
    {
      r := Pass();
      if r.Some? {
        return;
      }
      r := Pass();
      if r.Some? {
        return;
      }
      ghost var turn := |taken| - 1;
      r := Pass();
      if r.Some? {
        return;
      }
      if Refused(session) {
        return Some(Threw(Unconfirmed));
      }
      Record(Wire(turn, taken[turn].world, world));
    }

    /** The write goes through and is answered; `None` is the order to send again. */
    method Answer() returns (r: Option<Sent>)
      requires Valid() && attempted
      modifies this`world, this`script, this`taken, this`trace
      ensures Valid() && Turns() == old(Turns()) && |script| <= |old(script)|
      ensures old(trace) <= trace
      ensures r.Some? && r.value.Got? ==> Last() == Result(r.value.result) && trace == old(trace) + [Answered(r.value.result)]
      ensures r.Some? && !r.value.Got? ==> Stopped(r.value) || (r.value == Threw(OsLike) && (Last().Fine? || Last().TimedOut?))
      ensures r.None? ==> Last().BadSalt?
    {
      r := Pass();
      if r.Some? {
        return;
      }
      var reply := Next();
      if reply.None? {
        return Some(SendCut);
      }
      match reply.value {
        case Result(result) =>
          Record(Answered(result));
          return Some(Got(result));
        case Fails(failure) => return Some(Threw(failure));
        case BadSalt => return None;
        case _ => return Some(Threw(OsLike));
      }
    }

    /** `Session.send`, with its resends after a bad salt. */
    method SendQuery(session: nat) returns (r: Sent)
      requires Valid() && attempted
      modifies this`world, this`script, this`taken, this`trace
      ensures Valid() && old(trace) <= trace && Turns() == old(Turns())
      ensures Reaches(terms, queryBytes, session, old(script), 0) ==>
        |trace| > |old(trace)| && trace[|old(trace)|] == FirstWrite(old(script), |old(taken)|, 0)
      ensures r.Got? ==> Last() == Result(r.result) && trace != [] && trace[|trace| - 1] == Answered(r.result)
      ensures !r.Got? ==>
        || Stopped(r)
        || (r == Threw(OsLike) && (Last().Fine? || Last().TimedOut?))
        || (r == Threw(Unconfirmed) && Refused(session))
    {
      ghost var first := true;
      while true
        invariant Valid() && old(trace) <= trace && Turns() == old(Turns())
        invariant first ==> script == old(script) && taken == old(taken) && trace == old(trace)
        invariant !first ==> Reaches(terms, queryBytes, session, old(script), 0) && |trace| > |old(trace)|
        invariant !first ==> trace[|old(trace)|] == FirstWrite(old(script), |old(taken)|, 0)
        decreases |script|
      {
        var stopped := WriteOnce(session);
        if stopped.Some? {
          return stopped.value;
        }
        first := false;
        stopped := Answer();
        if stopped.Some? {
          return stopped.value;
        }
      }
    }

    /** The identity check fails, or the query does not serialise to the fixed bytes. */
    predicate Refused(session: nat)
      reads this
    {
      !Check(terms, Some(session), world) || queryBytes != Some(world.query)
    }

    /** Commits the intent before the first native call, and counts the call. */
    method Begin(ids: seq<int>) returns (r: Outcome, go: bool)
      requires Valid() && queryBytes.Some? && nativeCalls <= terms.maxRetries
      modifies this`world, this`script, this`taken, this`trace, this`attempted, this`nativeCalls
      ensures Valid() && old(trace) <= trace && Turns() == old(Turns())
      ensures go && !old(attempted) ==> old(script) == [Turn(world, Last())] + script && |taken| == |old(taken)| + 1
      ensures go && old(attempted) ==> script == old(script) && taken == old(taken)
      ensures go <==> old(attempted) || (old(script) != [] && !old(script)[0].reply.Fails?)
      ensures go ==> attempted && nativeCalls == old(nativeCalls) + 1
      ensures go && !old(attempted) ==> trace == [Intent(queryBytes.value, ids), Native]
      ensures !go ==> !old(attempted) && trace == [] && !attempted && nativeCalls == 0
      ensures !go ==> (r.Cut? && script == []) || (Last().Fails? && r == Raised(From(Hook, Last().failure)))
    {
      if !attempted {
        var reply := Next();
        if reply.None? {
          return Cut, false;
        }
        if reply.value.Fails? {
          return Raised(From(Hook, reply.value.failure)), false;
        }
        CountFirst(Intent(queryBytes.value, ids));
        trace := [Intent(queryBytes.value, ids), Native];
      } else {
        NativesAppend(trace, Native);
        trace := trace + [Native];
      }
      attempted := true;
      nativeCalls := nativeCalls + 1;
      return Cut, true;
    }

    /** A synchronous hook on the result: its failure leaves the outcome unconfirmed. */
    method CallHook() returns (r: Option<Outcome>)
      requires Valid() && queryBytes.Some?
      modifies this`world, this`script, this`taken
      ensures Valid() && Turns() == old(Turns())
      ensures r.Some? ==> (r == Some(Cut) && script == []) || (Last().Fails? && r == Some(HookError(Last().failure)))
    {
      var reply := Next();
      if reply.None? {
        return Some(Cut);
      }
      if reply.value.Fails? {
        return Some(HookError(reply.value.failure));
      }
      return None;
    }

    /** The receipt hook, and the receipt stored once it has come back. */
    method Store(found: seq<int>, result: Receipt.Result) returns (r: Outcome)
      requires Valid() && attempted
      modifies this`world, this`script, this`taken, this`trace, this`targets
      ensures Valid() && Turns() == old(Turns())
      ensures r.Returned? ==> r.result == result && targets == Some(found) && trace == old(trace) + [Receipted(found)]
      ensures !r.Returned? ==> trace == old(trace)
      ensures !r.Returned? ==> (r.Cut? && script == []) || (Last().Fails? && r == HookError(Last().failure))
    {
      var failed := CallHook();
      if failed.Some? {
        return failed.value;
      }
      Record(Receipted(found));
      targets := Some(found);
      return Returned(result);
    }

    /** Checks and stores the receipt of a result that has arrived. */
    method Finish(result: Receipt.Result, q: Receipt.Query) returns (r: Outcome)
      requires Valid() && attempted && trace[|trace| - 1] == Answered(result)
      modifies this`world, this`script, this`taken, this`trace, this`succeeded, this`unknown, this`targets
      ensures Valid() && succeeded && unknown && Turns() == old(Turns())
      ensures r.Returned? ==> r.result == result && targets.Some? && trace == old(trace) + [Receipted(targets.value)]
      ensures r.Returned? ==> Confirmed(q, result, targets.value)
      ensures !r.Returned? ==> trace == old(trace)
      ensures !r.Returned? ==>
        || (r.Cut? && script == [])
        || (Last().Fails? && r == HookError(Last().failure))
        || (r == Raised(PublicationUnconfirmed(ReceiptUnconfirmed)) && Unconfirmable(q, result))
    {
      succeeded := true;
      unknown := true;
      if terms.observed {
        var failed := CallHook();
        if failed.Some? {
          return failed.value;
        }
      }
      var receipt := CheckReceipt(q, result);
      if receipt.None? {
        return Raised(PublicationUnconfirmed(ReceiptUnconfirmed));
      }
      r := Store(receipt.value, result);
    }

    /** What an outcome says about the state it leaves. */
    ghost predicate Promises(session: nat, q: Receipt.Query, r: Outcome)
      reads this
    {
      match r
      case Cut => script == []
      // what is returned was answered and confirmed, for the query whose intent was committed
      case Returned(result) =>
        && succeeded && unknown && queryBytes.Some? && targets.Some? && Confirmed(q, result, targets.value) && |trace| >= 2
        && trace[0] == Intent(queryBytes.value, q.ids)
        && trace[|trace| - 2..] == [Answered(result), Receipted(targets.value)]
      // after the last wait, nothing was sent and no intent was committed
      case Raised(SessionNotReady) =>
        !unknown && nativeCalls == 0 && trace == [] && Last().TimedOut? && waits == terms.maxRetries
      // a failure comes from outside, or from the check before the wire; a plain RPC error answers the first call
      case Raised(From(point, failure)) =>
        && (Last() == Fails(failure) || (point.Send? && failure == Unconfirmed && Refused(session)))
        && (point.Send? && failure.Rpc? ==> !failure.duplicate && !unknown && nativeCalls == 1)
        && (point.Send? ==> !failure.OsLike?)
        && (point.Send? && failure.Cancelled? ==> unknown)
        && (succeeded ==> point.Hook? && failure.Cancelled?)
      case Raised(PublicationUnconfirmed(reason)) => Reasoned(session, q, reason)
    }

    ghost predicate Reasoned(session: nat, q: Receipt.Query, reason: Reason)
      reads this
    {
      match reason
      case FreshQueryForbidden => queryBytes.Some?
      case ManifestMismatch => !attempted
      case IdentityChanged => !Check(terms, Some(session), world)
      case QueryMutated => queryBytes.Some? && queryBytes != Some(world.query)
      case OutcomeUnconfirmed => unknown && (waits == terms.maxRetries || Last() == Fails(Rpc(false)))
      case ReceiptUnconfirmed =>
        && succeeded && unknown && trace != [] && trace[|trace| - 1].Answered?
        && ((Last().Fails? && !Last().failure.Cancelled?) || Unconfirmable(q, trace[|trace| - 1].result))
    }

    /** What a failure of the native call makes of the round. */
    method Classify(session: nat, q: Receipt.Query, failure: Failure) returns (r: Option<Outcome>)
      requires Valid() && attempted && !succeeded
      requires nativeCalls <= waits + 1 <= terms.maxRetries + 1 && (!unknown ==> nativeCalls == 1)
      requires Last() == Fails(failure) || (failure == OsLike && !Last().Fails?) || (failure == Unconfirmed && Refused(session))
      modifies this`unknown
      ensures Valid()
      ensures r.None? <==> waits < terms.maxRetries && (failure == OsLike || failure == Rpc(true))
      ensures unknown <==> old(unknown) || failure in {Cancelled, OsLike, Rpc(true)}
      ensures r == Some(Raised(From(Send, failure))) <==>
        failure in {Cancelled, Unconfirmed, Other} || (failure == Rpc(false) && !old(unknown))
      ensures r.Some? ==> Promises(session, q, r.value) && !BeforeRound(r.value)
    {
      match failure {
        case Cancelled =>
          unknown := true;
          return Some(Raised(From(Send, Cancelled)));
        case OsLike =>
          unknown := true;
        case Rpc(duplicate) =>
          if duplicate {
            unknown := true;
          } else {
            return Some(Raised(if unknown then PublicationUnconfirmed(OutcomeUnconfirmed) else From(Send, failure)));
          }
        case _ =>
          return Some(Raised(From(Send, failure)));
      }
      if waits == terms.maxRetries {
        return Some(Raised(PublicationUnconfirmed(OutcomeUnconfirmed)));
      }
      return None;
    }

    /** The end of a round whose result has arrived. */
    method Conclude(session: nat, q: Receipt.Query, result: Receipt.Result) returns (r: Outcome)
      requires Valid() && attempted && trace[|trace| - 1] == Answered(result) && trace[0] == Intent(queryBytes.value, q.ids)
      modifies this`world, this`script, this`taken, this`trace, this`succeeded, this`unknown, this`targets
      ensures Valid() && old(trace) <= trace && Turns() == old(Turns())
      ensures Promises(session, q, r) && !BeforeRound(r)
    {
      r := Finish(result, q);
    }

    /** The native call of a round, once the intent is committed. */
    method Deliver(session: nat, q: Receipt.Query) returns (r: Option<Outcome>)
      requires Valid() && attempted && nativeCalls <= waits + 1 <= terms.maxRetries + 1 && (!unknown ==> nativeCalls == 1)
      requires trace[0] == Intent(queryBytes.value, q.ids) && !succeeded
      modifies this`world, this`script, this`taken, this`trace, this`succeeded, this`unknown, this`targets
      ensures Valid() && old(trace) <= trace && Turns() == old(Turns())
      ensures Reaches(terms, queryBytes, session, old(script), 0) ==>
        |trace| > |old(trace)| && trace[|old(trace)|] == FirstWrite(old(script), |old(taken)|, 0)
      ensures r.None? ==> waits < terms.maxRetries && unknown && !succeeded && (Last().Fine? || Last().TimedOut? || Last().Fails?)
      ensures r.Some? ==> Promises(session, q, r.value) && !BeforeRound(r.value)
    {
      var sent := SendQuery(session);
      match sent {
        case SendCut =>
          return Some(Cut);
        case Got(result) =>
          var outcome := Conclude(session, q, result);
          return Some(outcome);
        case Threw(failure) =>
          r := Classify(session, q, failure);
      }
    }

    /** The part of a round that makes the native call. */
    method Call(session: nat, q: Receipt.Query) returns (r: Option<Outcome>)
      requires Valid() && queryBytes.Some? && nativeCalls <= waits <= terms.maxRetries && (attempted <==> unknown) && !succeeded
      requires attempted ==> trace[0] == Intent(queryBytes.value, q.ids)
      modifies this`world, this`script, this`taken, this`trace, this`succeeded, this`unknown, this`targets,
               this`attempted, this`nativeCalls
      ensures Valid() && old(trace) <= trace && Turns() == old(Turns())
      ensures !old(attempted) && Reaches(terms, queryBytes, session, old(script), 1) ==>
        |trace| >= 3 && trace[2] == FirstWrite(old(script), |old(taken)|, 1)
      ensures r.None? ==> waits < terms.maxRetries && nativeCalls <= waits + 1 && attempted && unknown && !succeeded
      ensures attempted ==> trace[0] == Intent(queryBytes.value, q.ids)
      ensures r.Some? ==> Promises(session, q, r.value) && !BeforeRound(r.value)
    {
      var stopped, go := Begin(q.ids);
      if !go {
        return Some(stopped);
      }
      if !old(attempted) {
        ReachesLater(terms, queryBytes, session, old(script), script, |old(taken)|, 0);
      }
      r := Deliver(session, q);
    }

    /** One round of the loop, up to its wait; `None` asks for another round. */
    method Attempt(session: nat, q: Receipt.Query) returns (r: Option<Outcome>)
      requires Valid() && queryBytes.Some? && nativeCalls <= waits <= terms.maxRetries && (attempted <==> unknown) && !succeeded
      requires attempted ==> trace[0] == Intent(queryBytes.value, q.ids)
      modifies this`world, this`script, this`taken, this`trace, this`succeeded, this`unknown, this`targets,
               this`attempted, this`nativeCalls
      ensures Valid() && old(trace) <= trace && Turns() == old(Turns())
      ensures !old(attempted) && Reaches(terms, queryBytes, session, old(script), 2) && !old(script)[0].reply.TimedOut? ==>
        |trace| >= 3 && trace[2] == FirstWrite(old(script), |old(taken)|, 2)
      ensures r.None? ==> waits < terms.maxRetries && nativeCalls <= waits + 1 && (attempted <==> unknown) && !succeeded
      ensures attempted ==> trace[0] == Intent(queryBytes.value, q.ids)
      ensures r.Some? ==> Promises(session, q, r.value) && !BeforeRound(r.value)
      ensures old(script) != [] && old(script)[0].reply.TimedOut? ==>
        && trace == old(trace) && unknown == old(unknown) && taken == old(taken) + [old(script)[0]]
        && (r.None? <==> waits < terms.maxRetries)
        && (r.Some? && !unknown ==> r.value == Raised(SessionNotReady))
    {
      var ready := Next();
      if ready.None? {
        return Some(Cut);
      }
      if ready.value.Fails? {
        return Some(Raised(From(Readiness, ready.value.failure)));
      }
      if ready.value.TimedOut? {
        if waits < terms.maxRetries {
          return None;
        }
        return Some(Raised(if unknown then PublicationUnconfirmed(OutcomeUnconfirmed) else SessionNotReady));
      }
      ReachesLater(terms, queryBytes, session, old(script), script, |old(taken)|, 1);
      r := Call(session, q);
    }

    /** `wait_retry`. */
    method WaitRetry(session: nat, q: Receipt.Query) returns (r: Option<Outcome>)
      requires Valid() && queryBytes.Some? && !succeeded
      modifies this`world, this`script, this`taken
      ensures Valid() && Turns() == old(Turns())
      ensures r.None? ==> taken != []
      ensures r.Some? ==> Promises(session, q, r.value) && !BeforeRound(r.value)
    {
      var waited := Next();
      if waited.None? {
        return Some(Cut);
      }
      if waited.value.Fails? {
        return Some(Raised(From(Hook, waited.value.failure)));
      }
      return None;
    }

    /** A round with the wait after it. */
    method AttemptAndWait(session: nat, q: Receipt.Query) returns (r: Option<Outcome>)
      requires Valid() && queryBytes.Some? && nativeCalls <= waits <= terms.maxRetries && (attempted <==> unknown) && !succeeded
      requires attempted ==> trace[0] == Intent(queryBytes.value, q.ids)
      modifies this`world, this`script, this`taken, this`trace, this`succeeded, this`unknown, this`targets,
               this`attempted, this`nativeCalls
      ensures Valid() && old(trace) <= trace && Turns() == old(Turns())
      ensures r.None? ==> waits < terms.maxRetries && nativeCalls <= waits + 1 && (attempted <==> unknown) && !succeeded && taken != []
      ensures attempted ==> trace[0] == Intent(queryBytes.value, q.ids)
      ensures r.Some? ==> Promises(session, q, r.value) && !BeforeRound(r.value)
      ensures !old(attempted) && Reaches(terms, queryBytes, session, old(script), 2) && !old(script)[0].reply.TimedOut? ==>
        |trace| >= 3 && trace[2] == FirstWrite(old(script), |old(taken)|, 2)
      ensures terms.maxRetries == 0 && !old(attempted) && old(script) != [] && old(script)[0].reply.TimedOut? ==>
        r == Some(Raised(SessionNotReady)) && trace == old(trace)
    {
      r := Attempt(session, q);
      if r.Some? {
        return;
      }
      r := WaitRetry(session, q);
    }

    /** A whole round, with the checks before it. */
    method Round(session: nat, q: Receipt.Query) returns (r: Option<Outcome>)
      requires Valid() && queryBytes.Some? && nativeCalls <= waits <= terms.maxRetries && (attempted <==> unknown) && !succeeded
      requires attempted ==> trace[0] == Intent(queryBytes.value, q.ids)
      modifies this`world, this`script, this`taken, this`trace, this`succeeded, this`unknown, this`targets,
               this`attempted, this`nativeCalls
      ensures Valid() && old(trace) <= trace && Turns() == old(Turns())
      ensures r.None? ==> waits < terms.maxRetries && nativeCalls <= waits + 1 && (attempted <==> unknown) && !succeeded && taken != []
      ensures attempted ==> trace[0] == Intent(queryBytes.value, q.ids)
      ensures r.Some? ==> Promises(session, q, r.value) && !Early(r.value)
      ensures !old(attempted) && Undisturbed(terms, queryBytes, session, old(world), old(script)) ==>
        |trace| >= 3 && trace[2] == FirstWrite(old(script), |old(taken)|, 2)
      ensures old(Refused(session)) ==>
        && trace == old(trace) && taken == old(taken)
        && r == Some(Raised(PublicationUnconfirmed(if Check(terms, Some(session), old(world)) then QueryMutated else IdentityChanged)))
      ensures !old(Refused(session)) && r.Some? ==> !BeforeRound(r.value)
      ensures !old(Refused(session)) && terms.maxRetries == 0 && !old(attempted) && old(script) != [] && old(script)[0].reply.TimedOut? ==>
        r == Some(Raised(SessionNotReady)) && trace == old(trace)
    {
      if !Check(terms, Some(session), world) {
        return Some(Raised(PublicationUnconfirmed(IdentityChanged)));
      }
      if Some(world.query) != queryBytes {
        return Some(Raised(PublicationUnconfirmed(QueryMutated)));
      }
      r := AttemptAndWait(session, q);
    }

    /** The rounds of the loop. */
    method Rounds(session: nat, q: Receipt.Query) returns (r: Outcome)
      requires Valid() && queryBytes == Some(world.query) && !attempted && !unknown && !succeeded && waits == 0
      modifies this`world, this`script, this`taken, this`trace, this`succeeded, this`unknown, this`targets,
               this`attempted, this`nativeCalls, this`waits
      ensures Valid() && Turns() == old(Turns())
      ensures Promises(session, q, r) && !Early(r)
      ensures Undisturbed(terms, queryBytes, session, old(world), old(script)) ==>
        |trace| >= 3 && trace[2] == FirstWrite(old(script), |old(taken)|, 2)
      ensures !Check(terms, Some(session), old(world)) ==>
        r == Raised(PublicationUnconfirmed(IdentityChanged)) && trace == old(trace) && taken == old(taken)
      ensures Check(terms, Some(session), old(world)) && BeforeRound(r) ==> taken != []
      ensures Check(terms, Some(session), old(world)) && terms.maxRetries == 0 && old(script) != [] && old(script)[0].reply.TimedOut? ==>
        r == Raised(SessionNotReady) && trace == old(trace)
    {
      ghost var undisturbed := Undisturbed(terms, queryBytes, session, world, script);
      while true
        invariant Valid() && Turns() == old(Turns()) && waits <= terms.maxRetries && nativeCalls <= waits
        invariant (attempted <==> unknown) && !succeeded
        invariant waits > 0 ==> taken != [] && Check(terms, Some(session), old(world))
        invariant attempted ==> trace[0] == Intent(queryBytes.value, q.ids)
        invariant waits == 0 ==> script == old(script) && taken == old(taken) && world == old(world) && !attempted && trace == old(trace)
        invariant waits > 0 && undisturbed ==> |trace| >= 3 && trace[2] == FirstWrite(old(script), |old(taken)|, 2)
        decreases terms.maxRetries - waits
      {
        var outcome := Round(session, q);
        if outcome.Some? {
          return outcome.value;
        }
        waits := waits + 1;
      }
    }

    /** `_invoke_ordinary_publication`. */
    method Invoke(session: nat, peerBytes: seq<byte>, q: Receipt.Query) returns (r: Outcome)
      requires Valid()
      modifies this`world, this`script, this`taken, this`trace, this`succeeded, this`unknown, this`targets,
               this`attempted, this`nativeCalls, this`queryBytes, this`waits
      ensures Valid() && old(trace) <= trace && Turns() == old(Turns())
      ensures Promises(session, q, r)
      // a scope has one query, and it must match the manifest
      ensures r == Raised(PublicationUnconfirmed(FreshQueryForbidden)) <==> old(queryBytes).Some?
      ensures r == Raised(PublicationUnconfirmed(ManifestMismatch)) <==>
        old(queryBytes).None? && !Matches(terms, peerBytes, q)
      ensures Matches(terms, peerBytes, q) <==>
        && peerBytes == terms.peerBytes && |q.ids| == terms.sourceCount
        && (forall i, j :: 0 <= i < j < |q.ids| ==> q.ids[i] != q.ids[j]) && (forall i :: 0 <= i < |q.ids| ==> q.ids[i] != 0)
      // no write goes out in another session, as another account or under other keys, and a world that is not the
      // scope's own ends the run at once; a world that is its own never does before the first turn
      ensures WritesAsOwner(terms, trace)
      ensures old(queryBytes).None? && Matches(terms, peerBytes, q) && !(terms.session == Some(session) && OwnWorld(terms, old(world)))
        ==> r == Raised(PublicationUnconfirmed(IdentityChanged)) && trace == [] && taken == []
      ensures r == Raised(PublicationUnconfirmed(IdentityChanged)) && taken == [] ==>
        !(terms.session == Some(session) && OwnWorld(terms, old(world)))
      ensures r == Raised(PublicationUnconfirmed(QueryMutated)) ==> taken != []
      // a session that is not ready in the only round: nothing is sent
      ensures old(queryBytes).None? && Matches(terms, peerBytes, q) && terms.session == Some(session) && OwnWorld(terms, old(world))
              && terms.maxRetries == 0 && old(script) != [] && old(script)[0].reply.TimedOut? ==>
              r == Raised(SessionNotReady) && trace == []
      ensures old(queryBytes).Some? || !Matches(terms, peerBytes, q) ==>
        trace == old(trace) && queryBytes == old(queryBytes) && unknown == old(unknown)
      ensures old(queryBytes).None? && Matches(terms, peerBytes, q) ==> queryBytes == Some(old(world).query)
      // a write carries the bytes fixed at the start exactly if the query serialised to them when it was packed,
      // and so every write does if no turn of the run changes the query
      ensures queryBytes.Some? ==> forall i :: 0 <= i < |trace| ==> CarriesAt(queryBytes.value, Turns(), trace[i])
      ensures queryBytes.Some? && Steady(Turns(), queryBytes.value) ==>
        forall i :: 0 <= i < |trace| ==> CarriesFixed(queryBytes.value, trace[i])
      // undisturbed, the first round writes
      ensures old(queryBytes).None? && Matches(terms, peerBytes, q)
              && Undisturbed(terms, queryBytes, session, old(world), old(script)) ==>
              |trace| >= 3 && trace[2] == FirstWrite(old(script), 0, 2)
    {
      CheckedWritesAsOwner(terms, queryBytes, trace);
      if queryBytes.Some? {
        PayloadsOfTurns(Turns(), taken, trace, queryBytes.value);
        return Raised(PublicationUnconfirmed(FreshQueryForbidden));
      }
      if !Matches(terms, peerBytes, q) {
        return Raised(PublicationUnconfirmed(ManifestMismatch));
      }
      queryBytes := Some(world.query);
      waits := 0;
      CheckIff(terms, session, world);
      r := Rounds(session, q);
      CheckedWritesAsOwner(terms, queryBytes, trace);
      PayloadsOfTurns(Turns(), taken, trace, queryBytes.value);
    }
  }

  /** The first round passes its check, finds the session ready, and gets to the wire. */
  predicate Undisturbed(t: Terms, bytes: Option<seq<byte>>, session: nat, world: World, script: seq<Turn>) {
    && Check(t, Some(session), world) && bytes == Some(world.query)
    && Reaches(t, bytes, session, script, 2) && !script[0].reply.TimedOut?
  }

  /** A run in which the query is changed before it is packed and restored before the check: it goes out changed. */
  method RestoredQueryIsSent() returns (p: Publication)
    ensures fresh(p) && p.Valid() && p.queryBytes == Some([1])
    ensures |p.trace| >= 3 && p.trace[2].Wire? && Payload(p.trace[2]) == [2]
  {
    var terms := Terms(Some(0), 7, [], 1, 0, None, false);
    var world := World(Some(0), Some(Actor(7, false)), [], [], [1]);
    var script := [Turn(world, Fine), Turn(world, Fine), Turn(world, Fine), Turn(world.(query := [2]), Fine), Turn(world, Fine)];
    p := new Publication(terms, world, script);
    var _ := p.Invoke(0, [], Receipt.Query(Receipt.InputSelf, [5], 7));
  }

  /** The errors that only the head of the loop raises. */
  predicate Early(r: Outcome) {
    r == Raised(PublicationUnconfirmed(FreshQueryForbidden)) || r == Raised(PublicationUnconfirmed(ManifestMismatch))
  }

  /** The errors that are raised only before a round. */
  predicate BeforeRound(r: Outcome) {
    || Early(r)
    || r == Raised(PublicationUnconfirmed(IdentityChanged))
    || r == Raised(PublicationUnconfirmed(QueryMutated))
  }

  /** The query is for the peer and the number of sources that the scope was opened for, with distinct non-zero ids. */
  predicate Matches(t: Terms, peerBytes: seq<byte>, q: Receipt.Query) {
    peerBytes == t.peerBytes && |q.ids| == t.sourceCount && Sequences.Distinct(q.ids) && 0 !in q.ids
  }

  /** An exception in a receipt hook leaves the outcome unconfirmed; a cancellation passes through. */
  function HookError(failure: Failure): (r: Outcome) {
    if failure.Cancelled? then Raised(From(Hook, Cancelled)) else Raised(PublicationUnconfirmed(ReceiptUnconfirmed))
  }

  /** The targets are the answer of the receipt check. */
  ghost predicate Confirmed(q: Receipt.Query, result: Receipt.Result, targets: seq<int>) {
    if Receipt.ShortAccepted(q, result) then targets == [result.id]
    else Receipt.Accepts(q, multiset(Receipt.UpdatesOf(result)), targets)
  }

  ghost predicate Unconfirmable(q: Receipt.Query, result: Receipt.Result) {
    forall targets :: !Confirmed(q, result, targets)
  }

  method CheckReceipt(q: Receipt.Query, result: Receipt.Result) returns (receipt: Option<seq<int>>)
    ensures receipt.Some? ==> Confirmed(q, result, receipt.value)
    ensures receipt.None? ==> Unconfirmable(q, result)
  {
    receipt := Receipt.PublicationReceipt(q, result);
  }
}
