/**
 The endpoint loop around the creation of an authorization key: an endpoint that cannot be reached gives way
 to the next one, any other error tries the same endpoint again.
 */
module Auth {
  import opened Sequences

  const MAX_RETRIES := 5

  /** How an attempt ends. `Interrupted` stands for what only the `finally` sees, such as a cancellation. */
  datatype Reply = Success | Unreachable | Fails | Interrupted

  datatype Event = Opened(endpoint: nat) | Closed(endpoint: nat)

  // ----- lists without repetition

  /** `tuple(dict.fromkeys(s))`: the first occurrences, in order. */
  function Dedupe<E(==)>(s: seq<E>): (r: seq<E>) {
    if s == [] then []
    else
      var front := Dedupe(s[..|s| - 1]);
      if s[|s| - 1] in front then front else front + [s[|s| - 1]]
  }

  lemma {:induction false} DedupeKeeps<E>(s: seq<E>)
    ensures Distinct(Dedupe(s)) && (s != [] ==> Dedupe(s) != [] && Dedupe(s)[0] == s[0])
    ensures forall x :: x in Dedupe(s) <==> x in s
  {
    if s != [] {
      var n := |s| - 1;
      DedupeKeeps(s[..n]);
      assert s == s[..n] + [s[n]];
    }
  }

  lemma {:induction false} DedupeOfDistinct<E>(s: seq<E>)
    requires Distinct(s)
    ensures Dedupe(s) == s
  {
    if s != [] {
      var n := |s| - 1;
      DedupeOfDistinct(s[..n]);
      assert s == s[..n] + [s[n]];
    }
  }

  /** The first `k` elements without element `i`. */
  function Without<E>(s: seq<E>, i: nat, k: nat): (r: seq<E>)
    requires i < |s| && k <= |s|
  {
    if k <= i then s[..k] else s[..i] + s[i + 1..k]
  }

  lemma WithoutStep<E>(s: seq<E>, i: nat, k: nat)
    requires Distinct(s) && i < |s| && k < |s|
    ensures Without(s, i, k + 1) == if k == i then Without(s, i, k) else Without(s, i, k) + [s[k]]
    ensures s[k] in [s[i]] + Without(s, i, k) <==> k == i
  {
    if k > i {
      assert s[i + 1..k + 1] == s[i + 1..k] + [s[k]];
    }
  }

  lemma DedupeAppend<E>(w: seq<E>, s: seq<E>, x: E, r: seq<E>)
    requires Dedupe(w + s) == w + r
    ensures Dedupe(w + (s + [x])) == w + if x in w + r then r else r + [x]
  {
    var row := w + (s + [x]);
    assert row[..|row| - 1] == w + s;
    assert (w + r) + [x] == w + (r + [x]);
  }

  /** Dropping repetitions from a row that starts with `s[i]`, up to element `k`. */
  ghost predicate MovedFirst<E>(s: seq<E>, i: nat, k: nat)
    requires i < |s| && k <= |s|
  {
    Dedupe([s[i]] + s[..k]) == [s[i]] + Without(s, i, k)
  }

  lemma WinnerAlone<E>(s: seq<E>, i: nat)
    requires i < |s|
    ensures MovedFirst(s, i, 0)
  {
    var x := [s[i]];
    assert x + s[..0] == x && x + Without(s, i, 0) == x;
    DedupeOfDistinct(x);
  }

  lemma WinnerStep<E>(s: seq<E>, i: nat, k: nat)
    requires Distinct(s) && i < |s| && k < |s| && MovedFirst(s, i, k)
    ensures MovedFirst(s, i, k + 1)
  {
    WithoutStep(s, i, k);
    DedupeAppend([s[i]], s[..k], s[k], Without(s, i, k));
    assert s[..k + 1] == s[..k] + [s[k]];
  }

  lemma {:induction false} WinnerMoves<E>(s: seq<E>, i: nat, k: nat)
    requires Distinct(s) && i < |s| && k <= |s|
    ensures MovedFirst(s, i, k)
  {
    if k == 0 {
      WinnerAlone(s, i);
    } else {
      WinnerMoves(s, i, k - 1);
      WinnerStep(s, i, k - 1);
    }
  }

  /** Putting a member in front of a list without repetition moves it there. */
  lemma WinnerFirst<E>(s: seq<E>, i: nat)
    requires Distinct(s) && i < |s|
    ensures Dedupe([s[i]] + s) == [s[i]] + Without(s, i, |s|)
  {
    WinnerMoves(s, i, |s|);
    assert s[..|s|] == s;
  }

  // ----- the history of the attempts

  /** An attempt that another one follows: a failure stays at the endpoint, an unreachable one moves on. */
  predicate Follows(reply: Reply, raised: bool, at: nat, next: nat) {
    !raised && if reply == Fails then next == at else reply == Unreachable && next == at + 1
  }

  function VisitAfter(visits: seq<nat>, next: nat, k: nat): (r: nat) {
    if k + 1 < |visits| then visits[k + 1] else next
  }

  /** Attempt `k` opened its connection, closed it once, and led to the next attempt. */
  predicate AttemptAt(reply: nat -> Reply, raises: nat -> bool, visits: seq<nat>, log: seq<Event>, next: nat, k: nat)
    requires k < |visits| && |log| == 2 * |visits|
  {
    && log[2 * k] == Opened(visits[k]) && log[2 * k + 1] == Closed(visits[k])
    && Follows(reply(k), raises(k), visits[k], VisitAfter(visits, next, k))
  }

  /** The attempts so far, when the next one goes to endpoint `next`. */
  ghost predicate History(reply: nat -> Reply, raises: nat -> bool, visits: seq<nat>, log: seq<Event>, next: nat) {
    && |log| == 2 * |visits|
    && VisitAfter([0] + visits, next, 0) == 0
    && (forall k :: 0 <= k < |visits| ==> AttemptAt(reply, raises, visits, log, next, k))
  }

  lemma HistoryGrows(reply: nat -> Reply, raises: nat -> bool, visits: seq<nat>, log: seq<Event>, at: nat, next: nat)
    requires History(reply, raises, visits, log, at) && Follows(reply(|visits|), raises(|visits|), at, next)
    ensures History(reply, raises, visits + [at], log + [Opened(at), Closed(at)], next)
  {
    var v, l := visits + [at], log + [Opened(at), Closed(at)];
    forall k | 0 <= k < |v| ensures AttemptAt(reply, raises, v, l, next, k) {
      assert k < |visits| ==> AttemptAt(reply, raises, visits, log, at, k);
    }
  }

  /** The endpoints are visited from the first on, without skipping one and without going back. */
  lemma {:induction false} NeverBack(reply: nat -> Reply, raises: nat -> bool, visits: seq<nat>, log: seq<Event>, next: nat, k: nat)
    requires History(reply, raises, visits, log, next) && k < |visits|
    ensures visits[0] == 0 && visits[k] <= next <= visits[k] + (|visits| - k)
    decreases |visits| - k
  {
    assert visits[0] == ([0] + visits)[1];
    assert AttemptAt(reply, raises, visits, log, next, k);
    if k + 1 < |visits| {
      NeverBack(reply, raises, visits, log, next, k + 1);
    }
  }

  class Auth<E(==)> {
    var endpoints: seq<E>
    /** Where the attempts of the last call went, and what they did to connections. */
    ghost var visits: seq<nat>
    ghost var log: seq<Event>

    constructor (primary: E, fallbacks: seq<E>)
      ensures Valid() && endpoints[0] == primary && visits == [] && log == []
      ensures endpoints == Dedupe([primary] + fallbacks)
    {
      var row := [primary] + fallbacks;
      DedupeKeeps(row);
      endpoints, visits, log := Dedupe(row), [], [];
    }

    predicate Valid()
      reads this
    {
      endpoints != [] && Distinct(endpoints)
    }

    /** `create`, against any behaviour of the network: `reply(k)` ends attempt `k`, and `raises(k)` tells that
        closing its connection raises. `visits` holds the attempts before the one that leaves the loop. */
    method Create(reply: nat -> Reply, raises: nat -> bool) returns (ok: bool, winner: nat)
      requires Valid()
      modifies this
      ensures Valid() && winner < |old(endpoints)|
      ensures |log| == 2 * |visits| + 2 && log[2 * |visits|..] == [Opened(winner), Closed(winner)]
      ensures History(reply, raises, visits, log[..2 * |visits|], winner)
      ensures |visits| < 6 * |old(endpoints)|
      ensures ok <==> reply(|visits|) == Success && !raises(|visits|)
      ensures endpoints ==
        if reply(|visits|) == Success then [old(endpoints)[winner]] + Without(old(endpoints), winner, |old(endpoints)|)
        else old(endpoints)
      ensures !ok && !raises(|visits|) ==>
        || reply(|visits|) == Interrupted
        || (reply(|visits|) == Unreachable && winner == |old(endpoints)| - 1)
        || (reply(|visits|) == Fails && |visits| >= 5
            && forall k :: |visits| - 5 <= k < |visits| ==> visits[k] == winner)
    {
      visits, log, winner := [], [], 0;
      var retriesLeft := MAX_RETRIES;
      var k := 0;
      while true
        invariant k == |visits|
        invariant endpoints == old(endpoints) && winner < |endpoints| && 0 <= retriesLeft <= MAX_RETRIES
        invariant History(reply, raises, visits, log, winner)
        invariant |visits| <= (MAX_RETRIES + 1) * winner + (MAX_RETRIES - retriesLeft)
        invariant MAX_RETRIES - retriesLeft <= |visits|
        invariant forall k :: |visits| - (MAX_RETRIES - retriesLeft) <= k < |visits| ==> visits[k] == winner
        decreases |endpoints| - winner, retriesLeft
      {
        ghost var attempts := log;
        var next := winner;
        var again := false;
        match reply(k) {
          case Success =>
            MoveFirst(winner);
          case Unreachable =>
            if winner + 1 < |endpoints| {
              next := winner + 1;
              retriesLeft := MAX_RETRIES;
              again := true;
            }
          case Fails =>
            if retriesLeft > 0 {
              retriesLeft := retriesLeft - 1;
              again := true;
            }
          case Interrupted =>
        }
        if !again || raises(k) {
          log := log + [Opened(winner), Closed(winner)];
          assert log[..2 * k] == attempts;
          return reply(k) == Success && !raises(k), winner;
        }
        HistoryGrows(reply, raises, visits, log, winner, next);
        visits := visits + [winner];
        log := log + [Opened(winner), Closed(winner)];
        winner := next;
        k := k + 1;
      }
    }

    method MoveFirst(i: nat)
      requires Valid() && i < |endpoints|
      modifies this`endpoints
      ensures Valid() && endpoints == [old(endpoints)[i]] + Without(old(endpoints), i, |old(endpoints)|)
    {
      WinnerFirst(endpoints, i);
      DedupeKeeps([endpoints[i]] + endpoints);
      endpoints := Dedupe([endpoints[i]] + endpoints);
    }
  }
}
