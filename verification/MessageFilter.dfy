/**
 The filter for incoming messages: a sorted window of message ids that drops its older half, a time
 window, and a count of consecutive refusals.
 */
module MessageFilter {
  import opened Bytes
  import opened Sequences

  const STORED_MSG_IDS_MAX_SIZE := 2000
  const MAX_CONSECUTIVE_IGNORED := 30
  const SECOND: int := 0x1_0000_0000

  /** `announces` is the answer id of a MsgDetailedInfo or MsgNewDetailedInfo body. */
  datatype Message = Message(id: int, seqNo: nat, announces: Option<int>)

  datatype Verdict = Known | TooLow | Future | Past | Accept

  predicate Increasing(s: seq<int>) {
    forall i, j :: 0 <= i < j < |s| ==> s[i] < s[j]
  }

  /** The window once it has dropped its older half, if it was full. */
  function Trim(stored: seq<int>): (r: seq<int>) {
    if |stored| > STORED_MSG_IDS_MAX_SIZE then stored[STORED_MSG_IDS_MAX_SIZE / 2..] else stored
  }

  function Judge(stored: seq<int>, recent: seq<int>, id: int, now: int): (v: Verdict) {
    if id in recent || id in stored then Known
    else
      var kept := Trim(stored);
      if kept == [] then Accept
      else if id < kept[0] then TooLow
      else if id - now > 30 * SECOND then Future
      else if id - now < -300 * SECOND then Past
      else Accept
  }

  /** `bisect.insort`. */
  function Inserted(s: seq<int>, x: int): (r: seq<int>) {
    if s == [] then [x]
    else if x < s[0] then [x] + s
    else [s[0]] + Inserted(s[1..], x)
  }

  function StoredAfter(stored: seq<int>, v: Verdict, id: int): (r: seq<int>) {
    match v
    case Known => stored
    case Accept => Inserted(Trim(stored), id)
    case _ => Trim(stored)
  }

  /** Exactly when each verdict is given: a message up to thirty seconds ahead and three hundred seconds old passes. */
  predicate Judged(stored: seq<int>, recent: seq<int>, id: int, now: int, v: Verdict) {
    var kept := if |stored| > 2000 then stored[1000..] else stored;
    var known := id in stored || id in recent;
    && (v == Known <==> known)
    && (v == TooLow <==> !known && kept != [] && id < kept[0])
    && (v == Future <==> !known && kept != [] && kept[0] <= id && id - now > 30 * 0x1_0000_0000)
    && (v == Past <==> !known && kept != [] && kept[0] <= id && id - now < -300 * 0x1_0000_0000)
    && (v == Accept <==>
        !known && (kept == [] || (kept[0] <= id && -300 * 0x1_0000_0000 <= id - now <= 30 * 0x1_0000_0000)))
  }

  lemma JudgeJudges(stored: seq<int>, recent: seq<int>, id: int, now: int)
    ensures Judged(stored, recent, id, now, Judge(stored, recent, id, now))
  {
  }

  // ----- inserting into a sorted list

  lemma {:induction false} InsertedBetween(a: seq<int>, x: int, b: seq<int>)
    requires (forall i :: 0 <= i < |a| ==> a[i] <= x) && (b != [] ==> x < b[0])
    ensures Inserted(a + b, x) == a + ([x] + b)
  {
    if a == [] {
      assert a + b == b && a + ([x] + b) == [x] + b;
      assert b == [] ==> [x] + b == [x];
    } else {
      assert (a + b)[1..] == a[1..] + b;
      InsertedBetween(a[1..], x, b);
      assert [a[0]] + (a[1..] + ([x] + b)) == a + ([x] + b);
    }
  }

  lemma InsertedAt(s: seq<int>, x: int, k: nat)
    requires k <= |s|
    requires (forall i :: 0 <= i < k ==> s[i] <= x) && (forall i :: k <= i < |s| ==> x < s[i])
    ensures Inserted(s, x) == s[..k] + ([x] + s[k..])
  {
    InsertedBetween(s[..k], x, s[k..]);
    assert s[..k] + s[k..] == s;
  }

  /** Binary search for the place after every element not above `x`. */
  method BisectRight(s: seq<int>, x: int) returns (k: nat)
    requires Increasing(s)
    ensures k <= |s|
    ensures (forall i :: 0 <= i < k ==> s[i] <= x) && (forall i :: k <= i < |s| ==> x < s[i])
  {
    var lo, hi := 0, |s|;
    while lo < hi
      invariant lo <= hi <= |s|
      invariant forall i :: 0 <= i < lo ==> s[i] <= x
      invariant forall i :: hi <= i < |s| ==> x < s[i]
    {
      var mid := (lo + hi) / 2;
      if x < s[mid] {
        hi := mid;
      } else {
        lo := mid + 1;
      }
    }
    k := lo;
  }

  method Insort(s: seq<int>, x: int) returns (r: seq<int>)
    requires Increasing(s)
    ensures r == Inserted(s, x)
  {
    var k := BisectRight(s, x);
    InsertedAt(s, x, k);
    r := s[..k] + ([x] + s[k..]);
  }

  lemma InsertedKeeps(s: seq<int>, x: int)
    requires Increasing(s) && x !in s
    ensures Increasing(Inserted(s, x)) && |Inserted(s, x)| == |s| + 1
    ensures multiset(Inserted(s, x)) == multiset(s) + multiset{x}
  {
    var k := Place(s, x);
    InsertedAt(s, x, k);
    Joined(s[..k], x, s[k..]);
    assert s == s[..k] + s[k..];
  }

  lemma Joined(a: seq<int>, x: int, b: seq<int>)
    requires Increasing(a + b) && x !in a + b
    requires (forall i :: 0 <= i < |a| ==> a[i] <= x) && (forall i :: 0 <= i < |b| ==> x < b[i])
    ensures Increasing(a + ([x] + b))
    ensures multiset(a + ([x] + b)) == multiset(a + b) + multiset{x}
  {
    var r := a + ([x] + b);
    forall i, j | 0 <= i < j < |r| ensures r[i] < r[j] {
      assert i < |a| ==> r[i] == (a + b)[i];
      assert i > |a| ==> r[i] == (a + b)[i - 1];
      assert j < |a| ==> r[j] == (a + b)[j];
      assert j > |a| ==> r[j] == (a + b)[j - 1];
    }
  }

  lemma {:induction false} Place(s: seq<int>, x: int) returns (k: nat)
    requires Increasing(s)
    ensures k <= |s|
    ensures (forall i :: 0 <= i < k ==> s[i] <= x) && (forall i :: k <= i < |s| ==> x < s[i])
  {
    if s == [] || s[|s| - 1] <= x {
      k := |s|;
    } else {
      k := Place(s[..|s| - 1], x);
    }
  }

  // ----- no id is accepted twice

  predicate Remembered(stored: seq<int>, id: int) {
    id in stored || (stored != [] && id < stored[0])
  }

  /** The window is sorted and bounded, and remembers every accepted id: it holds it, or starts above it. */
  ghost predicate Remembers(stored: seq<int>, accepted: seq<int>) {
    && Increasing(stored) && |stored| <= STORED_MSG_IDS_MAX_SIZE + 1
    && (forall i :: 0 <= i < |accepted| ==> Remembered(stored, accepted[i]))
    && (forall i, j :: 0 <= i < j < |accepted| ==> accepted[i] != accepted[j])
  }

  function AcceptedAfter(accepted: seq<int>, v: Verdict, id: int): (r: seq<int>) {
    if v == Accept then accepted + [id] else accepted
  }

  lemma TrimRemembers(stored: seq<int>, accepted: seq<int>)
    requires Remembers(stored, accepted)
    ensures Remembers(Trim(stored), accepted) && |Trim(stored)| <= STORED_MSG_IDS_MAX_SIZE
    ensures stored != [] ==> Trim(stored) != [] && Trim(stored)[0] >= stored[0]
    ensures forall x :: x in Trim(stored) ==> x in stored
  {
    var kept := Trim(stored);
    forall i | 0 <= i < |accepted| ensures Remembered(kept, accepted[i]) {
      assert Remembered(stored, accepted[i]);
      if |stored| > STORED_MSG_IDS_MAX_SIZE && accepted[i] in stored {
        var k :| 0 <= k < |stored| && stored[k] == accepted[i];
        if k >= STORED_MSG_IDS_MAX_SIZE / 2 {
          assert kept[k - STORED_MSG_IDS_MAX_SIZE / 2] == accepted[i];
        }
      }
    }
  }

  lemma InsertRemembers(kept: seq<int>, accepted: seq<int>, id: int)
    requires Remembers(kept, accepted) && |kept| <= STORED_MSG_IDS_MAX_SIZE && id !in kept && (kept == [] || id >= kept[0])
    ensures Remembers(Inserted(kept, id), accepted + [id])
  {
    InsertedKeeps(kept, id);
    var next := Inserted(kept, id);
    assert kept != [] ==> next[0] == kept[0];
    forall x ensures x in next <==> x in kept || x == id {
      assert x in next <==> x in multiset(next);
    }
    forall i | 0 <= i < |accepted| ensures Remembered(next, accepted[i]) && accepted[i] != id {
      assert Remembered(kept, accepted[i]);
    }
  }

  /** Whatever arrives, the window goes on remembering, so an accepted id is never accepted again. */
  lemma JudgeRemembers(stored: seq<int>, recent: seq<int>, accepted: seq<int>, id: int, now: int)
    requires Remembers(stored, accepted)
    ensures var v := Judge(stored, recent, id, now);
            Remembers(StoredAfter(stored, v, id), AcceptedAfter(accepted, v, id))
  {
    TrimRemembers(stored, accepted);
    var v := Judge(stored, recent, id, now);
    if v == Accept {
      InsertRemembers(Trim(stored), accepted, id);
    }
  }

  lemma AcceptedIsNotAcceptedAgain(stored: seq<int>, recent: seq<int>, accepted: seq<int>, id: int, now: int)
    requires Remembers(stored, accepted) && id in accepted
    ensures Judge(stored, recent, id, now) == Known || Judge(stored, recent, id, now) == TooLow
  {
    TrimRemembers(stored, accepted);
    var i :| 0 <= i < |accepted| && accepted[i] == id;
    assert Remembered(stored, accepted[i]);
  }

  // ----- the filter as an object

  class Filter {
    var stored: seq<int>
    var recent: seq<int>
    var acks: set<int>
    var ignored: nat
    /** The ids accepted and the verdicts given since the window was last cleared, in order. */
    ghost var accepted: seq<int>
    ghost var verdicts: seq<Verdict>

    ghost predicate Valid()
      reads this
    {
      Remembers(stored, accepted)
    }

    ghost function Now(): (w: Window)
      reads this
    {
      Window(stored, accepted, ignored, verdicts)
    }

    constructor ()
      ensures Valid() && Now() == EMPTY && recent == [] && acks == {}
    {
      stored, recent, acks, ignored, accepted, verdicts := [], [], {}, 0, [], [];
    }

    /** One message of a container; `now` is the id that a message sent at this moment would get. */
    method Handle(m: Message, now: int) returns (v: Verdict)
      requires Valid()
      modifies this
      ensures Valid() && recent == old(recent)
      ensures Judged(old(stored), recent, m.id, now, v)
      ensures Recorded(old(Now()), Now(), m.id, v)
      ensures Now() == After(old(Now()), recent, m.id, now)
      ensures acks == old(acks) + (if (v == Known || v == Accept) && m.seqNo % 2 == 1 then {m.id} else {})
                    + (if v == Accept && m.announces.Some? then {m.announces.value} else {})
    {
      AfterRecords(Now(), recent, m.id, now);
      v := Sift(m, now);
    }

    /** The checks on an id that is not known; a window that is full drops its older half first. */
    method Weigh(id: int, now: int) returns (v: Verdict)
      requires Valid() && id !in stored && id !in recent
      modifies this`stored
      ensures Valid() && stored == Trim(old(stored)) && id !in stored
      ensures v == Judge(old(stored), recent, id, now)
    {
      TrimRemembers(stored, accepted);
      if |stored| > STORED_MSG_IDS_MAX_SIZE {
        stored := stored[STORED_MSG_IDS_MAX_SIZE / 2..];
      }
      v := Accept;
      if stored != [] {
        if id < stored[0] {
          v := TooLow;
        } else if id - now > 30 * SECOND {
          v := Future;
        } else if id - now < -300 * SECOND {
          v := Past;
        }
      }
    }

    /** The checks in their order, and what each outcome changes. */
    method Sift(m: Message, now: int) returns (v: Verdict)
      requires Valid()
      modifies this
      ensures Valid() && recent == old(recent)
      ensures v == Judge(old(stored), recent, m.id, now)
      ensures Now() == After(old(Now()), recent, m.id, now)
      ensures acks == old(acks) + Owed(m, v)
    {
      JudgeRemembers(stored, recent, accepted, m.id, now);
      if m.id in recent || m.id in stored {
        if m.seqNo % 2 != 0 {
          acks := acks + {m.id};
        }
        verdicts := verdicts + [Known];
        return Known;
      }
      v := Weigh(m.id, now);
      verdicts := verdicts + [v];
      if v != Accept {
        ignored := ignored + 1;
        return;
      }
      stored := Insort(stored, m.id);
      accepted := accepted + [m.id];
      ignored := 0;
      if m.seqNo % 2 != 0 {
        acks := acks + {m.id};
      }
      if m.announces.Some? {
        acks := acks + {m.announces.value};
      }
    }

    /** One round of the loop: `stop` tells that the refusal asks for a restart. */
    method Round(arrivals: seq<Arrival>, n: nat, ghost next: Machine, ghost before: Window) returns (stop: bool)
      requires Valid() && n < |arrivals| && next == Filtering(recent) && Run(next, before, arrivals, n) == Now()
      modifies this
      ensures Valid() && recent == old(recent)
      ensures Run(next, before, arrivals, n + 1) == Now()
      ensures stop <==> Trips(Run(next, before, arrivals, n + 1))
    {
      var v := Handle(arrivals[n].message, arrivals[n].now);
      stop := Refusal(v) && ignored >= MAX_CONSECUTIVE_IGNORED;
    }

    /** The loop over a container: it ends early, asking for a restart, when a refusal brings the count to
        thirty or finds it there; the messages after that one are not looked at. */
    method HandleAll(arrivals: seq<Arrival>) returns (n: nat, restart: bool)
      requires Valid()
      modifies this
      ensures Valid() && recent == old(recent)
      ensures n <= |arrivals| && (!restart ==> n == |arrivals|)
      ensures Run(Filtering(recent), old(Now()), arrivals, n) == Now()
      ensures restart <==> Trips(Now()) && n > 0
      ensures restart ==> verdicts != [] && verdicts[|verdicts| - 1] in {TooLow, Future, Past} && ignored >= 30
      ensures CalmBefore(Filtering(recent), old(Now()), arrivals, n)
    {
      ghost var next, before := Filtering(recent), Now();
      n := 0;
      restart := false;
      while n < |arrivals| && !restart
        invariant Valid() && recent == old(recent) && n <= |arrivals|
        invariant Run(next, before, arrivals, n) == Now()
        invariant restart <==> Trips(Now()) && n > 0
        invariant CalmBefore(next, before, arrivals, n)
        decreases |arrivals| - n
      {
        CalmStep(next, before, arrivals, n);
        restart := Round(arrivals, n, next, before);
        n := n + 1;
      }
    }

    /** `_stop_resources` forgets the window. */
    method Clear()
      modifies this
      ensures Valid() && Now() == EMPTY && recent == old(recent) && acks == old(acks)
    {
      stored, accepted, ignored, verdicts := [], [], 0, [];
    }

    /** `restart` keeps the thirty oldest ids of the window aside, and then stops. */
    method Restart()
      modifies this
      ensures Valid() && Now() == EMPTY && acks == old(acks)
      ensures recent == Aside(old(stored), old(recent))
      ensures old(stored) == [] ==> recent == old(recent)
      ensures old(stored) != [] ==> |recent| == Min(30, |old(stored)|) && forall i :: 0 <= i < |recent| ==> recent[i] == old(stored)[i]
    {
      if stored != [] {
        recent := stored[..Min(30, |stored|)];
      }
      Clear();
    }
  }

  predicate Refusal(v: Verdict) {
    v != Known && v != Accept
  }

  /** The acknowledgements a message adds. */
  function Owed(m: Message, v: Verdict): (r: set<int>) {
    (if !Refusal(v) && m.seqNo % 2 != 0 then {m.id} else {})
    + (if v == Accept && m.announces.Some? then {m.announces.value} else {})
  }

  /** The window, the accepted ids, the refusals in a row and the verdicts so far. */
  datatype Window = Window(stored: seq<int>, accepted: seq<int>, ignored: nat, verdicts: seq<Verdict>)

  const EMPTY := Window([], [], 0, [])

  function After(w: Window, recent: seq<int>, id: int, now: int): (r: Window) {
    AfterVerdict(w, Judge(w.stored, recent, id, now), id)
  }

  /** What a verdict leaves behind: a known message nothing, a refused one the count, an accepted one its id. */
  predicate Recorded(a: Window, b: Window, id: int, v: Verdict) {
    var kept := if |a.stored| > 2000 then a.stored[1000..] else a.stored;
    && b.verdicts == a.verdicts + [v]
    && b.accepted == (if v == Accept then a.accepted + [id] else a.accepted)
    && b.ignored == (if v == Accept then 0 else if v == Known then a.ignored else a.ignored + 1)
    && (v == Known ==> b.stored == a.stored)
    && (v == Accept ==> multiset(b.stored) == multiset(kept) + multiset{id} && Increasing(b.stored))
    && (v != Known && v != Accept ==> b.stored == kept)
  }

  /** The window after a verdict. */
  function AfterVerdict(w: Window, v: Verdict, id: int): (r: Window) {
    Window(StoredAfter(w.stored, v, id), AcceptedAfter(w.accepted, v, id),
      if v == Accept then 0 else if v == Known then w.ignored else w.ignored + 1, w.verdicts + [v])
  }

  lemma VerdictRecords(w: Window, v: Verdict, id: int)
    requires v == Accept ==> Increasing(Inserted(Trim(w.stored), id))
    requires v == Accept ==> multiset(Inserted(Trim(w.stored), id)) == multiset(Trim(w.stored)) + multiset{id}
    ensures Recorded(w, AfterVerdict(w, v, id), id, v)
  {
    assert Trim(w.stored) == if |w.stored| > 2000 then w.stored[1000..] else w.stored;
    match v
    case Known =>
    case Accept =>
    case _ =>
  }

  lemma NewId(w: Window, recent: seq<int>, id: int, now: int)
    requires Sane(w) && Judge(w.stored, recent, id, now) == Accept
    ensures Increasing(Trim(w.stored)) && id !in Trim(w.stored)
  {
    TrimRemembers(w.stored, w.accepted);
  }

  lemma AfterRecords(w: Window, recent: seq<int>, id: int, now: int)
    requires Sane(w)
    ensures Judged(w.stored, recent, id, now, Judge(w.stored, recent, id, now))
    ensures Recorded(w, After(w, recent, id, now), id, Judge(w.stored, recent, id, now))
  {
    JudgeJudges(w.stored, recent, id, now);
    var v := Judge(w.stored, recent, id, now);
    if v == Accept {
      NewId(w, recent, id, now);
      InsertedKeeps(Trim(w.stored), id);
    }
    VerdictRecords(w, v, id);
  }

  /** A message and the id that a message sent at the moment of its arrival would get. */
  datatype Arrival = Arrival(message: Message, now: int)

  type Machine = (Window, Arrival) -> Window

  /** The filter's step, with the ids that the last restart kept aside. */
  function Filtering(recent: seq<int>): (next: Machine) {
    (w: Window, a: Arrival) => After(w, recent, a.message.id, a.now)
  }

  /** The ids that a restart keeps aside. */
  function Aside(stored: seq<int>, recent: seq<int>): (r: seq<int>) {
    if stored != [] then stored[..Min(30, |stored|)] else recent
  }

  predicate Trips(w: Window) {
    w.verdicts != [] && w.verdicts[|w.verdicts| - 1] in {TooLow, Future, Past} && w.ignored >= 30
  }

  /** No earlier message of the container has asked for a restart. */
  ghost predicate CalmBefore(next: Machine, w: Window, arrivals: seq<Arrival>, n: nat)
    requires n <= |arrivals|
  {
    forall i :: 0 < i < n ==> !Trips(Run(next, w, arrivals, i))
  }

  lemma CalmStep(next: Machine, w: Window, arrivals: seq<Arrival>, n: nat)
    requires n < |arrivals| && CalmBefore(next, w, arrivals, n) && (n > 0 ==> !Trips(Run(next, w, arrivals, n)))
    ensures CalmBefore(next, w, arrivals, n + 1)
  {
  }

  ghost predicate Sane(w: Window) {
    Remembers(w.stored, w.accepted)
  }

  /** In every run from an empty window, no id is accepted twice and the window stays sorted and bounded. */
  lemma RunAcceptsOnce(recent: seq<int>, arrivals: seq<Arrival>, n: nat)
    requires n <= |arrivals|
    ensures var w := Run(Filtering(recent), EMPTY, arrivals, n);
            Remembers(w.stored, w.accepted)
  {
    forall w, a ensures StableAt(Filtering(recent), Sane, w, a) {
      if Sane(w) {
        JudgeRemembers(w.stored, recent, w.accepted, a.message.id, a.now);
      }
    }
    RunKeeps(Filtering(recent), Sane, EMPTY, arrivals, n);
  }

  /** In every run, every message gets the verdict that the window and the clock call for, and leaves that behind. */
  lemma RunJudges(recent: seq<int>, arrivals: seq<Arrival>, n: nat) returns (v: Verdict)
    requires n < |arrivals|
    ensures var a, b := Run(Filtering(recent), EMPTY, arrivals, n), Run(Filtering(recent), EMPTY, arrivals, n + 1);
            && Judged(a.stored, recent, arrivals[n].message.id, arrivals[n].now, v)
            && Recorded(a, b, arrivals[n].message.id, v)
  {
    RunAcceptsOnce(recent, arrivals, n);
    var a := Run(Filtering(recent), EMPTY, arrivals, n);
    v := Judge(a.stored, recent, arrivals[n].message.id, arrivals[n].now);
    AfterRecords(a, recent, arrivals[n].message.id, arrivals[n].now);
  }

  // ----- across a restart

  /** An id that was kept aside is never accepted, whatever arrives. */
  lemma AsideIsRefused(recent: seq<int>, id: int, arrivals: seq<Arrival>, n: nat)
    requires id in recent && n <= |arrivals|
    ensures id !in Run(Filtering(recent), EMPTY, arrivals, n).accepted
  {
    var unseen := (w: Window) => id !in w.accepted;
    forall w, a ensures StableAt(Filtering(recent), unseen, w, a) {
    }
    RunKeeps(Filtering(recent), unseen, EMPTY, arrivals, n);
  }

  /** Some run after the restart accepts the id. */
  ghost predicate Replayable(recent: seq<int>, id: int) {
    exists arrivals :: id in Run(Filtering(recent), EMPTY, arrivals, |arrivals|).accepted
  }

  /** After a restart an id, whether stored, dropped with the older half or never seen, is accepted in some run
      exactly if it was not kept aside. */
  lemma ReplayAfterRestartIff(stored: seq<int>, recent: seq<int>, id: int)
    ensures Replayable(Aside(stored, recent), id) <==> id !in Aside(stored, recent)
  {
    var aside := Aside(stored, recent);
    if id in aside {
      forall arrivals ensures id !in Run(Filtering(aside), EMPTY, arrivals, |arrivals|).accepted {
        AsideIsRefused(aside, id, arrivals, |arrivals|);
      }
    } else {
      var arrivals := [Arrival(Message(id, 0, None), id)];
      assert Run(Filtering(aside), EMPTY, arrivals, 0) == EMPTY;
      assert Run(Filtering(aside), EMPTY, arrivals, 1) == After(EMPTY, aside, id, id);
      assert id in Run(Filtering(aside), EMPTY, arrivals, |arrivals|).accepted;
    }
  }

  lemma FirstIds(stored: seq<int>, id: nat)
    requires |stored| == id < 31 && forall k :: 0 <= k < id ==> stored[k] == k
    ensures Judge(stored, [], id, id) == Accept && StoredAfter(stored, Accept, id) == stored + [id]
  {
    InsertedAt(stored, id, id);
    assert stored[..id] == stored && stored[id..] == [];
  }

  /** Thirty-one ids are accepted; after the restart the newest of them is accepted again. */
  method AcceptedAgain() returns (first: Verdict, again: Verdict)
    ensures first == Accept && again == Accept
  {
    var f := new Filter();
    first := Known;
    for id := 0 to 31
      invariant fresh(f) && f.Valid() && f.recent == []
      invariant |f.stored| == id && (forall k :: 0 <= k < id ==> f.stored[k] == k)
      invariant id == 31 ==> first == Accept
    {
      FirstIds(f.stored, id);
      first := f.Sift(Message(id, 0, None), id);
    }
    f.Restart();
    again := f.Sift(Message(30, 0, None), 30);
  }
}
