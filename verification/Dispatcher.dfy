/**
 The update queue of the dispatcher, its workers, and their shutdown by sentinels. Each method is what one
 task does between two suspensions, so every interleaving is a sequence of calls.
 */
module Dispatcher {

  datatype Item = Packet(p: int) | Sentinel

  datatype Worker = Idle | Busy(p: int) | Ended

  datatype Entry = Entry(worker: nat, item: Item)

  function ItemsOf(log: seq<Entry>): (r: seq<Item>)
    ensures |r| == |log|
  {
    seq(|log|, i requires 0 <= i < |log| => log[i].item)
  }

  function Packets(admitted: seq<int>): (r: seq<Item>)
    ensures |r| == |admitted| && forall i :: 0 <= i < |r| ==> r[i] == Packet(admitted[i])
  {
    seq(|admitted|, i requires 0 <= i < |admitted| => Packet(admitted[i]))
  }

  function Sentinels(n: nat): (r: seq<Item>)
    ensures |r| == n && forall i :: 0 <= i < n ==> r[i] == Sentinel
  {
    seq(n, i => Sentinel)
  }

  // ----- counting

  function SentinelCount(items: seq<Item>): (n: nat) {
    if items == [] then 0
    else SentinelCount(items[..|items| - 1]) + if items[|items| - 1].Sentinel? then 1 else 0
  }

  /** The sentinels that worker `w` has taken. */
  function SentinelsOf(log: seq<Entry>, w: nat): (n: nat) {
    if log == [] then 0
    else SentinelsOf(log[..|log| - 1], w) + if log[|log| - 1] == Entry(w, Sentinel) then 1 else 0
  }

  function EndedCount(workers: seq<Worker>): (n: nat)
    ensures n <= |workers|
  {
    if workers == [] then 0
    else EndedCount(workers[..|workers| - 1]) + if workers[|workers| - 1].Ended? then 1 else 0
  }

  lemma {:induction false} EndedUpdate(workers: seq<Worker>, w: nat, next: Worker)
    requires w < |workers| && !workers[w].Ended?
    ensures EndedCount(workers[w := next]) == EndedCount(workers) + if next.Ended? then 1 else 0
  {
    var n := |workers| - 1;
    if w == n {
      assert workers[w := next][..n] == workers[..n];
    } else {
      EndedUpdate(workers[..n], w, next);
      assert workers[w := next][..n] == workers[..n][w := next];
    }
  }

  lemma {:induction false} AllEnded(workers: seq<Worker>)
    ensures EndedCount(workers) == |workers| <==> forall w :: 0 <= w < |workers| ==> workers[w].Ended?
  {
    if workers != [] {
      AllEnded(workers[..|workers| - 1]);
    }
  }

  lemma {:induction false} NoneEnded(n: nat)
    ensures EndedCount(seq(n, i => Idle)) == 0
  {
    if n > 0 {
      NoneEnded(n - 1);
      assert seq(n, i => Idle)[..n - 1] == seq(n - 1, i => Idle);
    }
  }

  lemma LogAppend(log: seq<Entry>, e: Entry, w: nat)
    ensures ItemsOf(log + [e]) == ItemsOf(log) + [e.item]
    ensures SentinelsOf(log + [e], w) == SentinelsOf(log, w) + if e == Entry(w, Sentinel) then 1 else 0
    ensures SentinelCount(ItemsOf(log + [e])) == SentinelCount(ItemsOf(log)) + if e.item.Sentinel? then 1 else 0
  {
    assert (log + [e])[..|log|] == log;
    assert ItemsOf(log + [e]) == ItemsOf(log) + [e.item];
    assert (ItemsOf(log) + [e.item])[..|log|] == ItemsOf(log);
  }

  // ----- the queue discipline

  /** What was taken and what waits, in one row, is what was put: the admitted packets, then the sentinels. */
  predicate InOrder(log: seq<Entry>, queue: seq<Item>, admitted: seq<int>, pushed: nat) {
    ItemsOf(log) + queue == Packets(admitted) + Sentinels(pushed)
  }

  /** A worker ends with its sentinel and never takes another. */
  predicate OneSentinel(log: seq<Entry>, workers: seq<Worker>, w: nat)
    requires w < |workers|
  {
    SentinelsOf(log, w) == if workers[w].Ended? then 1 else 0
  }

  lemma PutPacket(log: seq<Entry>, queue: seq<Item>, admitted: seq<int>, p: int)
    requires InOrder(log, queue, admitted, 0)
    ensures InOrder(log, queue + [Packet(p)], admitted + [p], 0)
  {
    assert Packets(admitted + [p]) + Sentinels(0) == (Packets(admitted) + Sentinels(0)) + [Packet(p)];
    assert ItemsOf(log) + (queue + [Packet(p)]) == (ItemsOf(log) + queue) + [Packet(p)];
  }

  lemma PutSentinel(log: seq<Entry>, queue: seq<Item>, admitted: seq<int>, pushed: nat)
    requires InOrder(log, queue, admitted, pushed)
    ensures InOrder(log, queue + [Sentinel], admitted, pushed + 1)
  {
    assert Packets(admitted) + Sentinels(pushed + 1) == (Packets(admitted) + Sentinels(pushed)) + [Sentinel];
    assert ItemsOf(log) + (queue + [Sentinel]) == (ItemsOf(log) + queue) + [Sentinel];
  }

  lemma TakeHead(log: seq<Entry>, queue: seq<Item>, admitted: seq<int>, pushed: nat, w: nat)
    requires queue != [] && InOrder(log, queue, admitted, pushed)
    ensures InOrder(log + [Entry(w, queue[0])], queue[1..], admitted, pushed)
  {
    LogAppend(log, Entry(w, queue[0]), w);
    assert (ItemsOf(log) + [queue[0]]) + queue[1..] == ItemsOf(log) + queue;
  }

  lemma {:induction false} SentinelsInPrefix(admitted: seq<int>, pushed: nat, k: nat)
    requires k <= |admitted| + pushed
    ensures SentinelCount((Packets(admitted) + Sentinels(pushed))[..k]) == if k <= |admitted| then 0 else k - |admitted|
  {
    if k > 0 {
      var put := Packets(admitted) + Sentinels(pushed);
      SentinelsInPrefix(admitted, pushed, k - 1);
      assert put[..k][..k - 1] == put[..k - 1];
    }
  }

  /** With a sentinel taken, all packets have been taken, in the order of their admission, and what is left
      in the queue are the surplus sentinels. */
  lemma TakenInOrder(log: seq<Entry>, queue: seq<Item>, admitted: seq<int>, pushed: nat)
    requires InOrder(log, queue, admitted, pushed)
    ensures var ended := SentinelCount(ItemsOf(log));
            && (ended == 0 ==> |log| <= |admitted| && ItemsOf(log) == Packets(admitted)[..|log|])
            && (ended > 0 ==>
                  && ended <= pushed
                  && ItemsOf(log) == Packets(admitted) + Sentinels(ended)
                  && queue == Sentinels(pushed - ended))
  {
    var put := Packets(admitted) + Sentinels(pushed);
    var k := |log|;
    assert |put| == k + |queue|;
    SentinelsInPrefix(admitted, pushed, k);
    assert put[..k] == ItemsOf(log) && put[k..] == queue;
    if k <= |admitted| {
      assert put[..k] == Packets(admitted)[..k];
    }
  }

  /** A worker that has taken a packet handles it; a sentinel ends it. */
  function After(item: Item): (r: Worker) {
    if item.Packet? then Busy(item.p) else Ended
  }

  ghost predicate Counted(log: seq<Entry>, workers: seq<Worker>) {
    && SentinelCount(ItemsOf(log)) == EndedCount(workers)
    && (forall w :: 0 <= w < |workers| ==> OneSentinel(log, workers, w))
  }

  lemma TakenCounts(log: seq<Entry>, workers: seq<Worker>, w: nat, item: Item)
    requires Counted(log, workers) && w < |workers| && workers[w].Idle?
    ensures Counted(log + [Entry(w, item)], workers[w := After(item)])
  {
    var next, longer := workers[w := After(item)], log + [Entry(w, item)];
    LogAppend(log, Entry(w, item), w);
    EndedUpdate(workers, w, After(item));
    forall u | 0 <= u < |next| ensures OneSentinel(longer, next, u) {
      LogAppend(log, Entry(w, item), u);
      assert OneSentinel(log, workers, u);
    }
  }

  // ----- the dispatcher as an object

  class Dispatcher {
    var queue: seq<Item>
    var accepting: bool
    var workers: seq<Worker>
    /** `handler_worker_tasks`, as numbers of workers. */
    var registry: seq<nat>

    /** What has been admitted, how many sentinels each pass has put, and who has taken what. */
    ghost var admitted: seq<int>
    ghost var pushed: nat
    ghost var log: seq<Entry>

    ghost predicate Valid()
      reads this
    {
      && InOrder(log, queue, admitted, pushed)
      && (pushed > 0 ==> !accepting)
      && Counted(log, workers)
      && (forall i :: 0 <= i < |registry| ==> registry[i] < |workers|)
      && (pushed == 0 ==> |registry| == |workers|)
    }

    /** `start`, once it has spawned its workers; packets may have been admitted while its handler ran. */
    constructor (count: nat, early: seq<int>, accepting: bool)
      ensures Valid() && admitted == early && workers == seq(count, i => Idle) && pushed == 0 && log == []
      ensures this.accepting == accepting && queue == Packets(early)
    {
      queue, this.accepting := Packets(early), accepting;
      workers, registry := seq(count, i => Idle), seq(count, i => i);
      admitted, pushed, log := early, 0, [];
      new;
      assert ItemsOf([]) + Packets(early) == Packets(early) + Sentinels(0);
      NoneEnded(count);
    }

    method Enqueue(p: int)
      requires Valid()
      modifies this`queue, this`admitted
      ensures Valid()
      ensures if accepting then queue == old(queue) + [Packet(p)] && admitted == old(admitted) + [p]
              else queue == old(queue) && admitted == old(admitted)
    {
      if !accepting {
        return;
      }
      PutPacket(log, queue, admitted, p);
      queue := queue + [Packet(p)];
      admitted := admitted + [p];
    }

    /** The head of `stop`. */
    method CloseAdmission()
      requires Valid()
      modifies this`accepting
      ensures Valid() && !accepting
    {
      accepting := false;
    }

    /** `_stop_workers` after its handler: one sentinel for each registered worker. */
    method PushSentinels()
      requires Valid() && workers != []
      modifies this`accepting, this`queue, this`pushed
      ensures Valid() && !accepting
      ensures queue == old(queue) + Sentinels(|registry|) && pushed == old(pushed) + |registry|
    {
      accepting := false;
      var i := 0;
      while i < |registry|
        invariant i <= |registry| && !accepting && InOrder(log, queue, admitted, pushed)
        invariant queue == old(queue) + Sentinels(i) && pushed == old(pushed) + i
      {
        PutSentinel(log, queue, admitted, pushed);
        queue := queue + [Sentinel];
        pushed := pushed + 1;
        i := i + 1;
      }
    }

    /** A worker's `get` comes back. */
    method Take(w: nat)
      requires Valid() && w < |workers| && workers[w].Idle? && queue != []
      modifies this`queue, this`workers, this`log
      ensures Valid()
      ensures queue == old(queue)[1..] && log == old(log) + [Entry(w, old(queue)[0])]
      ensures workers == old(workers)[w := match old(queue)[0] case Packet(p) => Busy(p) case Sentinel => Ended]
    {
      var item := queue[0];
      TakeHead(log, queue, admitted, pushed, w);
      TakenCounts(log, workers, w, item);
      queue := queue[1..];
      log := log + [Entry(w, item)];
      workers := workers[w := After(item)];
    }

    /** The handlers of a packet are through. */
    method Finish(w: nat)
      requires Valid() && w < |workers| && workers[w].Busy?
      modifies this`workers
      ensures Valid() && workers == old(workers)[w := Idle]
    {
      EndedUpdate(workers, w, Idle);
      var next := workers[w := Idle];
      forall u | 0 <= u < |next| ensures OneSentinel(log, next, u) {
        assert OneSentinel(log, workers, u);
      }
      workers := next;
    }

    /** The end of a pass that has put its sentinels: finished workers leave the list. */
    method Unregister()
      requires Valid() && pushed > 0
      modifies this`registry
      ensures Valid()
      ensures forall w :: w in registry <==> w in old(registry) && !workers[w].Ended?
    {
      var rest: seq<nat> := [];
      for i := 0 to |registry|
        invariant forall w :: w in rest <==> w in registry[..i] && !workers[w].Ended?
        invariant forall j :: 0 <= j < |rest| ==> rest[j] < |workers|
      {
        if !workers[registry[i]].Ended? {
          rest := rest + [registry[i]];
        }
      }
      registry := rest;
    }
  }

  /** When all workers have ended: the admitted packets were taken in their order and each once, every worker
      took one sentinel, and the queue holds the surplus sentinels. It is empty exactly if the passes put
      one sentinel for each worker in all. */
  lemma Shutdown(d: Dispatcher)
    requires d.Valid() && d.workers != [] && forall w :: 0 <= w < |d.workers| ==> d.workers[w].Ended?
    ensures |d.workers| <= d.pushed
    ensures ItemsOf(d.log) == Packets(d.admitted) + Sentinels(|d.workers|)
    ensures forall w :: 0 <= w < |d.workers| ==> SentinelsOf(d.log, w) == 1
    ensures d.queue == Sentinels(d.pushed - |d.workers|)
    ensures d.queue == [] <==> d.pushed == |d.workers|
  {
    AllEnded(d.workers);
    TakenInOrder(d.log, d.queue, d.admitted, d.pushed);
    forall w | 0 <= w < |d.workers| ensures SentinelsOf(d.log, w) == 1 {
      assert OneSentinel(d.log, d.workers, w);
    }
  }

  /** At any moment, what has been taken are the first packets admitted, in order. */
  lemma PacketsLeaveInOrder(d: Dispatcher)
    requires d.Valid()
    ensures d.pushed == 0 ==>
      |d.log| <= |d.admitted| && ItemsOf(d.log) == Packets(d.admitted)[..|d.log|]
      && d.queue == Packets(d.admitted)[|d.log|..]
  {
    TakenInOrder(d.log, d.queue, d.admitted, d.pushed);
    if d.pushed == 0 {
      var put := Packets(d.admitted) + Sentinels(0);
      assert put == Packets(d.admitted);
      assert put[|d.log|..] == d.queue;
    }
  }

  /** Two stops whose passes both run before the workers end leave as many sentinels as there are workers. */
  method TwoStops(count: nat) returns (d: Dispatcher)
    requires count > 0
    ensures fresh(d) && d.Valid() && |d.workers| == count
    ensures forall w :: 0 <= w < count ==> d.workers[w].Ended?
    ensures d.queue == Sentinels(count)
  {
    d := new Dispatcher(count, [], true);
    d.CloseAdmission();
    d.CloseAdmission();
    d.PushSentinels();
    d.PushSentinels();
    for w := 0 to count
      invariant fresh(d) && d.Valid() && |d.workers| == count
      invariant forall u :: 0 <= u < count ==> d.workers[u] == if u < w then Ended else Idle
      invariant d.queue == Sentinels(2 * count - w)
    {
      d.Take(w);
    }
  }
}
