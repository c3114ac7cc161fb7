/**
 AES in counter mode, as `ctr` writes it: the counter block and the position in the key stream
 block are updated in place and carried from call to call.
 */
module Ctr {
  import opened Arithmetic
  import opened Bytes
  import opened BlockModes

  // ----- the key stream

  /** 2 to the power 128. */
  const WRAP: nat := 0x1_0000_0000_0000_0000_0000_0000_0000_0000

  lemma BaseIsWrap()
    ensures Base(16) == WRAP
  {
    assert Base(4) == 0x1_0000_0000;
    assert Base(8) == 0x1_0000_0000_0000_0000;
  }

  /** Counter block number `m`: sixteen bytes, big endian, wrapping around. */
  function Counter(m: nat): (b: Block) {
    BigEndian(m % WRAP, 16)
  }

  /** The counter blocks in order. */
  type Counters = nat -> Block

  /** Key stream byte at position `p`. */
  function KeyByte(enc: BlockFunction, counter: Counters, p: nat): (r: byte) {
    enc(counter(p / 16))[p % 16]
  }

  function KeyBytes(key: nat -> byte, p: nat, n: nat): (r: seq<byte>)
    ensures |r| == n
  {
    if n == 0 then [] else KeyBytes(key, p, n - 1) + [key(p + n - 1)]
  }

  function Key(enc: BlockFunction, counter: Counters): (key: nat -> byte) {
    p => KeyByte(enc, counter, p)
  }

  /** `data` masked with the key stream from position `p` on. */
  function Mask(key: nat -> byte, p: nat, data: seq<byte>): (r: seq<byte>)
    ensures |r| == |data|
  {
    XorBytes(data, KeyBytes(key, p, |data|))
  }

  /** Counter mode: section 6.5 of NIST SP 800-38A. */
  function Mode(enc: BlockFunction, p: nat, data: seq<byte>): (r: seq<byte>)
    ensures |r| == |data|
  {
    Mask(Key(enc, Counter), p, data)
  }

  // ----- laws of the simple form

  lemma {:induction false} KeyBytesAt(key: nat -> byte, p: nat, n: nat, i: nat)
    requires i < n
    ensures KeyBytes(key, p, n)[i] == key(p + i)
  {
    if i < n - 1 {
      KeyBytesAt(key, p, n - 1, i);
    }
  }

  lemma MaskAt(key: nat -> byte, p: nat, data: seq<byte>, n: nat)
    requires n < |data|
    ensures Mask(key, p, data)[n] == XorByte(data[n], key(p + n))
  {
    KeyBytesAt(key, p, |data|, n);
  }

  /** Byte `n` is masked with byte `(s + n) mod 16` of the encryption of counter `v + (s + n) / 16`. */
  lemma ModeAt(enc: BlockFunction, v: nat, s: nat, data: seq<byte>, n: nat)
    requires n < |data|
    ensures Mode(enc, 16 * v + s, data)[n] == XorByte(data[n], enc(Counter(v + (s + n) / 16))[(s + n) % 16])
  {
    MaskAt(Key(enc, Counter), 16 * v + s, data, n);
    PositionAt(enc, Counter, v, s + n);
  }

  lemma PositionAt(enc: BlockFunction, counter: Counters, v: nat, t: nat)
    ensures Key(enc, counter)(16 * v + t) == enc(counter(v + t / 16))[t % 16]
  {
    assert (16 * v + t) / 16 == v + t / 16 && (16 * v + t) % 16 == t % 16;
  }

  lemma {:induction false} KeyBytesConcat(key: nat -> byte, p: nat, m: nat, n: nat)
    ensures KeyBytes(key, p, m + n) == KeyBytes(key, p, m) + KeyBytes(key, p + m, n)
  {
    if n > 0 {
      KeyBytesConcat(key, p, m, n - 1);
    }
  }

  lemma XorConcat(a: seq<byte>, b: seq<byte>, k: seq<byte>, l: seq<byte>)
    requires |a| == |k| && |b| == |l|
    ensures XorBytes(a + b, k + l) == XorBytes(a, k) + XorBytes(b, l)
  {
    forall i | 0 <= i < |a| + |b|
      ensures XorBytes(a + b, k + l)[i] == (XorBytes(a, k) + XorBytes(b, l))[i]
    {
    }
  }

  lemma MaskConcat(key: nat -> byte, p: nat, a: seq<byte>, b: seq<byte>)
    ensures Mask(key, p, a) + Mask(key, p + |a|, b) == Mask(key, p, a + b)
  {
    KeyBytesConcat(key, p, |a|, |b|);
    XorConcat(a, b, KeyBytes(key, p, |a|), KeyBytes(key, p + |a|, |b|));
  }

  /** Counter mode is its own inverse. */
  lemma Twice(enc: BlockFunction, p: nat, data: seq<byte>)
    ensures Mode(enc, p, Mode(enc, p, data)) == data
  {
    XorBytesTwice(data, KeyBytes(Key(enc, Counter), p, |data|));
  }

  predicate SameByte(key: nat -> byte, p: nat, q: nat, i: nat) {
    key(p + i) == key(q + i)
  }

  lemma {:induction false} SameKeyBytes(key: nat -> byte, p: nat, q: nat, n: nat)
    requires forall i :: 0 <= i < n ==> SameByte(key, p, q, i)
    ensures KeyBytes(key, p, n) == KeyBytes(key, q, n)
  {
    if n > 0 {
      SameKeyBytes(key, p, q, n - 1);
      assert SameByte(key, p, q, n - 1);
    }
  }

  lemma ModAdd(x: nat, y: nat, b: nat)
    requires b > 0
    ensures (x % b + y) % b == (x + y) % b
  {
    var q, r := (x % b + y) / b, (x % b + y) % b;
    assert x == b * (x / b) + x % b;
    assert x % b + y == b * q + r;
    assert (x / b + q) * b == b * (x / b) + b * q;
    DivModUnique(x + y, b, x / b + q, r);
  }

  /** The position that the iv and the state show after a call, the counter having wrapped around. */
  function Shown(p: nat): (q: nat) {
    16 * ((p / 16) % WRAP) + p % 16
  }

  lemma CounterWraps(m: nat, k: nat)
    ensures Counter(m % WRAP + k) == Counter(m + k)
  {
    ModAdd(m, k, WRAP);
  }

  lemma SameCounter(enc: BlockFunction, counter: Counters, m: nat, m': nat, t: nat)
    requires counter(m' + t / 16) == counter(m + t / 16)
    ensures Key(enc, counter)(16 * m' + t) == Key(enc, counter)(16 * m + t)
  {
    PositionAt(enc, counter, m', t);
    PositionAt(enc, counter, m, t);
  }

  lemma Positions(p: nat, i: nat, b: nat)
    requires b > 0
    ensures 16 * ((p / 16) % b) + p % 16 + i == 16 * ((p / 16) % b) + (p % 16 + i)
    ensures p + i == 16 * (p / 16) + (p % 16 + i)
  {
  }

  /** The position shown is as good as the exact one. */
  lemma Wraps(enc: BlockFunction, p: nat, i: nat)
    ensures SameByte(Key(enc, Counter), Shown(p), p, i)
  {
    CounterWraps(p / 16, (p % 16 + i) / 16);
    SameCounter(enc, Counter, p / 16, (p / 16) % WRAP, p % 16 + i);
    Positions(p, i, WRAP);
  }

  lemma CarriedState(enc: BlockFunction, p: nat, data: seq<byte>)
    ensures Mode(enc, Shown(p), data) == Mode(enc, p, data)
  {
    forall i | 0 <= i < |data|
      ensures SameByte(Key(enc, Counter), Shown(p), p, i)
    {
      Wraps(enc, p, i);
    }
    SameMask(Key(enc, Counter), Shown(p), p, data);
  }

  lemma SameMask(key: nat -> byte, p: nat, q: nat, data: seq<byte>)
    requires forall i :: 0 <= i < |data| ==> SameByte(key, p, q, i)
    ensures Mask(key, p, data) == Mask(key, q, data)
  {
    SameKeyBytes(key, p, q, |data|);
  }

  // ----- the counter

  function Ones(n: nat): (r: seq<byte>)
    ensures |r| == n && forall i :: 0 <= i < n ==> r[i] == 255
  {
    seq(n, i => 255)
  }

  lemma SnocValue(head: seq<byte>, x: byte)
    ensures FromBigEndian(head + [x]) == 256 * FromBigEndian(head) + x
  {
    assert (head + [x])[..|head|] == head;
  }

  /** The successor of a counter block, byte by byte. */
  function Next(iv: seq<byte>): (r: seq<byte>)
    ensures |r| == |iv|
  {
    if iv == [] then []
    else if iv[|iv| - 1] < 255 then iv[..|iv| - 1] + [iv[|iv| - 1] + 1]
    else Next(iv[..|iv| - 1]) + [0]
  }

  lemma {:induction false} NextValue(iv: seq<byte>)
    ensures FromBigEndian(Next(iv)) == (FromBigEndian(iv) + 1) % Base(|iv|)
  {
    FromBigEndianBound(iv);
    if iv == [] {
    } else {
      var n := |iv| - 1;
      var h := FromBigEndian(iv[..n]);
      if iv[n] < 255 {
        SnocValue(iv[..n], iv[n] + 1);
        FromBigEndianBound(Next(iv));
        DivModUnique(FromBigEndian(iv) + 1, Base(|iv|), 0, FromBigEndian(iv) + 1);
      } else {
        NextValue(iv[..n]);
        SnocValue(Next(iv[..n]), 0);
        TimesMod(h + 1, Base(n));
      }
    }
  }

  lemma TimesMod(x: nat, b: nat)
    requires b > 0
    ensures (256 * x) % (256 * b) == 256 * (x % b)
  {
    assert x == b * (x / b) + x % b;
    assert 256 * x == (x / b) * (256 * b) + 256 * (x % b);
    DivModUnique(256 * x, 256 * b, x / b, 256 * (x % b));
  }

  lemma NextCounter(m: nat)
    ensures Next(Counter(m)) == Counter(m + 1)
  {
    BaseIsWrap();
    var b := WRAP;
    var iv := Counter(m);
    BigEndianRoundTrip(m % b, 16);
    NextValue(iv);
    ModAdd(m, 1, b);
    BigEndianOnto(Next(iv));
  }

  lemma {:induction false} NextCarries(head: seq<byte>, x: byte, n: nat)
    requires x < 255
    ensures Next(head + [x] + Ones(n)) == head + [x + 1] + Zeros(n)
    decreases n
  {
    var iv := head + [x] + Ones(n);
    if n == 0 {
      assert iv == head + [x];
      assert iv[..|head|] == head;
    } else {
      assert iv[..|iv| - 1] == head + [x] + Ones(n - 1);
      NextCarries(head, x, n - 1);
      assert Zeros(n) == Zeros(n - 1) + [0];
    }
  }

  lemma {:induction false} NextWraps(n: nat)
    ensures Next(Ones(n)) == Zeros(n)
  {
    if n > 0 {
      assert Ones(n)[..n - 1] == Ones(n - 1);
      NextWraps(n - 1);
      assert Zeros(n) == Zeros(n - 1) + [0];
    }
  }

  /** The counter is `start` with its last bytes, from position `k + 1` on, turned over from 255 to 0. */
  ghost predicate TurnedOver(start: seq<byte>, k: int, now: seq<byte>)
    requires -1 <= k < |start|
  {
    var n := |start| - 1 - k;
    now == start[..k + 1] + Zeros(n) && start == start[..k + 1] + Ones(n)
  }

  lemma TurnStops(start: seq<byte>, k: nat, now: seq<byte>)
    requires k < |start| && TurnedOver(start, k, now) && start[k] < 255
    ensures |now| == |start| && now[k] == start[k] && now[k := start[k] + 1] == Next(start)
  {
    var head, x, n := start[..k], start[k], |start| - 1 - k;
    assert start[..k + 1] == head + [x];
    StopsHere(head, x, n, start, now);
  }

  lemma StopsHere(head: seq<byte>, x: byte, n: nat, start: seq<byte>, now: seq<byte>)
    requires x < 255 && start == head + [x] + Ones(n) && now == head + [x] + Zeros(n)
    ensures |now| == |start| && now[|head|] == x && now[|head| := x + 1] == Next(start)
  {
    NextCarries(head, x, n);
    UpdateMiddle(head, x, x + 1, Zeros(n));
  }

  lemma UpdateMiddle(head: seq<byte>, x: byte, y: byte, tail: seq<byte>)
    ensures (head + [x] + tail)[|head|] == x
    ensures (head + [x] + tail)[|head| := y] == head + [y] + tail
  {
  }

  lemma TurnGoesOn(start: seq<byte>, k: nat, now: seq<byte>)
    requires k < |start| && TurnedOver(start, k, now) && start[k] == 255
    ensures |now| == |start| && now[k] == 255 && TurnedOver(start, k - 1, now[k := 0])
  {
    var head, n := start[..k], |start| - 1 - k;
    assert start[..k + 1] == head + [255];
    assert [255] + Ones(n) == Ones(n + 1) && [0] + Zeros(n) == Zeros(n + 1);
    assert now[k := 0] == head + ([0] + Zeros(n));
    assert start == head + ([255] + Ones(n));
  }

  lemma TurnedAll(start: seq<byte>, now: seq<byte>)
    requires TurnedOver(start, -1, now)
    ensures now == Next(start)
  {
    var n := |start|;
    assert start[..0] + Ones(n) == Ones(n) && start[..0] + Zeros(n) == Zeros(n);
    NextWraps(n);
  }

  /** The loop that adds one to the counter, with its overflow branch. */
  method Increment(iv: array<byte>)
    requires iv.Length == 16
    modifies iv
    ensures iv[..] == Next(old(iv[..]))
  {
    ghost var start := iv[..];
    assert start == start[..16] + [];
    var k := 15;
    while k >= 0
      invariant -1 <= k <= 15 && TurnedOver(start, k, iv[..])
    {
      ghost var now := iv[..];
      if iv[k] < 255 {
        assert start[k] < 255 by {
          assert now[k] == start[k];
        }
        TurnStops(start, k, now);
        iv[k] := iv[k] + 1;
        assert iv[..] == now[k := start[k] + 1];
        return;
      }
      assert now[k] == start[k];
      TurnGoesOn(start, k, now);
      iv[k] := 0;
      assert iv[..] == now[k := 0];
      k := k - 1;
    }
    TurnedAll(start, iv[..]);
  }

  // ----- the mode

  predicate Follows(counter: Counters, m: nat) {
    Next(counter(m)) == counter(m + 1)
  }

  ghost predicate Counts(counter: Counters) {
    forall m :: Follows(counter, m)
  }

  /** The iv, the state and the key stream block in hand, at position `p`. */
  ghost predicate At(enc: BlockFunction, counter: Counters, p: nat, iv: seq<byte>, state: int, chunk: Block) {
    iv == counter(p / 16) && state == p % 16 && chunk == enc(counter(p / 16))
  }

  /** One byte: take it from the key stream, and move on to the next counter block at the end of this one. */
  method Advance(enc: BlockFunction, ghost counter: Counters, ghost p: nat, iv: array<byte>, state: array<byte>, chunk: Block)
    returns (key: byte, chunk': Block)
    requires iv.Length == 16 && state.Length == 1 && iv != state && Counts(counter)
    requires At(enc, counter, p, iv[..], state[0], chunk)
    modifies iv, state
    ensures key == Key(enc, counter)(p)
    ensures At(enc, counter, p + 1, iv[..], state[0], chunk')
  {
    key := chunk[state[0]];
    state[0] := state[0] + 1;
    if state[0] >= 16 {
      state[0] := 0;
    }
    chunk' := chunk;
    if state[0] == 0 {
      assert (p + 1) / 16 == p / 16 + 1;
      assert Follows(counter, p / 16);
      Increment(iv);
      chunk' := enc(iv[..]);
    } else {
      assert (p + 1) / 16 == p / 16;
    }
  }

  lemma MaskNext(key: nat -> byte, p: nat, data: seq<byte>, j: nat, out: seq<byte>)
    requires j < |data| && out == Mask(key, p, data[..j]) + data[j..]
    ensures out[j] == data[j]
    ensures out[j := XorByte(out[j], key(p + j))] == Mask(key, p, data[..j + 1]) + data[j + 1..]
  {
    assert data[..j + 1] == data[..j] + [data[j]];
    XorConcat(data[..j], [data[j]], KeyBytes(key, p, j), [key(p + j)]);
  }

  /** One byte of the output. */
  method MaskByte(enc: BlockFunction, ghost counter: Counters, ghost p: nat, data: seq<byte>, j: nat, out: seq<byte>,
                  iv: array<byte>, state: array<byte>, chunk: Block)
    returns (out': seq<byte>, chunk': Block, next: nat)
    requires iv.Length == 16 && state.Length == 1 && iv != state && j < |data| && Counts(counter)
    requires At(enc, counter, p + j, iv[..], state[0], chunk)
    requires out == Mask(Key(enc, counter), p, data[..j]) + data[j..]
    modifies iv, state
    ensures next == j + 1
    ensures At(enc, counter, p + next, iv[..], state[0], chunk')
    ensures out' == Mask(Key(enc, counter), p, data[..next]) + data[next..]
  {
    MaskNext(Key(enc, counter), p, data, j, out);
    var key;
    key, chunk' := Advance(enc, counter, p + j, iv, state, chunk);
    out' := out[j := XorByte(out[j], key)];
    next := j + 1;
  }

  /** The inner loop: up to sixteen bytes of the output. */
  method MaskBlock(enc: BlockFunction, ghost counter: Counters, ghost p: nat, data: seq<byte>, i: nat, out: seq<byte>,
                   iv: array<byte>, state: array<byte>, chunk: Block)
    returns (out': seq<byte>, chunk': Block, end: nat)
    requires iv.Length == 16 && state.Length == 1 && iv != state && i < |data| && Counts(counter)
    requires At(enc, counter, p + i, iv[..], state[0], chunk)
    requires out == Mask(Key(enc, counter), p, data[..i]) + data[i..]
    modifies iv, state
    ensures i < end <= |data|
    ensures At(enc, counter, p + end, iv[..], state[0], chunk')
    ensures out' == Mask(Key(enc, counter), p, data[..end]) + data[end..]
  {
    var last := Min(|data|, i + 16);
    out', chunk', end := out, chunk, i;
    while end < last
      invariant i <= end <= last
      invariant out' == Mask(Key(enc, counter), p, data[..end]) + data[end..]
      invariant At(enc, counter, p + end, iv[..], state[0], chunk')
    {
      out', chunk', end := MaskByte(enc, counter, p, data, end, out', iv, state, chunk');
    }
  }

  /** The outer loop over blocks of sixteen bytes. */
  method MaskAll(enc: BlockFunction, ghost counter: Counters, ghost p: nat, data: seq<byte>, iv: array<byte>, state: array<byte>)
    returns (out: seq<byte>)
    requires iv.Length == 16 && state.Length == 1 && iv != state && Counts(counter)
    requires iv[..] == counter(p / 16) && state[0] == p % 16
    modifies iv, state
    ensures out == Mask(Key(enc, counter), p, data)
    ensures iv[..] == counter((p + |data|) / 16) && state[0] == (p + |data|) % 16
  {
    out := data;
    var chunk: Block := enc(iv[..]);
    var i := 0;
    assert data[..0] == [] && [] + data[0..] == data;
    while i < |data|
      invariant 0 <= i <= |data|
      invariant At(enc, counter, p + i, iv[..], state[0], chunk)
      invariant out == Mask(Key(enc, counter), p, data[..i]) + data[i..]
    {
      out, chunk, i := MaskBlock(enc, counter, p, data, i, out, iv, state, chunk);
    }
    assert data[..i] == data && data[i..] == [];
  }

  lemma CounterOf(iv: seq<byte>, s: nat)
    requires |iv| == 16 && s < 16
    ensures iv == Counter(Position(iv, s) / 16) && s == Position(iv, s) % 16
  {
    var v := FromBigEndian(iv);
    assert (16 * v + s) / 16 == v;
    BaseIsWrap();
    FromBigEndianBound(iv);
    DivModUnique(v, WRAP, 0, v);
    BigEndianOnto(iv);
  }

  /** The position that an iv and a state show. */
  function Position(iv: seq<byte>, s: nat): (p: nat) {
    16 * FromBigEndian(iv) + s
  }

  lemma ShownByIv(p: nat)
    ensures Position(Counter(p / 16), p % 16) == Shown(p)
  {
    BaseIsWrap();
    BigEndianRoundTrip((p / 16) % WRAP, 16);
  }

  /** A second call, from the position the first one's iv and state show, continues the first. */
  lemma CallsCompose(enc: BlockFunction, p: nat, a: seq<byte>, b: seq<byte>)
    ensures Mode(enc, p, a) + Mode(enc, Shown(p + |a|), b) == Mode(enc, p, a + b)
  {
    CarriedState(enc, p + |a|, b);
    MaskCompose(Key(enc, Counter), p, Shown(p + |a|), a, b);
  }

  lemma MaskCompose(key: nat -> byte, p: nat, q: nat, a: seq<byte>, b: seq<byte>)
    requires Mask(key, q, b) == Mask(key, p + |a|, b)
    ensures Mask(key, p, a) + Mask(key, q, b) == Mask(key, p, a + b)
  {
    MaskConcat(key, p, a, b);
  }

  lemma CounterCounts()
    ensures Counts(Counter)
  {
    forall m
      ensures Follows(Counter, m)
    {
      NextCounter(m);
    }
  }

  /** `ctr(data, key, iv, state)`: the mode from where the iv and the state are, and both moved on. */
  method Ctr(enc: BlockFunction, data: seq<byte>, iv: array<byte>, state: array<byte>) returns (out: seq<byte>)
    requires iv.Length == 16 && state.Length == 1 && iv != state && state[0] < 16
    modifies iv, state
    ensures out == Mode(enc, Position(old(iv[..]), old(state[0])), data)
    ensures iv[..] == Counter((Position(old(iv[..]), old(state[0])) + |data|) / 16)
    ensures state[0] == (Position(old(iv[..]), old(state[0])) + |data|) % 16
  {
    ghost var p := Position(iv[..], state[0]);
    assert iv[..] == Counter(p / 16) && state[0] == p % 16 by {
      CounterOf(iv[..], state[0]);
    }
    CounterCounts();
    out := MaskAll(enc, Counter, p, data, iv, state);
  }

  /** Two calls that share the iv and the state encrypt as one call on both pieces would. */
  method TwoCalls(enc: BlockFunction, a: seq<byte>, b: seq<byte>, iv: array<byte>, state: array<byte>)
    returns (x: seq<byte>, y: seq<byte>)
    requires iv.Length == 16 && state.Length == 1 && iv != state && state[0] < 16
    modifies iv, state
    ensures x + y == Mode(enc, Position(old(iv[..]), old(state[0])), a + b)
  {
    ghost var p := Position(iv[..], state[0]);
    x := Ctr(enc, a, iv, state);
    SecondCall(enc, p, a, b, iv[..], state[0]);
    y := Ctr(enc, b, iv, state);
  }

  /** The second call goes on where the iv and the state that the first one leaves are. */
  lemma SecondCall(enc: BlockFunction, p: nat, a: seq<byte>, b: seq<byte>, iv: seq<byte>, s: nat)
    requires iv == Counter((p + |a|) / 16) && s == (p + |a|) % 16
    ensures Mode(enc, p, a) + Mode(enc, Position(iv, s), b) == Mode(enc, p, a + b)
  {
    ShownByIv(p + |a|);
    CallsCompose(enc, p, a, b);
  }

  /** A second call from the same iv and state as the first restores the data. */
  method ThereAndBack(enc: BlockFunction, data: seq<byte>, iv: array<byte>, state: array<byte>, iv': array<byte>, state': array<byte>)
    returns (back: seq<byte>)
    requires iv.Length == iv'.Length == 16 && state.Length == state'.Length == 1 && iv != state && iv' != state'
    requires {iv, state} !! {iv', state'} && iv[..] == iv'[..] && state[0] == state'[0] < 16
    modifies iv, state, iv', state'
    ensures back == data
  {
    Twice(enc, Position(iv[..], state[0]), data);
    var out := Ctr(enc, data, iv, state);
    back := Ctr(enc, out, iv', state');
  }
}
