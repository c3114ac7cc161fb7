/**
 The writer of the fake TLS greeting: a list of operations with length-prefixed scopes, rendered
 into a byte buffer whose length fields are patched when a scope closes.
 */
module HelloWriter {
  import opened Bytes

  /** `Drawn` stands for the operations whose bytes are random (RANDOM, KEY, ML_KEM_768_KEY) and holds
      what was drawn; a permutation holds the numbers its shuffle draws. */
  datatype Op =
    | Text(data: seq<byte>)
    | Drawn(data: seq<byte>)
    | Zero(length: nat)
    | Domain
    | Grease(seed: nat)
    | BeginScope
    | EndScope
    | Permutation(parts: seq<Part>, draws: seq<nat>)
    | Padding

  datatype Part = Part(ops: seq<Op>)

  datatype Context = Context(grease: seq<byte>, domain: seq<byte>)

  datatype State = State(out: seq<byte>, scopes: seq<nat>)

  const SCOPE_LENGTH_SIZE := 2
  const PADDING_TARGET_OFFSET := 513

  // ----- shuffling

  /** `secrets.randbelow(bound)`, for the `i`-th number drawn. */
  function Draw(draws: seq<nat>, i: nat, bound: nat): (d: nat)
    requires bound > 0
    ensures d < bound
  {
    if i < |draws| && draws[i] < bound then draws[i] else 0
  }

  function Swap<T>(s: seq<T>, i: nat, j: nat): (r: seq<T>)
    requires i < |s| && j < |s|
    ensures |r| == |s|
  {
    s[i := s[j]][j := s[i]]
  }

  /** The list after the swaps from position `i` on. */
  function ShuffleFrom<T>(s: seq<T>, draws: seq<nat>, i: nat): (r: seq<T>)
    ensures |r| == |s|
    decreases |s| - i
  {
    if i + 1 >= |s| then s
    else ShuffleFrom(Swap(s, i, i + Draw(draws, i, |s| - i)), draws, i + 1)
  }

  lemma SwapKeeps<T>(s: seq<T>, i: nat, j: nat)
    requires i < |s| && j < |s|
    ensures multiset(Swap(s, i, j)) == multiset(s)
  {
  }

  /** Shuffling keeps the multiset of the parts, whatever is drawn. */
  lemma {:induction false} ShuffleKeeps<T>(s: seq<T>, draws: seq<nat>, i: nat)
    ensures multiset(ShuffleFrom(s, draws, i)) == multiset(s)
    decreases |s| - i
  {
    if i + 1 < |s| {
      var d := Draw(draws, i, |s| - i);
      SwapKeeps(s, i, i + d);
      ShuffleKeeps(Swap(s, i, i + d), draws, i + 1);
    }
  }

  method Shuffled<T>(parts: seq<T>, draws: seq<nat>) returns (shuffled: seq<T>)
    ensures shuffled == ShuffleFrom(parts, draws, 0)
    ensures multiset(shuffled) == multiset(parts)
  {
    shuffled := parts;
    var index := 0;
    while index < |shuffled| - 1
      invariant |shuffled| == |parts|
      invariant ShuffleFrom(shuffled, draws, index) == ShuffleFrom(parts, draws, 0)
    {
      var target := index + Draw(draws, index, |shuffled| - index);
      shuffled := shuffled[index := shuffled[target]][target := shuffled[index]];
      index := index + 1;
    }
    ShuffleKeeps(parts, draws, 0);
  }

  /** `q` is in place up to position `i`, and has the rest of `s` after it. */
  ghost predicate PlacedTo<T>(s: seq<T>, q: seq<T>, i: nat) {
    i <= |s| == |q| && s[..i] == q[..i] && multiset(s[i..]) == multiset(q[i..])
  }

  /** Every order of the parts is the outcome of some draws. */
  lemma {:induction false} EveryOrderIsDrawn<T>(s: seq<T>, q: seq<T>, i: nat) returns (draws: seq<nat>)
    requires PlacedTo(s, q, i)
    ensures |draws| == |s|
    ensures ShuffleFrom(s, draws, i) == q
    decreases |s| - i
  {
    if i + 1 >= |s| {
      draws := seq(|s|, k => 0);
      LastInPlace(s, q, i);
    } else {
      var t := Find(s[i..], q[i..]);
      SwapSuffix(s, q, i, t);
      var rest := EveryOrderIsDrawn(Swap(s, i, i + t), q, i + 1);
      draws := rest[i := t];
      SwapsFrom(s, draws, i, t);
      DrawsBefore(Swap(s, i, i + t), rest, draws, i + 1);
    }
  }

  lemma SwapsFrom<T>(s: seq<T>, draws: seq<nat>, i: nat, t: nat)
    requires i + 1 < |s| == |draws| && draws[i] == t < |s| - i
    ensures ShuffleFrom(s, draws, i) == ShuffleFrom(Swap(s, i, i + t), draws, i + 1)
  {
    assert Draw(draws, i, |s| - i) == t;
  }

  lemma Find<T>(s: seq<T>, q: seq<T>) returns (t: nat)
    requires multiset(s) == multiset(q) && q != []
    ensures t < |s| && s[t] == q[0]
  {
    assert q[0] in multiset(s);
    t :| t < |s| && s[t] == q[0];
  }

  lemma LastInPlace<T>(s: seq<T>, q: seq<T>, i: nat)
    requires PlacedTo(s, q, i) && |s| <= i + 1
    ensures s == q
  {
    if i < |s| {
      assert s[i..] == [s[i]] && q[i..] == [q[i]];
      assert s[i] in multiset(q[i..]);
    }
    assert s == s[..i] + s[i..] && q == q[..i] + q[i..];
  }

  lemma TailMultiset<T>(s: seq<T>)
    requires s != []
    ensures multiset(s[1..]) == multiset(s) - multiset{s[0]}
  {
    assert s == [s[0]] + s[1..];
  }

  lemma SameTails<T>(s: seq<T>, q: seq<T>)
    requires s != [] && q != [] && s[0] == q[0] && multiset(s) == multiset(q)
    ensures multiset(s[1..]) == multiset(q[1..])
  {
    TailMultiset(s);
    TailMultiset(q);
  }

  lemma SwapParts<T>(s: seq<T>, i: nat, t: nat)
    requires i < |s| && t < |s| - i
    ensures Swap(s, i, i + t)[..i + 1] == s[..i] + [s[i + t]]
    ensures Swap(s, i, i + t)[i..] == Swap(s[i..], 0, t)
  {
  }

  lemma SwapSuffix<T>(s: seq<T>, q: seq<T>, i: nat, t: nat)
    requires PlacedTo(s, q, i) && t < |s| - i && s[i + t] == q[i]
    ensures PlacedTo(Swap(s, i, i + t), q, i + 1)
  {
    var next := Swap(s, i, i + t);
    SwapParts(s, i, t);
    SwapKeeps(s[i..], 0, t);
    assert q[..i + 1] == q[..i] + [q[i]];
    SameTails(next[i..], q[i..]);
    assert next[i..][1..] == next[i + 1..] && q[i..][1..] == q[i + 1..];
  }

  /** The swaps from `i` on do not look at earlier draws. */
  lemma {:induction false} DrawsBefore<T>(s: seq<T>, a: seq<nat>, b: seq<nat>, i: nat)
    requires |a| == |b| && forall k :: i <= k < |a| ==> a[k] == b[k]
    ensures ShuffleFrom(s, a, i) == ShuffleFrom(s, b, i)
    decreases |s| - i
  {
    if i + 1 < |s| {
      var d := Draw(a, i, |s| - i);
      assert d == Draw(b, i, |s| - i);
      DrawsBefore(Swap(s, i, i + d), a, b, i + 1);
    }
  }

  // ----- the writer as a function of its state

  function Concat(parts: seq<seq<byte>>): (b: seq<byte>) {
    if parts == [] then [] else parts[0] + Concat(parts[1..])
  }

  /** The scope length as two big-endian bytes; `to_bytes` raises if it does not fit. */
  function Closed(s: State): (r: Option<State>) {
    if s.scopes == [] then None
    else
      var begin := s.scopes[|s.scopes| - 1];
      var size := |s.out| - begin - SCOPE_LENGTH_SIZE;
      if 0 <= size < 0x10000 then
        Some(State(s.out[..begin] + BigEndian(size, 2) + s.out[begin + SCOPE_LENGTH_SIZE..], s.scopes[..|s.scopes| - 1]))
      else
        None
  }

  function Opened(s: State): (r: State) {
    State(s.out + Zeros(SCOPE_LENGTH_SIZE), s.scopes + [|s.out|])
  }

  function Padded(s: State): (r: Option<State>) {
    var size := PADDING_TARGET_OFFSET - |s.out|;
    if size <= 0 then Some(s)
    else
      var begun := Opened(s.(out := s.out + [0x00, 0x15]));
      Closed(begun.(out := begun.out + Zeros(size)))
  }

  function Step(c: Context, op: Op, s: State): (r: Option<State>)
    decreases op
  {
    match op
    case Text(data) => Some(s.(out := s.out + data))
    case Drawn(data) => Some(s.(out := s.out + data))
    case Zero(n) => Some(s.(out := s.out + Zeros(n)))
    case Domain => Some(s.(out := s.out + c.domain))
    case Grease(k) => if k < |c.grease| then Some(s.(out := s.out + [c.grease[k], c.grease[k]])) else None
    case BeginScope => Some(Opened(s))
    case EndScope => Closed(s)
    case Padding => Padded(s)
    case Permutation(parts, draws) =>
      var blocks :- Blocks(c, parts);
      Some(s.(out := s.out + Concat(ShuffleFrom(blocks, draws, 0))))
  }

  function Rendered(c: Context, ops: seq<Op>, s: State): (r: Option<State>)
    decreases ops
  {
    if ops == [] then Some(s)
    else
      var next :- Step(c, ops[0], s);
      Rendered(c, ops[1..], next)
  }

  /** Each part rendered by a writer of its own. */
  function Blocks(c: Context, parts: seq<Part>): (r: Option<seq<seq<byte>>>)
    decreases parts
  {
    if parts == [] then Some([])
    else
      var first :- Rendered(c, parts[0].ops, State([], []));
      var rest :- Blocks(c, parts[1..]);
      Some([first.out] + rest)
  }

  function After(done: seq<seq<byte>>, rest: Option<seq<seq<byte>>>): (r: Option<seq<seq<byte>>>) {
    if rest.Some? then Some(done + rest.value) else None
  }

  lemma AfterNothing(rest: Option<seq<seq<byte>>>)
    ensures After([], rest) == rest
  {
    if rest.Some? {
      assert [] + rest.value == rest.value;
    }
  }

  lemma BlocksStep(c: Context, parts: seq<Part>, i: nat, done: seq<seq<byte>>)
    requires i < |parts|
    ensures After(done, Blocks(c, parts[i..]))
         == var first := Rendered(c, parts[i].ops, State([], []));
            if first.Some? then After(done + [first.value.out], Blocks(c, parts[i + 1..])) else None
  {
    assert parts[i..][1..] == parts[i + 1..];
    var first, rest := Rendered(c, parts[i].ops, State([], [])), Blocks(c, parts[i + 1..]);
    if first.Some? && rest.Some? {
      assert done + ([first.value.out] + rest.value) == (done + [first.value.out]) + rest.value;
    }
  }

  // ----- the writer as an object

  class Writer {
    const context: Context
    var out: seq<byte>
    var scopes: seq<nat>

    constructor (context: Context)
      ensures this.context == context && Now() == State([], [])
    {
      this.context := context;
      out, scopes := [], [];
    }

    function Now(): (s: State)
      reads this
    {
      State(out, scopes)
    }

    method Render(ops: seq<Op>) returns (ok: bool)
      modifies this
      ensures ok <==> Rendered(context, ops, old(Now())).Some?
      ensures ok ==> Rendered(context, ops, old(Now())) == Some(Now())
      decreases ops, 1
    {
      for i := 0 to |ops|
        invariant Rendered(context, ops, old(Now())) == Rendered(context, ops[i..], Now())
      {
        assert ops[i..][1..] == ops[i + 1..];
        ok := Write(ops[i]);
        if !ok {
          return;
        }
      }
      ok := true;
    }

    method Write(op: Op) returns (ok: bool)
      modifies this
      ensures ok <==> Step(context, op, old(Now())).Some?
      ensures ok ==> Step(context, op, old(Now())) == Some(Now())
      decreases op, 1
    {
      ok := true;
      match op {
        case Text(data) => out := out + data;
        case Drawn(data) => out := out + data;
        case Zero(n) => out := out + Zeros(n);
        case Domain => out := out + context.domain;
        case Grease(k) =>
          ok := k < |context.grease|;
          if ok {
            out := out + [context.grease[k], context.grease[k]];
          }
        case BeginScope =>
          scopes := scopes + [|out|];
          out := out + Zeros(SCOPE_LENGTH_SIZE);
        case EndScope => ok := CloseScope();
        case Permutation(parts, draws) => ok := WritePermutation(parts, draws);
        case Padding => ok := WritePadding();
      }
    }

    method CloseScope() returns (ok: bool)
      modifies this
      ensures ok <==> Closed(old(Now())).Some?
      ensures ok ==> Closed(old(Now())) == Some(Now())
    {
      if scopes == [] {
        return false;
      }
      var begin := scopes[|scopes| - 1];
      scopes := scopes[..|scopes| - 1];
      var size := |out| - begin - SCOPE_LENGTH_SIZE;
      if size < 0 || size >= 0x10000 {
        return false;
      }
      out := out[..begin] + BigEndian(size, 2) + out[begin + SCOPE_LENGTH_SIZE..];
      ok := true;
    }

    method WritePermutation(parts: seq<Part>, draws: seq<nat>) returns (ok: bool)
      modifies this
      ensures ok <==> Blocks(context, parts).Some?
      ensures ok ==> Now() == old(Now()).(out := old(out) + Concat(ShuffleFrom(Blocks(context, parts).value, draws, 0)))
      decreases parts, 1
    {
      var rendered;
      ok, rendered := RenderParts(parts);
      if !ok {
        return;
      }
      var shuffled := Shuffled(rendered, draws);
      AppendAll(shuffled);
      ok := true;
    }

    method RenderParts(parts: seq<Part>) returns (ok: bool, rendered: seq<seq<byte>>)
      ensures ok <==> Blocks(context, parts).Some?
      ensures ok ==> Blocks(context, parts) == Some(rendered)
      decreases parts, 0
    {
      rendered := [];
      assert parts[0..] == parts;
      AfterNothing(Blocks(context, parts));
      for i := 0 to |parts|
        invariant Blocks(context, parts) == After(rendered, Blocks(context, parts[i..]))
      {
        var writer := new Writer(context);
        ok := writer.Render(parts[i].ops);
        BlocksStep(context, parts, i, rendered);
        if !ok {
          return;
        }
        rendered := rendered + [writer.out];
      }
      assert rendered + [] == rendered;
      ok := true;
    }

    method AppendAll(parts: seq<seq<byte>>)
      modifies this
      ensures Now() == old(Now()).(out := old(out) + Concat(parts))
    {
      for i := 0 to |parts|
        invariant scopes == old(scopes)
        invariant old(out) + Concat(parts) == out + Concat(parts[i..])
      {
        assert parts[i..][1..] == parts[i + 1..];
        out := out + parts[i];
      }
    }

    method WritePadding() returns (ok: bool)
      modifies this
      ensures ok <==> Padded(old(Now())).Some?
      ensures ok ==> Padded(old(Now())) == Some(Now())
    {
      var size := PADDING_TARGET_OFFSET - |out|;
      if size <= 0 {
        return true;
      }
      out := out + [0x00, 0x15];
      scopes := scopes + [|out|];
      out := out + Zeros(SCOPE_LENGTH_SIZE);
      out := out + Zeros(size);
      ok := CloseScope();
    }
  }
}
