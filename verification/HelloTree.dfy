/**
 The greeting as a tree of length-prefixed scopes, and the proof that the patching writer renders
 exactly the tree's encoding. Vectors with a length prefix: section 3.4 of RFC 8446.
 */
module HelloTree {
  import opened Bytes
  import opened HelloWriter

  datatype Node =
    | Leaf(op: Op)
    | Scope(body: seq<Node>)
    | Shuffle(branches: seq<Branch>, draws: seq<nat>)

  datatype Branch = Branch(body: seq<Node>)

  predicate Plain(op: Op) {
    !op.BeginScope? && !op.EndScope? && !op.Permutation?
  }

  predicate Proper(f: seq<Node>)
    decreases f
  {
    f == [] || (ProperNode(f[0]) && Proper(f[1..]))
  }

  predicate ProperNode(n: Node)
    decreases n
  {
    match n
    case Leaf(op) => Plain(op)
    case Scope(body) => Proper(body)
    case Shuffle(branches, _) => ProperBranches(branches)
  }

  predicate ProperBranches(bs: seq<Branch>)
    decreases bs
  {
    bs == [] || (Proper(bs[0].body) && ProperBranches(bs[1..]))
  }

  // ----- the operations of a tree

  function Flat(f: seq<Node>): (ops: seq<Op>)
    decreases f
  {
    if f == [] then [] else FlatNode(f[0]) + Flat(f[1..])
  }

  function FlatNode(n: Node): (ops: seq<Op>)
    decreases n
  {
    match n
    case Leaf(op) => [op]
    case Scope(body) => [BeginScope] + Flat(body) + [EndScope]
    case Shuffle(branches, draws) => [Permutation(FlatBranches(branches), draws)]
  }

  function FlatBranches(bs: seq<Branch>): (parts: seq<Part>)
    decreases bs
  {
    if bs == [] then [] else [Part(Flat(bs[0].body))] + FlatBranches(bs[1..])
  }

  // ----- the encoding of a tree

  /** What one plain operation adds at the given offset. */
  function LeafBytes(c: Context, op: Op, offset: nat): (b: Option<seq<byte>>) {
    match op
    case Text(data) => Some(data)
    case Drawn(data) => Some(data)
    case Zero(n) => Some(Zeros(n))
    case Domain => Some(c.domain)
    case Grease(k) => if k < |c.grease| then Some([c.grease[k], c.grease[k]]) else None
    case Padding =>
      if offset >= PADDING_TARGET_OFFSET then Some([])
      else
        var size := PADDING_TARGET_OFFSET - offset;
        Some([0x00, 0x15] + BigEndian(size, 2) + Zeros(size))
    case _ => None
  }

  /** The content after its own length in two big-endian bytes; a longer content has no encoding. */
  function Prefixed(b: seq<byte>): (r: Option<seq<byte>>) {
    if |b| < 0x10000 then Some(BigEndian(|b|, 2) + b) else None
  }

  function Encoding(c: Context, f: seq<Node>, offset: nat): (b: Option<seq<byte>>)
    decreases f
  {
    if f == [] then Some([])
    else
      var first :- NodeEncoding(c, f[0], offset);
      var rest :- Encoding(c, f[1..], offset + |first|);
      Some(first + rest)
  }

  function NodeEncoding(c: Context, n: Node, offset: nat): (b: Option<seq<byte>>)
    decreases n
  {
    match n
    case Leaf(op) => LeafBytes(c, op, offset)
    case Scope(body) =>
      var content :- Encoding(c, body, offset + 2);
      Prefixed(content)
    case Shuffle(branches, draws) =>
      var blocks :- BranchEncodings(c, branches);
      Some(Concat(ShuffleFrom(blocks, draws, 0)))
  }

  function BranchEncodings(c: Context, bs: seq<Branch>): (r: Option<seq<seq<byte>>>)
    decreases bs
  {
    if bs == [] then Some([])
    else
      var first :- Encoding(c, bs[0].body, 0);
      var rest :- BranchEncodings(c, bs[1..]);
      Some([first] + rest)
  }

  // ----- the writer renders the encoding

  /** The state after bytes were added at the end, or no state. */
  function Extended(s: State, b: Option<seq<byte>>): (r: Option<State>) {
    if b.Some? then Some(s.(out := s.out + b.value)) else None
  }

  function Then(c: Context, s: Option<State>, ops: seq<Op>): (r: Option<State>) {
    if s.Some? then Rendered(c, ops, s.value) else None
  }

  lemma {:induction false} RenderedConcat(c: Context, a: seq<Op>, b: seq<Op>, s: State)
    ensures Rendered(c, a + b, s) == Then(c, Rendered(c, a, s), b)
    decreases a
  {
    if a == [] {
      assert a + b == b;
    } else {
      assert (a + b)[1..] == a[1..] + b;
      var next := Step(c, a[0], s);
      if next.Some? {
        RenderedConcat(c, a[1..], b, next.value);
      }
    }
  }

  lemma RenderedOne(c: Context, op: Op, s: State)
    ensures Rendered(c, [op], s) == Step(c, op, s)
  {
    var next := Step(c, op, s);
    assert [op][1..] == [];
  }

  /** Closing a scope patches its two bytes, and nothing else. */
  lemma CloseOfOpen(s: State, content: seq<byte>)
    ensures Closed(Opened(s).(out := Opened(s).out + content)) == Extended(s, Prefixed(content))
  {
    var begin := |s.out|;
    var t := Opened(s).(out := Opened(s).out + content);
    assert t.scopes[..|t.scopes| - 1] == s.scopes;
    assert t.out[..begin] == s.out && t.out[begin + 2..] == content;
    if |content| < 0x10000 {
      var size := BigEndian(|content|, 2);
      assert s.out + size + content == s.out + (size + content);
    }
  }

  lemma LeafSteps(c: Context, op: Op, s: State)
    requires Plain(op)
    ensures Step(c, op, s) == Extended(s, LeafBytes(c, op, |s.out|))
  {
    if op.Padding? {
      PaddingSteps(s, c);
    }
  }

  lemma PaddingSteps(s: State, c: Context)
    ensures Padded(s) == Extended(s, LeafBytes(c, Padding, |s.out|))
  {
    var size := PADDING_TARGET_OFFSET - |s.out|;
    if size <= 0 {
      assert s.out + [] == s.out;
    } else {
      var tag: seq<byte> := [0x00, 0x15];
      CloseOfOpen(s.(out := s.out + tag), Zeros(size));
      var rest := BigEndian(size, 2) + Zeros(size);
      assert s.out + tag + rest == s.out + (tag + BigEndian(size, 2) + Zeros(size));
    }
  }

  /** Rendering the operations of a tree adds the tree's encoding and leaves the scope stack as it was;
      it raises exactly when the tree has no encoding. */
  lemma {:induction false} RenderIsEncoding(c: Context, f: seq<Node>, s: State)
    requires Proper(f)
    ensures Rendered(c, Flat(f), s) == Extended(s, Encoding(c, f, |s.out|))
    decreases f
  {
    if f == [] {
      assert s.out + [] == s.out;
    } else {
      NodeIsEncoding(c, f[0], s);
      RenderedConcat(c, FlatNode(f[0]), Flat(f[1..]), s);
      var first := NodeEncoding(c, f[0], |s.out|);
      if first.Some? {
        var next := s.(out := s.out + first.value);
        RenderIsEncoding(c, f[1..], next);
        ExtendedTwice(s, first.value, Encoding(c, f[1..], |next.out|));
      }
    }
  }

  lemma ExtendedTwice(s: State, a: seq<byte>, b: Option<seq<byte>>)
    ensures Extended(s.(out := s.out + a), b) == Extended(s, if b.Some? then Some(a + b.value) else None)
  {
    if b.Some? {
      assert s.out + a + b.value == s.out + (a + b.value);
    }
  }

  lemma {:induction false} NodeIsEncoding(c: Context, n: Node, s: State)
    requires ProperNode(n)
    ensures Rendered(c, FlatNode(n), s) == Extended(s, NodeEncoding(c, n, |s.out|))
    decreases n
  {
    match n
    case Leaf(op) =>
      RenderedOne(c, op, s);
      LeafSteps(c, op, s);
    case Scope(body) =>
      RenderIsEncoding(c, body, Opened(s));
      ScopeIsPrefixed(c, Flat(body), s, Encoding(c, body, |s.out| + 2));
    case Shuffle(branches, draws) =>
      RenderedOne(c, Permutation(FlatBranches(branches), draws), s);
      BranchesAreEncodings(c, branches);
  }

  lemma ScopeIsPrefixed(c: Context, ops: seq<Op>, s: State, content: Option<seq<byte>>)
    requires Rendered(c, ops, Opened(s)) == Extended(Opened(s), content)
    ensures Rendered(c, [BeginScope] + ops + [EndScope], s)
         == Extended(s, if content.Some? then Prefixed(content.value) else None)
  {
    RenderedConcat(c, [BeginScope] + ops, [EndScope], s);
    RenderedConcat(c, [BeginScope], ops, s);
    RenderedOne(c, BeginScope, s);
    if content.Some? {
      RenderedOne(c, EndScope, Opened(s).(out := Opened(s).out + content.value));
      CloseOfOpen(s, content.value);
    }
  }

  lemma {:induction false} BranchesAreEncodings(c: Context, bs: seq<Branch>)
    requires ProperBranches(bs)
    ensures Blocks(c, FlatBranches(bs)) == BranchEncodings(c, bs)
    decreases bs
  {
    if bs != [] {
      RenderIsEncoding(c, bs[0].body, State([], []));
      BranchesAreEncodings(c, bs[1..]);
      assert FlatBranches(bs)[1..] == FlatBranches(bs[1..]);
      var first := Encoding(c, bs[0].body, 0);
      if first.Some? {
        assert [] + first.value == first.value;
      }
    }
  }

  // ----- which operation lists are trees

  /** The scopes close in order: `depth` of them are open before, none after; parts balance on their own. */
  predicate Balances(ops: seq<Op>, depth: nat)
    decreases ops
  {
    if ops == [] then depth == 0
    else if ops[0].BeginScope? then Balances(ops[1..], depth + 1)
    else if ops[0].EndScope? then depth > 0 && Balances(ops[1..], depth - 1)
    else BalancesInside(ops[0]) && Balances(ops[1..], depth)
  }

  predicate BalancesInside(op: Op)
    decreases op
  {
    op.Permutation? ==> PartsBalance(op.parts)
  }

  predicate PartsBalance(parts: seq<Part>)
    decreases parts
  {
    parts == [] || (Balances(parts[0].ops, 0) && PartsBalance(parts[1..]))
  }

  /** One forest for each scope still open and one for the outside, the innermost first. */
  function Layers(ops: seq<Op>, depth: nat): (fs: seq<seq<Node>>)
    requires Balances(ops, depth)
    ensures |fs| == depth + 1
    decreases ops
  {
    if ops == [] then [[]]
    else if ops[0].BeginScope? then
      var fs := Layers(ops[1..], depth + 1);
      [[Scope(fs[0])] + fs[1]] + fs[2..]
    else if ops[0].EndScope? then
      [[]] + Layers(ops[1..], depth - 1)
    else
      var fs := Layers(ops[1..], depth);
      [[NodeOf(ops[0])] + fs[0]] + fs[1..]
  }

  function NodeOf(op: Op): (n: Node)
    requires BalancesInside(op)
    decreases op
  {
    if op.Permutation? then Shuffle(BranchesOf(op.parts), op.draws) else Leaf(op)
  }

  function BranchesOf(parts: seq<Part>): (bs: seq<Branch>)
    requires PartsBalance(parts)
    decreases parts
  {
    if parts == [] then [] else [Branch(Layers(parts[0].ops, 0)[0])] + BranchesOf(parts[1..])
  }

  function FlatLayers(fs: seq<seq<Node>>): (ops: seq<Op>)
    requires fs != []
  {
    if |fs| == 1 then Flat(fs[0]) else Flat(fs[0]) + ([EndScope] + FlatLayers(fs[1..]))
  }

  predicate ProperLayers(fs: seq<seq<Node>>) {
    forall i :: 0 <= i < |fs| ==> Proper(fs[i])
  }

  /** A balanced list of operations is the list of a tree. */
  lemma {:induction false} LayersFlatten(ops: seq<Op>, depth: nat)
    requires Balances(ops, depth)
    ensures FlatLayers(Layers(ops, depth)) == ops && ProperLayers(Layers(ops, depth))
    decreases ops
  {
    if ops != [] {
      if ops[0].BeginScope? {
        LayersFlatten(ops[1..], depth + 1);
        BeginFlattens(ops, depth);
      } else if ops[0].EndScope? {
        LayersFlatten(ops[1..], depth - 1);
        EndFlattens(ops, depth);
      } else {
        LayersFlatten(ops[1..], depth);
        NodeFlattens(ops[0]);
        PlainFlattens(ops, depth);
      }
    }
  }

  lemma BeginFlattens(ops: seq<Op>, depth: nat)
    requires ops != [] && ops[0].BeginScope? && Balances(ops, depth) && Balances(ops[1..], depth + 1)
    requires FlatLayers(Layers(ops[1..], depth + 1)) == ops[1..] && ProperLayers(Layers(ops[1..], depth + 1))
    ensures FlatLayers(Layers(ops, depth)) == ops && ProperLayers(Layers(ops, depth))
  {
    FlatScope(Layers(ops[1..], depth + 1));
    assert [ops[0]] + ops[1..] == ops;
  }

  lemma EndFlattens(ops: seq<Op>, depth: nat)
    requires ops != [] && ops[0].EndScope? && depth > 0 && Balances(ops, depth) && Balances(ops[1..], depth - 1)
    requires FlatLayers(Layers(ops[1..], depth - 1)) == ops[1..] && ProperLayers(Layers(ops[1..], depth - 1))
    ensures FlatLayers(Layers(ops, depth)) == ops && ProperLayers(Layers(ops, depth))
  {
    FlatEnd(Layers(ops[1..], depth - 1));
    assert [ops[0]] + ops[1..] == ops;
  }

  lemma PlainFlattens(ops: seq<Op>, depth: nat)
    requires ops != [] && !ops[0].BeginScope? && !ops[0].EndScope? && Balances(ops, depth)
    requires BalancesInside(ops[0]) && Balances(ops[1..], depth)
    requires FlatLayers(Layers(ops[1..], depth)) == ops[1..] && ProperLayers(Layers(ops[1..], depth))
    requires FlatNode(NodeOf(ops[0])) == [ops[0]] && ProperNode(NodeOf(ops[0]))
    ensures FlatLayers(Layers(ops, depth)) == ops && ProperLayers(Layers(ops, depth))
  {
    FlatHead(NodeOf(ops[0]), Layers(ops[1..], depth));
    assert [ops[0]] + ops[1..] == ops;
  }

  lemma FlatCons(n: Node, f: seq<Node>)
    ensures Flat([n] + f) == FlatNode(n) + Flat(f)
    ensures Proper([n] + f) <==> ProperNode(n) && Proper(f)
  {
    assert ([n] + f)[1..] == f;
  }

  lemma FlatHead(n: Node, fs: seq<seq<Node>>)
    requires fs != [] && ProperLayers(fs) && ProperNode(n)
    ensures FlatLayers([[n] + fs[0]] + fs[1..]) == FlatNode(n) + FlatLayers(fs)
    ensures ProperLayers([[n] + fs[0]] + fs[1..])
  {
    FlatCons(n, fs[0]);
    var r := [[n] + fs[0]] + fs[1..];
    assert r[1..] == fs[1..];
    if |fs| > 1 {
      Regroup(FlatNode(n), Flat(fs[0]), [], [EndScope] + FlatLayers(fs[1..]));
    }
  }

  lemma FlatEnd(fs: seq<seq<Node>>)
    requires fs != [] && ProperLayers(fs)
    ensures FlatLayers([[]] + fs) == [EndScope] + FlatLayers(fs) && ProperLayers([[]] + fs)
  {
    var r := [[]] + fs;
    assert r[1..] == fs;
    assert Flat(r[0]) + ([EndScope] + FlatLayers(fs)) == [EndScope] + FlatLayers(fs);
  }

  lemma Regroup(a: seq<Op>, b: seq<Op>, c: seq<Op>, d: seq<Op>)
    ensures (a + b + c) + d == a + (b + (c + d))
    ensures (a + b) + d == a + (b + d)
  {
  }

  lemma FlatScope(fs: seq<seq<Node>>)
    requires |fs| >= 2 && ProperLayers(fs)
    ensures FlatLayers([[Scope(fs[0])] + fs[1]] + fs[2..]) == [BeginScope] + FlatLayers(fs)
    ensures ProperLayers([[Scope(fs[0])] + fs[1]] + fs[2..])
  {
    var outer := fs[1..];
    FlatHead(Scope(fs[0]), outer);
    assert outer[1..] == fs[2..];
    assert FlatLayers(fs) == Flat(fs[0]) + ([EndScope] + FlatLayers(outer));
    Regroup([BeginScope], Flat(fs[0]), [EndScope], FlatLayers(outer));
  }

  lemma {:induction false} NodeFlattens(op: Op)
    requires BalancesInside(op) && !op.BeginScope? && !op.EndScope?
    ensures FlatNode(NodeOf(op)) == [op] && ProperNode(NodeOf(op))
    decreases op
  {
    if op.Permutation? {
      BranchesFlatten(op.parts);
    }
  }

  lemma {:induction false} BranchesFlatten(parts: seq<Part>)
    requires PartsBalance(parts)
    ensures FlatBranches(BranchesOf(parts)) == parts && ProperBranches(BranchesOf(parts))
    decreases parts
  {
    if parts != [] {
      LayersFlatten(parts[0].ops, 0);
      BranchesFlatten(parts[1..]);
      assert BranchesOf(parts)[1..] == BranchesOf(parts[1..]);
      assert [parts[0]] + parts[1..] == parts;
    }
  }

  /** The tree of a balanced list of operations. */
  function Tree(ops: seq<Op>): (f: seq<Node>)
    requires Balances(ops, 0)
  {
    Layers(ops, 0)[0]
  }

  /** Rendering a balanced list gives exactly the encoding of its tree, with no scope left open. */
  lemma RenderBalanced(c: Context, ops: seq<Op>)
    requires Balances(ops, 0)
    ensures Flat(Tree(ops)) == ops && Proper(Tree(ops))
    ensures Rendered(c, ops, State([], [])) == Extended(State([], []), Encoding(c, Tree(ops), 0))
  {
    LayersFlatten(ops, 0);
    RenderIsEncoding(c, Tree(ops), State([], []));
  }

  /** The scopes of this list alone close in order. */
  predicate Nests(ops: seq<Op>, depth: nat) {
    if ops == [] then depth == 0
    else if ops[0].BeginScope? then Nests(ops[1..], depth + 1)
    else if ops[0].EndScope? then depth > 0 && Nests(ops[1..], depth - 1)
    else Nests(ops[1..], depth)
  }

  /** A rendering that does not raise leaves the scope stack empty exactly if the scopes close in order. */
  lemma {:induction false} StackEmptyIff(c: Context, ops: seq<Op>, s: State)
    requires Rendered(c, ops, s).Some?
    ensures Rendered(c, ops, s).value.scopes == [] <==> Nests(ops, |s.scopes|)
    decreases |ops|
  {
    if ops != [] {
      StackHeight(c, ops[0], s);
      StackEmptyIff(c, ops[1..], Step(c, ops[0], s).value);
    }
  }

  lemma StackHeight(c: Context, op: Op, s: State)
    requires Step(c, op, s).Some?
    ensures |Step(c, op, s).value.scopes|
         == |s.scopes| + (if op.BeginScope? then 1 else if op.EndScope? then -1 else 0)
  {
  }

  /** Padding before offset 513 always ends at offset 517: the padding's own header is not counted in its size. */
  lemma PaddingEnds(c: Context, s: State)
    ensures Padded(s).Some? && Padded(s).value.scopes == s.scopes
    ensures |Padded(s).value.out| == if |s.out| < 513 then 517 else |s.out|
  {
    PaddingSteps(s, c);
  }
}
