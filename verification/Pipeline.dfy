/**
 A straight-line reader: step `i` takes bytes off a buffer and assigns one local variable.
 It is in step with a writer when it takes exactly the chunk that the writer's step `i` put there.
 */
module Pipeline {
  import opened Bytes
  import opened Sequences

  /** Step number, locals so far, rest of the buffer; the value read and what is left. */
  type Step<!V> = (nat, map<string, V>, seq<byte>) -> Option<(V, seq<byte>)>

  function Run<V>(step: Step<V>, names: seq<string>, i: nat, env: map<string, V>, b: seq<byte>)
    : (r: Option<(map<string, V>, seq<byte>)>)
    requires i <= |names|
    decreases |names| - i
  {
    if i == |names| then
      Some((env, b))
    else
      match step(i, env, b)
      case None => None
      case Some((v, rest)) => Run(step, names, i + 1, env[names[i] := v], rest)
  }

  /** The chunks from number `i` on, in one piece. */
  function Join(chunks: seq<seq<byte>>, i: nat): (b: seq<byte>)
    requires i <= |chunks|
    decreases |chunks| - i
  {
    if i == |chunks| then [] else chunks[i] + Join(chunks, i + 1)
  }

  /** The locals after the first `i` steps, if they have read `vals`. */
  function Locals<V>(names: seq<string>, vals: seq<V>, i: nat): (env: map<string, V>)
    requires i <= |names| == |vals|
  {
    if i == 0 then map[] else Locals(names, vals, i - 1)[names[i - 1] := vals[i - 1]]
  }

  lemma {:induction false} LocalValue<V>(names: seq<string>, vals: seq<V>, i: nat, j: nat)
    requires j < i <= |names| == |vals| && Distinct(names)
    ensures names[j] in Locals(names, vals, i) && Locals(names, vals, i)[names[j]] == vals[j]
  {
    if j < i - 1 {
      LocalValue(names, vals, i - 1, j);
    }
  }

  /** In step with the writer, step `i` reads `vals[i]` and takes exactly its own chunk. */
  ghost predicate Takes<V>(step: Step<V>, names: seq<string>, chunks: seq<seq<byte>>, vals: seq<V>, tail: seq<byte>, i: nat)
    requires i < |names| == |vals| == |chunks|
  {
    var rest := Join(chunks, i + 1) + tail;
    step(i, Locals(names, vals, i), chunks[i] + rest) == Some((vals[i], rest))
  }

  lemma OneStep<V>(step: Step<V>, names: seq<string>, chunks: seq<seq<byte>>, vals: seq<V>, tail: seq<byte>, i: nat)
    requires i < |names| == |vals| == |chunks| && Takes(step, names, chunks, vals, tail, i)
    ensures Run(step, names, i, Locals(names, vals, i), Join(chunks, i) + tail)
         == Run(step, names, i + 1, Locals(names, vals, i + 1), Join(chunks, i + 1) + tail)
  {
    assert Join(chunks, i) + tail == chunks[i] + (Join(chunks, i + 1) + tail);
  }

  /** While each step takes its own chunk, the reader stays in step with the writer. */
  lemma {:induction false} InStep<V>(step: Step<V>, names: seq<string>, chunks: seq<seq<byte>>, vals: seq<V>, tail: seq<byte>, i: nat)
    requires i <= |names| == |vals| == |chunks|
    requires forall j :: 0 <= j < i ==> Takes(step, names, chunks, vals, tail, j)
    ensures Run(step, names, 0, map[], Join(chunks, 0) + tail)
         == Run(step, names, i, Locals(names, vals, i), Join(chunks, i) + tail)
  {
    if i > 0 {
      InStep(step, names, chunks, vals, tail, i - 1);
      OneStep(step, names, chunks, vals, tail, i - 1);
    }
  }

  /** If every step takes its own chunk, the run ends with all values read and the tail left. */
  lemma RunsThrough<V>(step: Step<V>, names: seq<string>, chunks: seq<seq<byte>>, vals: seq<V>, tail: seq<byte>)
    requires |names| == |vals| == |chunks|
    requires forall j :: 0 <= j < |names| ==> Takes(step, names, chunks, vals, tail, j)
    ensures Run(step, names, 0, map[], Join(chunks, 0) + tail) == Some((Locals(names, vals, |names|), tail))
  {
    InStep(step, names, chunks, vals, tail, |names|);
    assert [] + tail == tail;
  }

  lemma {:induction false} RunKeeps<V>(step: Step<V>, names: seq<string>, i: nat, env: map<string, V>, b: seq<byte>, name: string)
    requires i <= |names| && Run(step, names, i, env, b).Some? && name in env
    requires forall j :: i <= j < |names| ==> names[j] != name
    ensures var env' := Run(step, names, i, env, b).value.0;
            name in env' && env'[name] == env[name]
    decreases |names| - i
  {
    if i < |names| {
      var (v, rest) := step(i, env, b).value;
      RunKeeps(step, names, i + 1, env[names[i] := v], rest, name);
    }
  }

  /** What a run leaves in a local is what its own step read. */
  lemma StepValue<V>(step: Step<V>, names: seq<string>, i: nat, env: map<string, V>, b: seq<byte>)
    requires i < |names| && Distinct(names) && Run(step, names, i, env, b).Some?
    ensures step(i, env, b).Some?
    ensures var env' := Run(step, names, i, env, b).value.0;
            names[i] in env' && env'[names[i]] == step(i, env, b).value.0
  {
    var (v, rest) := step(i, env, b).value;
    RunKeeps(step, names, i + 1, env[names[i] := v], rest, names[i]);
  }

  /** If step `k` is reached in step, it takes its own chunk, and `exact(k)` holds. */
  ghost predicate Advances<V>(step: Step<V>, names: seq<string>, chunks: seq<seq<byte>>, vals: seq<V>, tail: seq<byte>, end: map<string, V>, exact: nat -> bool, k: nat)
    requires k < |names| == |vals| == |chunks|
  {
    Run(step, names, k, Locals(names, vals, k), Join(chunks, k) + tail) == Some((end, tail)) ==>
      exact(k) && Takes(step, names, chunks, vals, tail, k)
  }

  /** A run that advances at every step goes through in step. */
  lemma {:induction false} GoesThrough<V>(step: Step<V>, names: seq<string>, chunks: seq<seq<byte>>, vals: seq<V>, tail: seq<byte>, end: map<string, V>, exact: nat -> bool, i: nat)
    requires i <= |names| == |vals| == |chunks|
    requires Run(step, names, 0, map[], Join(chunks, 0) + tail) == Some((end, tail))
    requires forall k :: 0 <= k < |names| ==> Advances(step, names, chunks, vals, tail, end, exact, k)
    ensures forall j :: 0 <= j < i ==> exact(j) && Takes(step, names, chunks, vals, tail, j)
  {
    if i > 0 {
      GoesThrough(step, names, chunks, vals, tail, end, exact, i - 1);
      InStep(step, names, chunks, vals, tail, i - 1);
      assert Advances(step, names, chunks, vals, tail, end, exact, i - 1);
    }
  }

  /** A step that reads an accepted value, with bytes left over, takes at least as many bytes as its chunk has. */
  ghost predicate CostsAt<V>(step: Step<V>, chunks: seq<seq<byte>>, ok: (nat, V) -> bool, i: nat, env: map<string, V>, b: seq<byte>)
    requires i < |chunks|
  {
    var r := step(i, env, b);
    r.Some? && ok(i, r.value.0) && r.value.1 != [] ==> |b| - |r.value.1| >= |chunks[i]|
  }

  /** A run that reads accepted values and leaves something over had all the chunks' bytes before it. */
  lemma {:induction false} RunNeeds<V(!new)>(step: Step<V>, names: seq<string>, chunks: seq<seq<byte>>, ok: (nat, V) -> bool, i: nat, env: map<string, V>, b: seq<byte>, tail: seq<byte>, end: map<string, V>)
    requires i <= |names| == |chunks| && Distinct(names) && tail != []
    requires Run(step, names, i, env, b) == Some((end, tail))
    requires forall j, e, x :: 0 <= j < |names| ==> CostsAt(step, chunks, ok, j, e, x)
    requires forall j :: 0 <= j < |names| && names[j] in end ==> ok(j, end[names[j]])
    ensures |b| >= |Join(chunks, i)| + |tail|
    decreases |names| - i
  {
    if i < |names| {
      StepValue(step, names, i, env, b);
      var (v, rest) := step(i, env, b).value;
      RunNeeds(step, names, chunks, ok, i + 1, env[names[i] := v], rest, tail, end);
      assert CostsAt(step, chunks, ok, i, env, b);
    }
  }

  /** What a step of such a run leaves is enough for the steps after it. */
  lemma RestNeeds<V(!new)>(step: Step<V>, names: seq<string>, chunks: seq<seq<byte>>, ok: (nat, V) -> bool, i: nat, env: map<string, V>, b: seq<byte>, tail: seq<byte>, end: map<string, V>)
    requires i < |names| == |chunks| && Distinct(names) && tail != []
    requires Run(step, names, i, env, b) == Some((end, tail))
    requires forall j, e, x :: 0 <= j < |names| ==> CostsAt(step, chunks, ok, j, e, x)
    requires forall j :: 0 <= j < |names| && names[j] in end ==> ok(j, end[names[j]])
    ensures step(i, env, b).Some? && ok(i, step(i, env, b).value.0)
    ensures |step(i, env, b).value.1| >= |Join(chunks, i + 1)| + |tail|
  {
    StepValue(step, names, i, env, b);
    var (v, rest) := step(i, env, b).value;
    RunNeeds(step, names, chunks, ok, i + 1, env[names[i] := v], rest, tail, end);
  }
}
