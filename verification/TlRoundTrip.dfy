/**
 The reader the TL compiler emits, run on the bytes of the writer it emits.
 */
module TlRoundTrip {
  import opened Bytes
  import opened Pipeline
  import opened TlCodec
  import opened TlSchema
  import opened TlLengths

  // ----- both runs, argument by argument

  function Names(args: seq<Arg>): (names: seq<string>)
    ensures |names| == |args| && forall i :: 0 <= i < |args| ==> names[i] == args[i].name
  {
    seq(|args|, i requires 0 <= i < |args| => args[i].name)
  }

  /** The reader's line for argument `i`. */
  function Stepper(c: Codec, args: seq<Arg>): (step: Step<Value>) {
    (i: nat, env: Object, b: seq<byte>) => if i < |args| then RunRead(c, ReadCode(args[i])[0], env, b) else None
  }

  lemma {:induction false} ReaderRuns(c: Codec, args: seq<Arg>, i: nat, env: Object, b: seq<byte>)
    requires i <= |args|
    ensures RunReader(c, Reader(args[i..]), env, b) == Run(Stepper(c, args), Names(args), i, env, b)
    decreases |args| - i
  {
    if i < |args| {
      assert args[i..][1..] == args[i + 1..];
      var line := ReadCode(args[i])[0];
      assert ReadCode(args[i]) == [line];
      ReaderStep(c, line, Reader(args[i + 1..]), env, b);
      var r := RunRead(c, line, env, b);
      if r.Some? {
        ReaderRuns(c, args, i + 1, env[args[i].name := r.value.0], r.value.1);
      }
    }
  }

  /** The bytes each argument contributes. */
  ghost predicate IsChunks(c: Codec, args: seq<Arg>, o: Object, chunks: seq<seq<byte>>) {
    |chunks| == |args| && forall i :: 0 <= i < |args| ==> WriteArg(c, args, args[i], o) == Some(chunks[i])
  }

  lemma {:induction false} WritesEach(c: Codec, args: seq<Arg>, i: nat, j: nat, o: Object)
    requires i <= j < |args| && RunWriter(c, Writer(args, args[i..]), o).Some?
    ensures WriteArg(c, args, args[j], o).Some?
    decreases j - i
  {
    assert args[i..][1..] == args[i + 1..];
    RunWriterAppend(c, WriteCode(args, args[i]), Writer(args, args[i + 1..]), o);
    if i < j {
      WritesEach(c, args, i + 1, j, o);
    }
  }

  lemma {:induction false} WriterRuns(c: Codec, args: seq<Arg>, i: nat, o: Object, chunks: seq<seq<byte>>)
    requires i <= |args| && IsChunks(c, args, o, chunks)
    ensures RunWriter(c, Writer(args, args[i..]), o) == Some(Join(chunks, i))
    decreases |args| - i
  {
    if i < |args| {
      assert args[i..][1..] == args[i + 1..];
      RunWriterAppend(c, WriteCode(args, args[i]), Writer(args, args[i + 1..]), o);
      WriterRuns(c, args, i + 1, o, chunks);
    }
  }

  lemma Chunks(c: Codec, args: seq<Arg>, o: Object) returns (chunks: seq<seq<byte>>)
    requires WriteObject(c, args, o).Some?
    ensures IsChunks(c, args, o, chunks) && WriteObject(c, args, o) == Some(Join(chunks, 0))
  {
    assert args[0..] == args;
    forall j | 0 <= j < |args|
      ensures WriteArg(c, args, args[j], o).Some?
    {
      WritesEach(c, args, 0, j, o);
    }
    chunks := seq(|args|, j requires 0 <= j < |args| && WriteArg(c, args, args[j], o).Some? => WriteArg(c, args, args[j], o).value);
    WriterRuns(c, args, 0, o, chunks);
  }

  // ----- vectors that survive the element-size guess

  /** The bytes of the arguments after number `i`, followed by the tail. */
  function After(c: Codec, args: seq<Arg>, i: nat, o: Object, tail: seq<byte>): (b: Option<seq<byte>>)
    requires i < |args|
  {
    var rest := RunWriter(c, Writer(args, args[i + 1..]), o);
    if rest.Some? then Some(rest.value + tail) else None
  }

  /** Every vector written is safe from the guess, given the bytes that follow it. */
  ghost predicate Safe(c: Codec, args: seq<Arg>, o: Object, tail: seq<byte>)
    requires HasFields(args, o)
  {
    forall i :: 0 <= i < |args| ==> SafeAt(c, args, i, o, tail)
  }

  ghost predicate SafeAt(c: Codec, args: seq<Arg>, i: nat, o: Object, tail: seq<byte>)
    requires i < |args| && HasFields(args, o)
  {
    var after := After(c, args, i, o, tail);
    after.Some? ==> SafeArg(c, args[i], o, after.value)
  }

  lemma SafeAfter(c: Codec, args: seq<Arg>, i: nat, o: Object, tail: seq<byte>, chunks: seq<seq<byte>>)
    requires i < |args| && HasFields(args, o) && IsChunks(c, args, o, chunks)
    ensures SafeAt(c, args, i, o, tail) <==> SafeArg(c, args[i], o, Join(chunks, i + 1) + tail)
  {
    WriterRuns(c, args, i + 1, o, chunks);
  }

  // ----- the values that come back

  ghost predicate ValuesOf(args: seq<Arg>, o: Object, vals: seq<Value>)
    requires HasFields(args, o)
  {
    |vals| == |args| && forall j :: 0 <= j < |args| ==> vals[j] == ReadArgValue(args, o, args[j])
  }

  lemma Values(args: seq<Arg>, o: Object) returns (vals: seq<Value>)
    requires HasFields(args, o)
    ensures ValuesOf(args, o, vals)
  {
    vals := seq(|args|, j requires 0 <= j < |args| => ReadArgValue(args, o, args[j]));
  }

  lemma WordsInLocals(args: seq<Arg>, o: Object, vals: seq<Value>, i: nat)
    requires i <= |args| && WellFormed(args) && HasFields(args, o) && ValuesOf(args, o, vals)
    ensures WordsRead(args, o, i, Locals(Names(args), vals, i))
  {
    var env := Locals(Names(args), vals, i);
    forall j | 0 <= j < i && args[j].ty.FlagsWord?
      ensures args[j].name in env && env[args[j].name] == IntV(WordOf(args, o, args[j].name))
    {
      LocalValue(Names(args), vals, i, j);
    }
  }

  /** An argument that agrees with its bit and is safe takes exactly its own bytes. */
  lemma ArgTakes(c: Codec, args: seq<Arg>, i: nat, o: Object, chunks: seq<seq<byte>>, vals: seq<Value>, tail: seq<byte>)
    requires SelfDelimiting(c) && i < |args| && WellFormed(args) && HasFields(args, o)
    requires IsChunks(c, args, o, chunks) && ValuesOf(args, o, vals)
    requires AgreeAt(args, o, args[i]) && SafeArg(c, args[i], o, Join(chunks, i + 1) + tail)
    ensures Takes(Stepper(c, args), Names(args), chunks, vals, tail, i)
  {
    WordsInLocals(args, o, vals, i);
    ArgReadsBack(c, args, i, o, Locals(Names(args), vals, i), Join(chunks, i + 1) + tail);
  }

  // ----- the round trip

  /** The reader returns the object, an absent `true` as False and an absent vector as [], and leaves the tail. */
  ghost predicate ComesBack(c: Codec, args: seq<Arg>, o: Object, tail: seq<byte>)
    requires HasFields(args, o) && WriteObject(c, args, o).Some?
  {
    var r := ReadObject(c, args, WriteObject(c, args, o).value + tail);
    r.Some? && r.value.1 == tail && IsNormalized(args, o, r.value.0)
  }

  lemma NormalizedLocals(args: seq<Arg>, o: Object, vals: seq<Value>)
    requires WellFormed(args) && HasFields(args, o) && ValuesOf(args, o, vals)
    ensures IsNormalized(args, o, Fields(args, Locals(Names(args), vals, |args|)))
  {
    var env := Locals(Names(args), vals, |args|);
    forall a | a in args && !a.ty.FlagsWord?
      ensures a.name in env && env[a.name] == Back(a, o)
    {
      var j :| 0 <= j < |args| && args[j] == a;
      LocalValue(Names(args), vals, |args|, j);
    }
  }

  lemma AllComeBack(c: Codec, args: seq<Arg>, o: Object, chunks: seq<seq<byte>>, vals: seq<Value>, tail: seq<byte>)
    requires WellFormed(args) && HasFields(args, o) && ValuesOf(args, o, vals)
    requires |chunks| == |args| && WriteObject(c, args, o) == Some(Join(chunks, 0))
    requires forall j :: 0 <= j < |args| ==> Takes(Stepper(c, args), Names(args), chunks, vals, tail, j)
    ensures ComesBack(c, args, o, tail)
  {
    RunsThrough(Stepper(c, args), Names(args), chunks, vals, tail);
    ReaderRunsAll(c, args, Join(chunks, 0) + tail);
    NormalizedLocals(args, o, vals);
  }

  lemma ReaderRunsAll(c: Codec, args: seq<Arg>, b: seq<byte>)
    ensures RunReader(c, Reader(args), map[], b) == Run(Stepper(c, args), Names(args), 0, map[], b)
  {
    assert args[0..] == args;
    ReaderRuns(c, args, 0, map[], b);
  }

  /** The emitted reader, run on the emitted writer's bytes followed by any tail, undoes the writer. */
  lemma RoundTrip(c: Codec, args: seq<Arg>, o: Object, tail: seq<byte>)
    requires SelfDelimiting(c) && WellFormed(args) && HasFields(args, o) && Agree(args, o)
    requires WriteObject(c, args, o).Some? && Safe(c, args, o, tail)
    ensures ComesBack(c, args, o, tail)
  {
    AgreeEverywhere(args, o);
    var chunks := Chunks(c, args, o);
    var vals := Values(args, o);
    forall j | 0 <= j < |args|
      ensures Takes(Stepper(c, args), Names(args), chunks, vals, tail, j)
    {
      assert SafeAt(c, args, j, o, tail) && AgreeAt(args, o, args[j]);
      SafeAfter(c, args, j, o, tail, chunks);
      ArgTakes(c, args, j, o, chunks, vals, tail);
    }
    AllComeBack(c, args, o, chunks, vals, tail);
  }

  // ----- exactly when the round trip succeeds

  ghost predicate VectorAgrees(args: seq<Arg>, o: Object, a: Arg)
    requires HasFields(args, o) && a in args
  {
    a.ty.Optional? && a.ty.field.VectorField? ==> AgreeAt(args, o, a)
  }

  /** Every optional vector whose bit is on is there. */
  ghost predicate VectorsAgree(args: seq<Arg>, o: Object)
    requires HasFields(args, o)
  {
    forall a :: a in args ==> VectorAgrees(args, o, a)
  }

  ghost predicate FieldsRight(args: seq<Arg>, o: Object, env: Object)
    requires HasFields(args, o)
  {
    forall j :: 0 <= j < |args| && !args[j].ty.FlagsWord? ==> args[j].name in env && env[args[j].name] == Back(args[j], o)
  }

  /** Read in step, an argument is right only if it agrees with its bit and is safe. */
  lemma ArgExact(c: Codec, args: seq<Arg>, i: nat, o: Object, env: Object, rest: seq<byte>)
    requires SelfDelimiting(c) && Typed(c) && i < |args| && WellFormed(args) && HasFields(args, o) && VectorAgrees(args, o, args[i])
    requires WordsRead(args, o, i, env) && WriteArg(c, args, args[i], o).Some?
    requires !args[i].ty.FlagsWord? ==>
               var r := RunRead(c, ReadCode(args[i])[0], env, WriteArg(c, args, args[i], o).value + rest);
               r.Some? && r.value.0 == Back(args[i], o)
    ensures AgreeAt(args, o, args[i]) && SafeArg(c, args[i], o, rest)
  {
    var a := args[i];
    if a.ty.OptionalTrue? || (a.ty.Optional? && !a.ty.field.VectorField?) {
      AgreesIfRight(c, args, i, o, env, WriteArg(c, args, args[i], o).value + rest);
    }
    if !a.ty.FlagsWord? {
      SafeIfRight(c, args, i, o, env, rest);
    }
  }

  /** What the run leaves in an argument's local is what the argument's own line read. */
  lemma LineValue(c: Codec, args: seq<Arg>, i: nat, env: Object, b: seq<byte>)
    requires i < |args| && WellFormed(args) && Run(Stepper(c, args), Names(args), i, env, b).Some?
    ensures var r := RunRead(c, ReadCode(args[i])[0], env, b);
            var env' := Run(Stepper(c, args), Names(args), i, env, b).value.0;
            r.Some? && args[i].name in env' && env'[args[i].name] == r.value.0
  {
    StepValue(Stepper(c, args), Names(args), i, env, b);
  }

  lemma LineExact(c: Codec, args: seq<Arg>, i: nat, o: Object, env: Object, w: seq<byte>, rest: seq<byte>, v: Value)
    requires SelfDelimiting(c) && Typed(c) && i < |args| && WellFormed(args) && HasFields(args, o) && VectorAgrees(args, o, args[i])
    requires WordsRead(args, o, i, env) && WriteArg(c, args, args[i], o) == Some(w)
    requires RunRead(c, ReadCode(args[i])[0], env, w + rest).Some? && RunRead(c, ReadCode(args[i])[0], env, w + rest).value.0 == v
    requires !args[i].ty.FlagsWord? ==> v == Back(args[i], o)
    ensures AgreeAt(args, o, args[i]) && SafeArg(c, args[i], o, rest)
  {
    ArgExact(c, args, i, o, env, rest);
  }

  lemma JoinTail(chunks: seq<seq<byte>>, i: nat, tail: seq<byte>)
    requires i < |chunks|
    ensures Join(chunks, i) + tail == chunks[i] + (Join(chunks, i + 1) + tail)
  {
  }

  lemma NextExact(c: Codec, args: seq<Arg>, i: nat, o: Object, env: Object, w: seq<byte>, rest: seq<byte>, env': Object)
    requires SelfDelimiting(c) && Typed(c) && i < |args| && WellFormed(args) && HasFields(args, o) && VectorAgrees(args, o, args[i])
    requires WordsRead(args, o, i, env) && WriteArg(c, args, args[i], o) == Some(w)
    requires var r := Run(Stepper(c, args), Names(args), i, env, w + rest); r.Some? && r.value.0 == env'
    requires FieldsRight(args, o, env')
    ensures AgreeAt(args, o, args[i]) && SafeArg(c, args[i], o, rest)
  {
    LineValue(c, args, i, env, w + rest);
    LineExact(c, args, i, o, env, w, rest, env'[args[i].name]);
  }

  // ----- counting bytes

  /** A line that reads the right value, with bytes left over, takes at least the bytes of its argument. */
  lemma LineTakes(c: Codec, args: seq<Arg>, i: nat, o: Object, env: Object, b: seq<byte>)
    requires SelfDelimiting(c) && Typed(c) && Measured(c) && i < |args| && HasFields(args, o)
    requires WriteArg(c, args, args[i], o).Some? && RunRead(c, ReadCode(args[i])[0], env, b).Some?
    requires RunRead(c, ReadCode(args[i])[0], env, b).value.1 != []
    requires !args[i].ty.FlagsWord? ==> RunRead(c, ReadCode(args[i])[0], env, b).value.0 == Back(args[i], o)
    ensures |b| - |RunRead(c, ReadCode(args[i])[0], env, b).value.1| >= |WriteArg(c, args, args[i], o).value|
  {
    var a := args[i];
    if !a.ty.OptionalTrue? {
      RunWriterSingle(c, WriteCode(args, a)[0], o);
      assert WriteCode(args, a) == [WriteCode(args, a)[0]];
      if a.ty.Plain? {
        ValueTakes(c, a.ty.field, b);
      } else if a.ty.Optional? && Present(a, o) {
        ValueTakes(c, a.ty.field, b);
      }
    }
  }

  /** The value of argument `i` as it should come back; flags words are not looked at. */
  function Accepts(args: seq<Arg>, o: Object): (ok: (nat, Value) -> bool)
    requires HasFields(args, o)
  {
    (i: nat, v: Value) => i < |args| && !args[i].ty.FlagsWord? ==> v == Back(args[i], o)
  }

  lemma AllCost(c: Codec, args: seq<Arg>, o: Object, chunks: seq<seq<byte>>)
    requires SelfDelimiting(c) && Typed(c) && Measured(c) && HasFields(args, o) && IsChunks(c, args, o, chunks)
    ensures forall i, env, b :: 0 <= i < |args| ==> CostsAt(Stepper(c, args), chunks, Accepts(args, o), i, env, b)
  {
    forall i, env, b | 0 <= i < |args| ensures CostsAt(Stepper(c, args), chunks, Accepts(args, o), i, env, b) {
      var r := RunRead(c, ReadCode(args[i])[0], env, b);
      if r.Some? && Accepts(args, o)(i, r.value.0) && r.value.1 != [] {
        LineTakes(c, args, i, o, env, b);
      }
    }
  }

  /** Reading an empty vector takes bytes. */
  lemma EmptyVectorTakes(c: Codec, a: Arg, env: Object, b: seq<byte>, w: nat)
    requires SelfDelimiting(c) && Typed(c) && Measured(c) && a.ty.Optional? && a.ty.field.VectorField?
    requires a.ty.word in env && env[a.ty.word] == IntV(w) && BitSet(w, a.ty.bit)
    requires var r := RunRead(c, ReadCode(a)[0], env, b); r.Some? && r.value.0 == ListV([])
    ensures |RunRead(c, ReadCode(a)[0], env, b).value.1| + 4 <= |b|
  {
    VectorTakes(c, a.ty.field.sub, b);
  }

  /** In step, with bytes left over at the end, an optional vector that is not there has its bit off: reading an
      empty vector in its place would use up bytes that the rest of the line needs. */
  lemma NoAccident(c: Codec, args: seq<Arg>, k: nat, o: Object, chunks: seq<seq<byte>>, vals: seq<Value>, tail: seq<byte>, env': Object)
    requires SelfDelimiting(c) && Typed(c) && Measured(c) && tail != []
    requires k < |args| && WellFormed(args) && HasFields(args, o)
    requires IsChunks(c, args, o, chunks) && ValuesOf(args, o, vals) && FieldsRight(args, o, env')
    requires Run(Stepper(c, args), Names(args), k, Locals(Names(args), vals, k), Join(chunks, k) + tail) == Some((env', tail))
    ensures VectorAgrees(args, o, args[k])
  {
    var a, env := args[k], Locals(Names(args), vals, k);
    if a.ty.Optional? && a.ty.field.VectorField? {
      WordsInLocals(args, o, vals, k);
      FlagFromEnv(args, k, o, env);
      if Present(a, o) {
        assert TurnsOn(a, o, a.ty.word, a.ty.bit);
      } else {
        AbsentIsOff(c, args, k, o, chunks, tail, env, env', WordOf(args, o, a.ty.word));
      }
    }
  }

  lemma AbsentIsOff(c: Codec, args: seq<Arg>, k: nat, o: Object, chunks: seq<seq<byte>>, tail: seq<byte>, env: Object, env': Object, w: nat)
    requires SelfDelimiting(c) && Typed(c) && Measured(c) && tail != []
    requires k < |args| && WellFormed(args) && HasFields(args, o) && IsChunks(c, args, o, chunks) && FieldsRight(args, o, env')
    requires args[k].ty.Optional? && args[k].ty.field.VectorField? && !Present(args[k], o)
    requires args[k].ty.word in env && env[args[k].ty.word] == IntV(w)
    requires Run(Stepper(c, args), Names(args), k, env, Join(chunks, k) + tail) == Some((env', tail))
    ensures !BitSet(w, args[k].ty.bit)
  {
    var b := Join(chunks, k) + tail;
    RestIsEnough(c, args, k, o, chunks, env, b, tail, env');
    AbsentWritesNothing(c, args, k, o, chunks, tail);
    if BitSet(w, args[k].ty.bit) {
      EmptyVectorTakes(c, args[k], env, b, w);
    }
  }

  /** What a line leaves is enough for the lines after it; and it has read the right value. */
  lemma RestIsEnough(c: Codec, args: seq<Arg>, k: nat, o: Object, chunks: seq<seq<byte>>, env: Object, b: seq<byte>, tail: seq<byte>, env': Object)
    requires SelfDelimiting(c) && Typed(c) && Measured(c) && tail != []
    requires k < |args| && WellFormed(args) && HasFields(args, o) && IsChunks(c, args, o, chunks) && FieldsRight(args, o, env')
    requires Run(Stepper(c, args), Names(args), k, env, b) == Some((env', tail)) && !args[k].ty.FlagsWord?
    ensures RunRead(c, ReadCode(args[k])[0], env, b).Some?
    ensures RunRead(c, ReadCode(args[k])[0], env, b).value.0 == Back(args[k], o)
    ensures |RunRead(c, ReadCode(args[k])[0], env, b).value.1| >= |Join(chunks, k + 1)| + |tail|
  {
    AllCost(c, args, o, chunks);
    RestNeeds(Stepper(c, args), Names(args), chunks, Accepts(args, o), k, env, b, tail, env');
  }

  lemma AbsentWritesNothing(c: Codec, args: seq<Arg>, k: nat, o: Object, chunks: seq<seq<byte>>, tail: seq<byte>)
    requires k < |args| && HasFields(args, o) && IsChunks(c, args, o, chunks)
    requires args[k].ty.Optional? && args[k].ty.field.VectorField? && !Present(args[k], o)
    ensures |Join(chunks, k) + tail| == |Join(chunks, k + 1)| + |tail|
  {
    RunWriterSingle(c, WriteCode(args, args[k])[0], o);
    assert WriteCode(args, args[k]) == [WriteCode(args, args[k])[0]];
    assert WriteArg(c, args, args[k], o) == Some(chunks[k]);
  }

  // ----- one argument after the other

  /** Either the optional vectors are known to agree with their bits, or the bytes left over tell. */
  ghost predicate Decidable(c: Codec, args: seq<Arg>, o: Object, tail: seq<byte>)
    requires HasFields(args, o)
  {
    VectorsAgree(args, o) || (tail != [] && Measured(c))
  }

  /** While the reader is in step, a right value means that the argument agrees with its bit and is safe. */
  lemma StepExact(c: Codec, args: seq<Arg>, k: nat, o: Object, chunks: seq<seq<byte>>, vals: seq<Value>, tail: seq<byte>, env': Object)
    requires SelfDelimiting(c) && Typed(c) && k < |args| && WellFormed(args) && HasFields(args, o) && VectorAgrees(args, o, args[k])
    requires IsChunks(c, args, o, chunks) && ValuesOf(args, o, vals) && FieldsRight(args, o, env')
    requires Run(Stepper(c, args), Names(args), k, Locals(Names(args), vals, k), Join(chunks, k) + tail) == Some((env', tail))
    ensures AgreeAt(args, o, args[k]) && SafeArg(c, args[k], o, Join(chunks, k + 1) + tail)
  {
    JoinTail(chunks, k, tail);
    WordsInLocals(args, o, vals, k);
    NextExact(c, args, k, o, Locals(Names(args), vals, k), chunks[k], Join(chunks, k + 1) + tail, env');
  }

  ghost predicate ExactAt(c: Codec, args: seq<Arg>, o: Object, tail: seq<byte>, j: nat)
    requires j < |args| && HasFields(args, o)
  {
    AgreeAt(args, o, args[j]) && SafeAt(c, args, j, o, tail)
  }

  /** While the reader is in step, the next argument agrees with its bit, is safe, and keeps the reader in step. */
  lemma StaysInStep(c: Codec, args: seq<Arg>, k: nat, o: Object, chunks: seq<seq<byte>>, vals: seq<Value>, tail: seq<byte>, env': Object)
    requires SelfDelimiting(c) && Typed(c) && k < |args| && WellFormed(args) && HasFields(args, o) && Decidable(c, args, o, tail)
    requires IsChunks(c, args, o, chunks) && ValuesOf(args, o, vals) && FieldsRight(args, o, env')
    requires Run(Stepper(c, args), Names(args), k, Locals(Names(args), vals, k), Join(chunks, k) + tail) == Some((env', tail))
    ensures ExactAt(c, args, o, tail, k) && Takes(Stepper(c, args), Names(args), chunks, vals, tail, k)
  {
    if VectorsAgree(args, o) {
      assert VectorAgrees(args, o, args[k]);
    } else {
      NoAccident(c, args, k, o, chunks, vals, tail, env');
    }
    StepExact(c, args, k, o, chunks, vals, tail, env');
    SafeAfter(c, args, k, o, tail, chunks);
    ArgTakes(c, args, k, o, chunks, vals, tail);
  }

  ghost function Exactness(c: Codec, args: seq<Arg>, o: Object, tail: seq<byte>): (exact: nat -> bool)
    requires HasFields(args, o)
  {
    (j: nat) => j < |args| ==> ExactAt(c, args, o, tail, j)
  }

  lemma AdvancesOne(c: Codec, args: seq<Arg>, k: nat, o: Object, chunks: seq<seq<byte>>, vals: seq<Value>, tail: seq<byte>, env': Object)
    requires SelfDelimiting(c) && Typed(c) && k < |args| && WellFormed(args) && HasFields(args, o) && Decidable(c, args, o, tail)
    requires IsChunks(c, args, o, chunks) && ValuesOf(args, o, vals) && FieldsRight(args, o, env')
    ensures Advances(Stepper(c, args), Names(args), chunks, vals, tail, env', Exactness(c, args, o, tail), k)
  {
    var step, names := Stepper(c, args), Names(args);
    if Run(step, names, k, Locals(names, vals, k), Join(chunks, k) + tail) == Some((env', tail)) {
      StaysInStep(c, args, k, o, chunks, vals, tail, env');
    }
  }

  /** Without a wrong value in any field, every argument agrees with its bit and is safe. */
  lemma AllExact(c: Codec, args: seq<Arg>, o: Object, chunks: seq<seq<byte>>, vals: seq<Value>, tail: seq<byte>, env': Object, step: Step<Value>, names: seq<string>, exact: nat -> bool)
    requires SelfDelimiting(c) && Typed(c) && WellFormed(args) && HasFields(args, o) && Decidable(c, args, o, tail)
    requires IsChunks(c, args, o, chunks) && ValuesOf(args, o, vals) && FieldsRight(args, o, env')
    requires step == Stepper(c, args) && names == Names(args) && exact == Exactness(c, args, o, tail)
    requires Run(step, names, 0, map[], Join(chunks, 0) + tail) == Some((env', tail))
    ensures forall j :: 0 <= j < |args| ==> exact(j)
  {
    forall k | 0 <= k < |args| ensures Advances(step, names, chunks, vals, tail, env', exact, k) {
      AdvancesOne(c, args, k, o, chunks, vals, tail, env');
    }
    GoesThrough(step, names, chunks, vals, tail, env', exact, |args|);
  }

  lemma ExactIsSafe(c: Codec, args: seq<Arg>, o: Object, tail: seq<byte>)
    requires HasFields(args, o) && forall j :: 0 <= j < |args| ==> Exactness(c, args, o, tail)(j)
    ensures Agree(args, o) && Safe(c, args, o, tail)
  {
    forall a | a in args ensures AgreeAt(args, o, a) {
      var j :| 0 <= j < |args| && args[j] == a;
      assert Exactness(c, args, o, tail)(j);
    }
    AgreeEverywhere(args, o);
    forall j | 0 <= j < |args| ensures SafeAt(c, args, j, o, tail) {
      assert Exactness(c, args, o, tail)(j);
    }
  }

  lemma RightFields(args: seq<Arg>, o: Object, env: Object)
    requires WellFormed(args) && HasFields(args, o) && IsNormalized(args, o, Fields(args, env))
    ensures FieldsRight(args, o, env)
  {
  }

  lemma OnlyIf(c: Codec, args: seq<Arg>, o: Object, tail: seq<byte>)
    requires SelfDelimiting(c) && Typed(c) && WellFormed(args) && HasFields(args, o) && Decidable(c, args, o, tail)
    requires WriteObject(c, args, o).Some? && ComesBack(c, args, o, tail)
    ensures Agree(args, o) && Safe(c, args, o, tail)
  {
    var chunks := Chunks(c, args, o);
    var vals := Values(args, o);
    ReaderRunsAll(c, args, Join(chunks, 0) + tail);
    var env' := Run(Stepper(c, args), Names(args), 0, map[], Join(chunks, 0) + tail).value.0;
    RightFields(args, o, env');
    AllExact(c, args, o, chunks, vals, tail, env', Stepper(c, args), Names(args), Exactness(c, args, o, tail));
    ExactIsSafe(c, args, o, tail);
  }

  /**
   The round trip succeeds exactly when the fields sharing a flag bit agree on presence and no
   vector of boxed elements is left with 4 or 8 bytes per element: whenever bytes follow the object,
   and at the end of the buffer for objects whose optional vectors agree with their bits.
   */
  lemma RoundTripExact(c: Codec, args: seq<Arg>, o: Object, tail: seq<byte>)
    requires SelfDelimiting(c) && Typed(c) && WellFormed(args) && HasFields(args, o)
    requires WriteObject(c, args, o).Some? && Decidable(c, args, o, tail)
    ensures ComesBack(c, args, o, tail) <==> Agree(args, o) && Safe(c, args, o, tail)
  {
    if Agree(args, o) && Safe(c, args, o, tail) {
      RoundTrip(c, args, o, tail);
    }
    if ComesBack(c, args, o, tail) {
      OnlyIf(c, args, o, tail);
    }
  }

  /** One boxed element of eight bytes at the end of the buffer is read back as a long. */
  lemma EightByteElementIsMisread(c: Codec, v: Value)
    requires SelfDelimiting(c) && Typed(c) && c.writeObject(v).Some? && |c.writeObject(v).value| == 8
    ensures var args := [Arg("x", Plain(VectorField(true, None)))];
            var o := map["x" := ListV([v])];
            HasFields(args, o) && WriteObject(c, args, o).Some? && !ComesBack(c, args, o, [])
  {
    var args, o := [Arg("x", Plain(VectorField(true, None)))], map["x" := ListV([v])];
    var body := c.writeObject(v).value;
    assert WriteItems(c, None, [v]) == Some(body) by {
      assert [v][1..] == [];
      assert WriteItems(c, None, []) == Some([]);
      assert body + [] == body;
    }
    BaseFour();
    var line := WriteAlways("x", VectorWire(None));
    assert Writer(args, args) == [line] by {
      assert args[1..] == [];
    }
    RunWriterSingle(c, line, o);
    assert !SafeAt(c, args, 0, o, []) by {
      assert args[1..] == [];
    }
    RoundTripExact(c, args, o, []);
  }
}
