/**
 The TL schema compiler: for each schema line it emits a writer and a reader of the line's
 arguments. The emitted code is modelled as instruction lists with an interpreter.
 */
module TlSchema {
  import opened Bytes

  // ----- schema lines, after the regular expressions have taken them apart

  datatype Core = Int | Long | Int128 | Int256 | Double | BytesCore | StringCore | Bool

  /** `capital` tells the spelling `Vector` from `vector`; `sub` is the element type if it is a core type. */
  datatype FieldType = CoreField(core: Core) | VectorField(capital: bool, sub: Option<Core>) | BoxedField

  datatype ArgType =
    | FlagsWord                                            // `flags:#`
    | OptionalTrue(word: string, bit: nat)                 // `flags.0?true`
    | Optional(word: string, bit: nat, field: FieldType)   // `flags.0?X`
    | Plain(field: FieldType)

  datatype Arg = Arg(name: string, ty: ArgType) {
    predicate IsOptional() {
      ty.OptionalTrue? || ty.Optional?
    }
  }

  // ----- the emitted code

  datatype WireType = CoreWire(core: Core) | VectorWire(sub: Option<Core>) | BoxedWire

  /** One line of a flags word: `flags |= (1 << bit) if <test of self.name> else 0`. */
  datatype FlagTest = FlagTest(bit: nat, name: string, byTruth: bool)

  datatype WriteInstr =
    | WriteWord(word: string, tests: seq<FlagTest>)
    | WriteAlways(name: string, wire: WireType)
    | WriteIfNotNone(name: string, wire: WireType)
    | WriteIfTruthy(name: string, wire: WireType)

  datatype ReadType = ReadCore(core: Core) | ReadBoxed(sub: Option<Core>)

  datatype ReadInstr =
    | ReadWord(word: string)
    | ReadBit(name: string, word: string, bit: nat)
    | ReadAlways(name: string, how: ReadType)
    | ReadIfSet(name: string, word: string, bit: nat, how: ReadType, absent: Value)

  // ----- the compiler

  function Wire(f: FieldType): (w: WireType) {
    match f
    case CoreField(core) => CoreWire(core)
    case VectorField(_, sub) => VectorWire(sub)
    case BoxedField => BoxedWire
  }

  function How(f: FieldType): (h: ReadType) {
    match f
    case CoreField(core) => ReadCore(core)
    case VectorField(_, sub) => ReadBoxed(sub)
    case BoxedField => ReadBoxed(None)
  }

  /** The flag line the argument contributes to the word `word`, if any. */
  function TestFor(word: string, a: Arg): (t: seq<FlagTest>) {
    match a.ty
    case OptionalTrue(w, bit) => if w == word then [FlagTest(bit, a.name, true)] else []
    case Optional(w, bit, f) =>
      if w == word then [FlagTest(bit, a.name, f.VectorField? && f.capital)] else []
    case _ => []
  }

  function TestsFor(word: string, args: seq<Arg>): (t: seq<FlagTest>) {
    if args == [] then [] else TestsFor(word, args[..|args| - 1]) + TestFor(word, args[|args| - 1])
  }

  function WriteCode(args: seq<Arg>, a: Arg): (w: seq<WriteInstr>) {
    match a.ty
    case FlagsWord => [WriteWord(a.name, TestsFor(a.name, args))]
    case OptionalTrue(_, _) => []
    case Optional(_, _, f) => [if f.VectorField? then WriteIfTruthy(a.name, Wire(f)) else WriteIfNotNone(a.name, Wire(f))]
    case Plain(f) => [WriteAlways(a.name, Wire(f))]
  }

  function ReadCode(a: Arg): (r: seq<ReadInstr>) {
    match a.ty
    case FlagsWord => [ReadWord(a.name)]
    case OptionalTrue(word, bit) => [ReadBit(a.name, word, bit)]
    case Optional(word, bit, f) =>
      [ReadIfSet(a.name, word, bit, How(f), if f.VectorField? then ListV([]) else NoneV)]
    case Plain(f) => [ReadAlways(a.name, How(f))]
  }

  function Writer(args: seq<Arg>, part: seq<Arg>): (w: seq<WriteInstr>) {
    if part == [] then [] else WriteCode(args, part[0]) + Writer(args, part[1..])
  }

  function Reader(part: seq<Arg>): (r: seq<ReadInstr>) {
    if part == [] then [] else ReadCode(part[0]) + Reader(part[1..])
  }

  lemma {:induction false} WriterSnoc(args: seq<Arg>, part: seq<Arg>, a: Arg)
    ensures Writer(args, part + [a]) == Writer(args, part) + WriteCode(args, a)
  {
    if part == [] {
      assert [a][1..] == [];
    } else {
      WriterSnoc(args, part[1..], a);
      assert (part + [a])[1..] == part[1..] + [a];
    }
  }

  lemma {:induction false} ReaderSnoc(part: seq<Arg>, a: Arg)
    ensures Reader(part + [a]) == Reader(part) + ReadCode(a)
  {
    if part == [] {
      assert [a][1..] == [];
    } else {
      ReaderSnoc(part[1..], a);
      assert (part + [a])[1..] == part[1..] + [a];
    }
  }

  /** The generation loop of `start`, with its inner loop over the flag lines of a flags word. */
  method Compile(args: seq<Arg>) returns (writeTypes: seq<WriteInstr>, readTypes: seq<ReadInstr>)
    ensures writeTypes == Writer(args, args) && readTypes == Reader(args)
  {
    writeTypes, readTypes := [], [];
    for i := 0 to |args|
      invariant writeTypes == Writer(args, args[..i]) && readTypes == Reader(args[..i])
    {
      var a := args[i];
      assert args[..i + 1] == args[..i] + [a];
      WriterSnoc(args, args[..i], a);
      ReaderSnoc(args[..i], a);
      match a.ty {
        case FlagsWord =>
          var tests := [];
          for j := 0 to |args|
            invariant tests == TestsFor(a.name, args[..j])
          {
            assert args[..j + 1][..j] == args[..j];
            tests := tests + TestFor(a.name, args[j]);
          }
          assert args[..|args|] == args;
          writeTypes := writeTypes + [WriteWord(a.name, tests)];
          readTypes := readTypes + [ReadWord(a.name)];
        case OptionalTrue(word, bit) =>
          readTypes := readTypes + [ReadBit(a.name, word, bit)];
        case Optional(word, bit, f) =>
          if f.VectorField? {
            writeTypes := writeTypes + [WriteIfTruthy(a.name, Wire(f))];
            readTypes := readTypes + [ReadIfSet(a.name, word, bit, How(f), ListV([]))];
          } else {
            writeTypes := writeTypes + [WriteIfNotNone(a.name, Wire(f))];
            readTypes := readTypes + [ReadIfSet(a.name, word, bit, How(f), NoneV)];
          }
        case Plain(f) =>
          writeTypes := writeTypes + [WriteAlways(a.name, Wire(f))];
          readTypes := readTypes + [ReadAlways(a.name, How(f))];
      }
    }
    assert args[..|args|] == args;
  }

  // ----- `sort_args`

  datatype Kind = Required | Flagged | Word

  function KindOf(a: Arg): (k: Kind) {
    if a.IsOptional() then Flagged else if a.ty.FlagsWord? then Word else Required
  }

  /** The arguments of one kind, in order. */
  function Only(k: Kind, args: seq<Arg>): (r: seq<Arg>) {
    if args == [] then [] else (if KindOf(args[0]) == k then [args[0]] else []) + Only(k, args[1..])
  }

  /** `args.remove(a)`: drop the first element equal to `a`. */
  function Remove(args: seq<Arg>, a: Arg): (r: seq<Arg>)
    requires a in args
  {
    if args[0] == a then args[1..] else [args[0]] + Remove(args[1..], a)
  }

  lemma {:induction false} OnlyMembers(k: Kind, args: seq<Arg>, a: Arg)
    ensures a in Only(k, args) <==> a in args && KindOf(a) == k
  {
    if args != [] {
      OnlyMembers(k, args[1..], a);
    }
  }

  lemma {:induction false} OnlyAll(k: Kind, args: seq<Arg>)
    requires forall a :: a in args ==> KindOf(a) == k
    ensures Only(k, args) == args
  {
    if args != [] {
      OnlyAll(k, args[1..]);
    }
  }

  lemma OnlyCons(k: Kind, a: Arg, args: seq<Arg>)
    ensures Only(k, [a] + args) == (if KindOf(a) == k then [a] else []) + Only(k, args)
  {
    assert ([a] + args)[1..] == args;
  }

  /** Removing the first argument of kind `k` leaves the other kinds alone. */
  lemma {:induction false} RemoveFirst(k: Kind, j: Kind, args: seq<Arg>)
    requires Only(k, args) != []
    ensures Only(k, args)[0] in args && KindOf(Only(k, args)[0]) == k
    ensures var rest := Remove(args, Only(k, args)[0]);
            Only(j, rest) == if j == k then Only(k, args)[1..] else Only(j, args)
  {
    if KindOf(args[0]) == k {
      assert Only(k, args)[1..] == Only(k, args[1..]);
    } else {
      RemoveFirst(k, j, args[1..]);
      RemoveLater(j, args, Only(k, args)[0]);
    }
  }

  lemma RemoveLater(j: Kind, args: seq<Arg>, a: Arg)
    requires args != [] && args[0] != a && a in args[1..]
    ensures Only(j, Remove(args, a)) == (if KindOf(args[0]) == j then [args[0]] else []) + Only(j, Remove(args[1..], a))
  {
    OnlyCons(j, args[0], Remove(args[1..], a));
  }

  method RemoveFlagged(args: seq<Arg>, flags: seq<Arg>) returns (rest: seq<Arg>)
    requires flags == Only(Flagged, args)
    ensures Only(Flagged, rest) == [] && Only(Word, rest) == Only(Word, args) && Only(Required, rest) == Only(Required, args)
  {
    rest := args;
    for i := 0 to |flags|
      invariant Only(Flagged, rest) == flags[i..]
      invariant Only(Required, rest) == Only(Required, args)
      invariant Only(Word, rest) == Only(Word, args)
    {
      RemoveFirst(Flagged, Flagged, rest);
      RemoveFirst(Flagged, Required, rest);
      RemoveFirst(Flagged, Word, rest);
      rest := Remove(rest, flags[i]);
    }
  }

  method RemoveWords(copy: seq<Arg>) returns (rest: seq<Arg>)
    requires Only(Flagged, copy) == []
    ensures rest == Only(Required, copy)
  {
    rest := copy;
    for i := 0 to |copy|
      invariant Only(Word, rest) == Only(Word, copy[i..])
      invariant Only(Required, rest) == Only(Required, copy)
      invariant Only(Flagged, rest) == []
    {
      assert copy[i..][1..] == copy[i + 1..];
      if copy[i].ty.FlagsWord? {
        RemoveFirst(Word, Word, rest);
        RemoveFirst(Word, Required, rest);
        RemoveFirst(Word, Flagged, rest);
        rest := Remove(rest, copy[i]);
      }
    }
    forall a | a in rest
      ensures KindOf(a) == Required
    {
      OnlyMembers(Word, rest, a);
      OnlyMembers(Flagged, rest, a);
    }
    OnlyAll(Required, rest);
  }

  /** `sort_args`: the required arguments, then the optional ones, both in schema order; no flags words. */
  method SortArgs(args: seq<Arg>) returns (sorted: seq<Arg>)
    ensures sorted == Only(Required, args) + Only(Flagged, args)
    ensures forall a :: a in sorted <==> a in args && !a.ty.FlagsWord?
  {
    var flags := Only(Flagged, args);
    var rest := RemoveFlagged(args, flags);
    rest := RemoveWords(rest);
    sorted := rest + flags;
    forall a
      ensures a in sorted <==> a in args && !a.ty.FlagsWord?
    {
      OnlyMembers(Required, args, a);
      OnlyMembers(Flagged, args, a);
    }
  }

  // ----- values and their encodings

  datatype Value =
    | NoneV
    | BoolV(truth: bool)
    | IntV(int)
    | DataV(seq<byte>)
    | ObjectV(constructor_: nat, content: seq<byte>)
    | ListV(items: seq<Value>)
  {
    /** Python truth of a field value; objects always have a non-empty encoding. */
    predicate Truthy() {
      match this
      case NoneV => false
      case BoolV(t) => t
      case IntV(i) => i != 0
      case DataV(d) => d != []
      case ObjectV(_, _) => true
      case ListV(items) => items != []
    }
  }

  /** The values that Python takes for false. */
  lemma FalseValues(v: Value)
    ensures !v.Truthy() <==> v == NoneV || v == BoolV(false) || v == IntV(0) || v == DataV([]) || v == ListV([])
  {
  }
}
