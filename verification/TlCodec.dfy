/**
 Running the code that the TL schema compiler emits: the writer of an object, the reader that
 takes its bytes apart again, and when the two are inverse.
 */
module TlCodec {
  import opened Bytes
  import opened TlSchema

  const VECTOR_ID := 0x1CB5C415
  const BOOL_FALSE_ID := 0xBC799737
  const BOOL_TRUE_ID := 0x997275B5

  /**
   The codecs the emitted code calls: one per core type, and the writers and readers of boxed
   objects. A read yields the value and the number of bytes it took.
   */
  datatype Codec = Codec(
    writeCore: (Core, Value) -> Option<seq<byte>>,
    readCore: (Core, seq<byte>) -> Option<(Value, nat)>,
    writeObject: Value -> Option<seq<byte>>,
    readObject: seq<byte> -> Option<(Value, nat)>)

  ghost predicate CoreReadsBack(c: Codec, k: Core, v: Value, tail: seq<byte>) {
    var w := c.writeCore(k, v);
    w.Some? ==> c.readCore(k, w.value + tail) == Some((v, |w.value|))
  }

  ghost predicate ObjectReadsBack(c: Codec, v: Value, tail: seq<byte>) {
    var w := c.writeObject(v);
    w.Some? ==>
      && v.ObjectV?
      && |w.value| >= 4 && FromLittleEndian(w.value[..4]) != VECTOR_ID
      && c.readObject(w.value + tail) == Some((v, |w.value|))
  }

  /** Every core type and every boxed object is read back from its own bytes, whatever follows. */
  ghost predicate SelfDelimiting(c: Codec) {
    && (forall k, v, tail :: CoreReadsBack(c, k, v, tail))
    && (forall v, tail :: ObjectReadsBack(c, v, tail))
  }

  // ----- vectors

  function WriteItem(c: Codec, sub: Option<Core>, v: Value): (w: Option<seq<byte>>) {
    if sub.Some? then c.writeCore(sub.value, v) else c.writeObject(v)
  }

  function WriteItems(c: Codec, sub: Option<Core>, items: seq<Value>): (w: Option<seq<byte>>) {
    if items == [] then
      Some([])
    else
      var head, tail := WriteItem(c, sub, items[0]), WriteItems(c, sub, items[1..]);
      if head.Some? && tail.Some? then Some(head.value + tail.value) else None
  }

  /** `Vector(items, sub)`. */
  function WriteVector(c: Codec, sub: Option<Core>, items: seq<Value>): (w: Option<seq<byte>>) {
    var count, body := PackSigned(|items|, 4), WriteItems(c, sub, items);
    if count.Some? && body.Some? then Some(LittleEndian(VECTOR_ID, 4) + count.value + body.value) else None
  }

  /** `Int.read` and `Long.read`: a short buffer yields the value of what is left. */
  function ReadInt(b: seq<byte>, n: nat): (r: (Value, nat))
    ensures r.1 <= |b|
  {
    var k := Min(n, |b|);
    (IntV(UnpackSigned(b[..k])), k)
  }

  /** `Vector.read_bare` for elements of apparent size 4: a `Bool` if the bytes look like one, else an `Int`. */
  function ReadFour(b: seq<byte>): (r: (Value, nat))
    ensures r.1 <= |b|
  {
    var k := Min(4, |b|);
    var e := FromLittleEndian(b[..k]);
    if e == BOOL_FALSE_ID || e == BOOL_TRUE_ID then (BoolV(e == BOOL_TRUE_ID), k) else ReadInt(b, 4)
  }

  /** The element size `Vector.read` guesses from the bytes left in the whole buffer. */
  function Guess(left: nat, count: int): (size: nat) {
    if count > 0 && left == 4 * count then 4 else if count > 0 && left == 8 * count then 8 else 0
  }

  function ReadItem(c: Codec, sub: Option<Core>, size: nat, b: seq<byte>): (r: Option<(Value, nat)>)
    decreases |b|, 1
  {
    if sub.Some? then c.readCore(sub.value, b)
    else if size == 4 then Some(ReadFour(b))
    else if size == 8 then Some(ReadInt(b, 8))
    else ReadBoxedValue(c, None, b)
  }

  function ReadItems(c: Codec, sub: Option<Core>, size: nat, n: nat, b: seq<byte>): (r: Option<(seq<Value>, nat)>)
    decreases |b|, 2, n
  {
    if n == 0 then
      Some(([], 0))
    else
      match ReadItem(c, sub, size, b)
      case None => None
      case Some((v, k)) =>
        if k > |b| then None else
        match ReadItems(c, sub, size, n - 1, b[k..])
        case None => None
        case Some((vs, k')) => Some(([v] + vs, k + k'))
  }

  /** `TLObject.read(b, sub)`: the constructor id decides between a vector and an object. */
  function ReadBoxedValue(c: Codec, sub: Option<Core>, b: seq<byte>): (r: Option<(Value, nat)>)
    decreases |b|, 0
  {
    if |b| < 4 then
      None
    else if FromLittleEndian(b[..4]) == VECTOR_ID then
      var rest := b[4..];
      var (IntV(count), k) := ReadInt(rest, 4);
      var left := rest[k..];
      match ReadItems(c, sub, Guess(|left|, count), if count > 0 then count else 0, left)
      case None => None
      case Some((vs, k')) => Some((ListV(vs), 4 + k + k'))
    else
      c.readObject(b)
  }

  lemma {:induction false} ItemsReadBack(c: Codec, sub: Option<Core>, size: nat, items: seq<Value>, tail: seq<byte>)
    requires SelfDelimiting(c) && WriteItems(c, sub, items).Some?
    requires sub.Some? || (size != 4 && size != 8)
    ensures ReadItems(c, sub, size, |items|, WriteItems(c, sub, items).value + tail)
         == Some((items, |WriteItems(c, sub, items).value|))
  {
    if items != [] {
      var head, rest := WriteItem(c, sub, items[0]).value, WriteItems(c, sub, items[1..]).value;
      var b := WriteItems(c, sub, items).value + tail;
      assert b == head + (rest + tail);
      ItemsReadBack(c, sub, size, items[1..], tail);
      assert b[|head|..] == rest + tail;
      if sub.Some? {
        assert CoreReadsBack(c, sub.value, items[0], rest + tail);
      } else {
        assert ObjectReadsBack(c, items[0], rest + tail);
        assert b[..4] == head[..4];
      }
      assert ReadItem(c, sub, size, b) == Some((items[0], |head|));
      assert [items[0]] + items[1..] == items;
    }
  }

  /** The guess leaves boxed elements alone: what follows the count is not 4 or 8 bytes per element. */
  predicate GuessSafe(c: Codec, sub: Option<Core>, items: seq<Value>, after: seq<byte>) {
    var body := WriteItems(c, sub, items);
    sub.Some? || items == [] || body.None?
    || (|body.value| + |after| != 4 * |items| && |body.value| + |after| != 8 * |items|)
  }

  lemma VectorReadsBack(c: Codec, sub: Option<Core>, items: seq<Value>, tail: seq<byte>)
    requires SelfDelimiting(c) && WriteVector(c, sub, items).Some? && GuessSafe(c, sub, items, tail)
    ensures ReadBoxedValue(c, sub, WriteVector(c, sub, items).value + tail)
         == Some((ListV(items), |WriteVector(c, sub, items).value|))
  {
    var id, count, body := LittleEndian(VECTOR_ID, 4), PackSigned(|items|, 4).value, WriteItems(c, sub, items).value;
    var b := WriteVector(c, sub, items).value + tail;
    VectorHeader(|items|, body + tail);
    assert b == id + count + (body + tail);
    if items != [] {
      ItemsReadBack(c, sub, Guess(|body + tail|, |items|), items, tail);
    }
  }

  lemma VectorHeader(n: nat, rest: seq<byte>)
    requires PackSigned(n, 4).Some?
    ensures var b := LittleEndian(VECTOR_ID, 4) + PackSigned(n, 4).value + rest;
            && FromLittleEndian(b[..4]) == VECTOR_ID
            && ReadInt(b[4..], 4) == (IntV(n), 4)
            && b[4..][4..] == rest
  {
    var id, count := LittleEndian(VECTOR_ID, 4), PackSigned(n, 4).value;
    var b := id + count + rest;
    BaseFour();
    LittleEndianRoundTrip(VECTOR_ID, 4);
    SignedRoundTrip(n, 4);
    assert b[..4] == id;
    assert b[4..][..4] == count;
  }

  /** A vector begins with the constructor id 0x1CB5C415, least significant byte first, and its count. */
  lemma VectorBytes(c: Codec, sub: Option<Core>, items: seq<Value>)
    requires WriteVector(c, sub, items).Some?
    ensures var w := WriteVector(c, sub, items).value;
            |w| >= 8 && w[..4] == [0x15, 0xC4, 0xB5, 0x1C] && UnpackSigned(w[4..8]) == |items|
  {
    var id, count := LittleEndian(0x1CB5C415, 4), PackSigned(|items|, 4).value;
    VectorIdBytes();
    var w := WriteVector(c, sub, items).value;
    assert w[..4] == id && w[4..8] == count;
    SignedRoundTrip(|items|, 4);
  }

  /** An element of apparent size 4 is a boolean exactly if its bytes are one of the two boolean constructors. */
  lemma FourBytes(b: seq<byte>)
    requires |b| >= 4
    ensures ReadFour(b)
         == if b[..4] == [0xB5, 0x75, 0x72, 0x99] then (BoolV(true), 4)
            else if b[..4] == [0x37, 0x97, 0x79, 0xBC] then (BoolV(false), 4)
            else (IntV(UnpackSigned(b[..4])), 4)
  {
    IdBytes(0x997275B5, 0xB5, 0x75, 0x72, 0x99);
    IdBytes(0xBC799737, 0x37, 0x97, 0x79, 0xBC);
    LittleEndianOnto(b[..4]);
  }

  lemma IdBytes(id: nat, a: byte, b: byte, c: byte, d: byte)
    requires id == a + 256 * (b + 256 * (c + 256 * d))
    ensures LittleEndian(id, 4) == [a, b, c, d] && FromLittleEndian([a, b, c, d]) == id
  {
    var w: seq<byte>, x: seq<byte>, y: seq<byte>, z: seq<byte> := [a, b, c, d], [b, c, d], [c, d], [d];
    assert w[1..] == x && x[1..] == y && y[1..] == z && z[1..] == [];
    assert FromLittleEndian(z) == d;
    assert FromLittleEndian(y) == c + 256 * d;
    assert FromLittleEndian(x) == b + 256 * (c + 256 * d);
    LittleEndianOnto(w);
  }

  lemma VectorIdBytes()
    ensures LittleEndian(0x1CB5C415, 4) == [0x15, 0xC4, 0xB5, 0x1C]
  {
    IdBytes(0x1CB5C415, 0x15, 0xC4, 0xB5, 0x1C);
  }

  /** What an element of four or eight bytes without a known type is taken for. */
  function Element(w: seq<byte>): (v: Value) {
    if w == [0xB5, 0x75, 0x72, 0x99] then BoolV(true)
    else if w == [0x37, 0x97, 0x79, 0xBC] then BoolV(false)
    else IntV(UnpackSigned(w))
  }

  ghost predicate AreElements(vs: seq<Value>, size: nat, b: seq<byte>) {
    |b| >= size * |vs| && forall i :: 0 <= i < |vs| ==> vs[i] == ElementAt(size, b, i)
  }

  function ElementAt(size: nat, b: seq<byte>, i: nat): (v: Value) {
    var at := size * i;
    if at + size <= |b| then Element(b[at..at + size]) else IntV(0)
  }

  lemma ElementLater(size: nat, b: seq<byte>, i: nat)
    requires (size == 4 || size == 8) && |b| >= size * (i + 2)
    ensures ElementAt(size, b[size..], i) == ElementAt(size, b, i + 1)
  {
    var at := size * i;
    assert size * (i + 1) == at + size;
    assert b[size..][at..at + size] == b[at + size..at + size + size];
  }

  lemma ElementRead(c: Codec, size: nat, b: seq<byte>)
    requires (size == 4 || size == 8) && |b| >= size
    ensures ReadItem(c, None, size, b) == Some((ElementAt(size, b, 0), size))
  {
    if size == 4 {
      FourBytes(b);
    }
  }

  lemma ElementsCons(rest: seq<Value>, size: nat, b: seq<byte>)
    requires (size == 4 || size == 8) && |b| >= size * (|rest| + 1) && AreElements(rest, size, b[size..])
    ensures AreElements([ElementAt(size, b, 0)] + rest, size, b)
  {
    var vs := [ElementAt(size, b, 0)] + rest;
    forall i | 0 <= i < |vs| ensures vs[i] == ElementAt(size, b, i) {
      if i > 0 {
        assert rest[i - 1] == ElementAt(size, b[size..], i - 1);
        ElementLater(size, b, i - 1);
      }
    }
  }

  lemma ItemsCons(c: Codec, size: nat, n: nat, b: seq<byte>, v: Value, rest: seq<Value>, k: nat)
    requires n > 0 && size <= |b| && ReadItem(c, None, size, b) == Some((v, size))
    requires ReadItems(c, None, size, n - 1, b[size..]) == Some((rest, k))
    ensures ReadItems(c, None, size, n, b) == Some(([v] + rest, size + k))
  {
  }

  lemma {:induction false} ElementsRead(c: Codec, size: nat, n: nat, b: seq<byte>) returns (vs: seq<Value>)
    requires (size == 4 || size == 8) && |b| >= size * n
    ensures |vs| == n && ReadItems(c, None, size, n, b) == Some((vs, size * n)) && AreElements(vs, size, b)
    decreases n
  {
    if n == 0 {
      return [];
    }
    assert size * n == size + size * (n - 1);
    ElementRead(c, size, b);
    var rest := ElementsRead(c, size, n - 1, b[size..]);
    ElementsCons(rest, size, b);
    ItemsCons(c, size, n, b, ElementAt(size, b, 0), rest, size * (n - 1));
    vs := [ElementAt(size, b, 0)] + rest;
  }

  /** A bare vector that fills the buffer with four or eight bytes per element is read element by element, as the
      answers that are vectors of integers need it. */
  lemma BareVector(c: Codec, size: nat, n: nat, body: seq<byte>)
    requires (size == 4 || size == 8) && n > 0 && |body| == size * n && PackSigned(n, 4).Some?
    ensures var r := ReadBoxedValue(c, None, [0x15, 0xC4, 0xB5, 0x1C] + PackSigned(n, 4).value + body);
            && r.Some? && r.value.1 == 8 + |body|
            && r.value.0.ListV? && |r.value.0.items| == n && AreElements(r.value.0.items, size, body)
  {
    VectorIdBytes();
    VectorHeader(n, body);
    var _ := ElementsRead(c, size, n, body);
  }

  lemma BaseFour()
    ensures Base(4) == 0x1_0000_0000
  {
    assert Base(2) == 65536;
    assert Base(3) == 256 * Base(2);
  }

  // ----- the emitted writer

  type Object = map<string, Value>

  function WriteValue(c: Codec, wire: WireType, v: Value): (w: Option<seq<byte>>) {
    match wire
    case CoreWire(k) => c.writeCore(k, v)
    case BoxedWire => c.writeObject(v)
    case VectorWire(sub) => if v.ListV? then WriteVector(c, sub, v.items) else None
  }

  /** `w | (1 << i)`. */
  function OrBit(w: nat, i: nat): (r: nat)
    decreases i
  {
    if i == 0 then (if w % 2 == 1 then w else w + 1) else 2 * OrBit(w / 2, i - 1) + w % 2
  }

  /** `w & (1 << i)` is not zero. */
  predicate BitSet(w: int, i: nat)
    decreases i
  {
    if i == 0 then w % 2 == 1 else BitSet(w / 2, i - 1)
  }

  lemma {:induction false} OrBitSets(w: nat, i: nat, j: nat)
    ensures BitSet(OrBit(w, i), j) <==> i == j || BitSet(w, j)
    decreases i
  {
    if i > 0 {
      assert OrBit(w, i) / 2 == OrBit(w / 2, i - 1);
      if j > 0 {
        OrBitSets(w / 2, i - 1, j - 1);
      }
    } else if j > 0 {
      assert OrBit(w, 0) / 2 == w / 2;
    }
  }

  lemma {:induction false} NoBitOfZero(i: nat)
    ensures !BitSet(0, i)
  {
    if i > 0 {
      NoBitOfZero(i - 1);
    }
  }

  predicate Holds(t: FlagTest, o: Object)
    requires t.name in o
  {
    if t.byTruth then o[t.name].Truthy() else o[t.name] != NoneV
  }

  /** The value of a flags word after its flag lines; a missing attribute raises. */
  function WordBits(tests: seq<FlagTest>, o: Object): (w: Option<nat>) {
    if tests == [] then
      Some(0)
    else
      var last := tests[|tests| - 1];
      match WordBits(tests[..|tests| - 1], o)
      case None => None
      case Some(w) => if last.name !in o then None else if Holds(last, o) then Some(OrBit(w, last.bit)) else Some(w)
  }

  function RunWrite(c: Codec, i: WriteInstr, o: Object): (w: Option<seq<byte>>) {
    match i
    case WriteWord(_, tests) =>
      var word := WordBits(tests, o);
      if word.Some? then PackSigned(word.value, 4) else None
    case WriteAlways(name, wire) => if name in o then WriteValue(c, wire, o[name]) else None
    case WriteIfNotNone(name, wire) =>
      if name !in o then None else if o[name] == NoneV then Some([]) else WriteValue(c, wire, o[name])
    case WriteIfTruthy(name, wire) =>
      if name !in o then None else if !o[name].Truthy() then Some([]) else WriteValue(c, wire, o[name])
  }

  function RunWriter(c: Codec, code: seq<WriteInstr>, o: Object): (w: Option<seq<byte>>) {
    if code == [] then
      Some([])
    else
      var head, tail := RunWrite(c, code[0], o), RunWriter(c, code[1..], o);
      if head.Some? && tail.Some? then Some(head.value + tail.value) else None
  }

  lemma {:induction false} RunWriterAppend(c: Codec, w1: seq<WriteInstr>, w2: seq<WriteInstr>, o: Object)
    ensures var r1, r2 := RunWriter(c, w1, o), RunWriter(c, w2, o);
            RunWriter(c, w1 + w2, o) == if r1.Some? && r2.Some? then Some(r1.value + r2.value) else None
  {
    if w1 == [] {
      assert w1 + w2 == w2;
      var r2 := RunWriter(c, w2, o);
      if r2.Some? {
        assert [] + r2.value == r2.value;
      }
    } else {
      RunWriterAppend(c, w1[1..], w2, o);
      assert (w1 + w2)[1..] == w1[1..] + w2;
      var head, r1, r2 := RunWrite(c, w1[0], o), RunWriter(c, w1[1..], o), RunWriter(c, w2, o);
      if head.Some? && r1.Some? && r2.Some? {
        assert head.value + (r1.value + r2.value) == head.value + r1.value + r2.value;
      }
    }
  }

  // ----- the emitted reader

  function ReadValue(c: Codec, how: ReadType, b: seq<byte>): (r: Option<(Value, seq<byte>)>) {
    var read := match how case ReadCore(k) => c.readCore(k, b) case ReadBoxed(sub) => ReadBoxedValue(c, sub, b);
    if read.Some? && read.value.1 <= |b| then Some((read.value.0, b[read.value.1..])) else None
  }

  /** `word & (1 << bit)`; a word that has not been read yet is an unbound local. */
  function Flag(env: Object, word: string, bit: nat): (r: Option<bool>) {
    if word in env && env[word].IntV? then
      var IntV(w) := env[word];
      Some(BitSet(w, bit))
    else
      None
  }

  /** Runs the reader's lines over the locals `env` and the rest `b` of the buffer. */
  function RunReader(c: Codec, code: seq<ReadInstr>, env: Object, b: seq<byte>): (r: Option<(Object, seq<byte>)>) {
    if code == [] then
      Some((env, b))
    else
      match RunRead(c, code[0], env, b)
      case None => None
      case Some((v, rest)) => RunReader(c, code[1..], env[Target(code[0]) := v], rest)
  }

  function Target(i: ReadInstr): (name: string) {
    if i.ReadWord? then i.word else i.name
  }

  function RunRead(c: Codec, i: ReadInstr, env: Object, b: seq<byte>): (r: Option<(Value, seq<byte>)>) {
    match i
    case ReadWord(_) =>
      var (v, k) := ReadInt(b, 4);
      Some((v, b[k..]))
    case ReadBit(_, word, bit) =>
      var flag := Flag(env, word, bit);
      if flag.Some? then Some((BoolV(flag.value), b)) else None
    case ReadAlways(_, how) => ReadValue(c, how, b)
    case ReadIfSet(_, word, bit, how, absent) =>
      var flag := Flag(env, word, bit);
      if flag.None? then None else if flag.value then ReadValue(c, how, b) else Some((absent, b))
  }

  // ----- the whole of `write` and `read`, after the constructor id

  function WriteObject(c: Codec, args: seq<Arg>, o: Object): (w: Option<seq<byte>>) {
    RunWriter(c, Writer(args, args), o)
  }

  /** The reader hands the locals of all arguments but the flags words to the constructor. */
  function ReadObject(c: Codec, args: seq<Arg>, b: seq<byte>): (r: Option<(Object, seq<byte>)>) {
    match RunReader(c, Reader(args), map[], b)
    case None => None
    case Some((env, rest)) => Some((Fields(args, env), rest))
  }

  function FieldNames(args: seq<Arg>): (r: set<string>) {
    set a | a in args && !a.ty.FlagsWord? :: a.name
  }

  function Fields(args: seq<Arg>, env: Object): (o: Object) {
    map name | name in FieldNames(args) && name in env :: env[name]
  }

  function WriteArg(c: Codec, args: seq<Arg>, a: Arg, o: Object): (w: Option<seq<byte>>) {
    RunWriter(c, WriteCode(args, a), o)
  }

  lemma ReaderStep(c: Codec, i: ReadInstr, code: seq<ReadInstr>, env: Object, b: seq<byte>)
    ensures RunReader(c, [i] + code, env, b) ==
            match RunRead(c, i, env, b)
            case None => None
            case Some((v, rest)) => RunReader(c, code, env[Target(i) := v], rest)
  {
    assert ([i] + code)[1..] == code;
  }

  // ----- well-formed schema lines and objects

  /** Names are distinct, and an optional argument comes after its flags word. */
  ghost predicate WellFormed(args: seq<Arg>) {
    && DistinctNames(args)
    && (forall i :: 0 <= i < |args| && args[i].IsOptional() ==> WordBefore(args, i))
  }

  ghost predicate DistinctNames(args: seq<Arg>) {
    forall i, j :: 0 <= i < j < |args| ==> args[i].name != args[j].name
  }

  ghost predicate WordBefore(args: seq<Arg>, i: nat)
    requires i < |args| && args[i].IsOptional()
  {
    exists j :: 0 <= j < i && args[j].ty.FlagsWord? && args[j].name == args[i].ty.word
  }

  predicate HasFields(args: seq<Arg>, o: Object) {
    forall a :: a in args && !a.ty.FlagsWord? ==> a.name in o
  }

  /** The optional argument turns its flag bit on. */
  predicate FlagOn(a: Arg, o: Object)
    requires a.IsOptional() && a.name in o
  {
    if a.ty.OptionalTrue? || (a.ty.field.VectorField? && a.ty.field.capital) then o[a.name].Truthy() else o[a.name] != NoneV
  }

  /** The optional argument is there: a set `true` flag, or bytes in the body. */
  predicate Present(a: Arg, o: Object)
    requires a.IsOptional() && a.name in o
  {
    if a.ty.OptionalTrue? || a.ty.field.VectorField? then o[a.name].Truthy() else o[a.name] != NoneV
  }

  predicate SameBit(a: Arg, a': Arg) {
    a.IsOptional() && a'.IsOptional() && a.ty.word == a'.ty.word && a.ty.bit == a'.ty.bit
  }

  /** Whatever turns a flag bit on, every argument that depends on the bit is there. */
  ghost predicate Agree(args: seq<Arg>, o: Object)
    requires HasFields(args, o)
  {
    forall a, a' | a in args && a' in args && SameBit(a, a') && FlagOn(a', o) :: Present(a, o)
  }

  /** What an argument comes back as: an absent `true` as False, an absent vector as []. */
  function Back(a: Arg, o: Object): (v: Value)
    requires !a.ty.FlagsWord? && a.name in o
  {
    match a.ty
    case OptionalTrue(_, _) => BoolV(o[a.name].Truthy())
    case Optional(_, _, VectorField(_, _)) => if o[a.name].Truthy() then o[a.name] else ListV([])
    case _ => o[a.name]
  }

  ghost predicate IsNormalized(args: seq<Arg>, o: Object, r: Object)
    requires HasFields(args, o)
  {
    && r.Keys == FieldNames(args)
    && forall a :: a in args && !a.ty.FlagsWord? ==> a.name in r && r[a.name] == Back(a, o)
  }

  // ----- flags words

  predicate TurnsOn(a: Arg, o: Object, word: string, bit: nat) {
    a.IsOptional() && a.name in o && a.ty.word == word && a.ty.bit == bit && FlagOn(a, o)
  }

  lemma WordLast(word: string, tests: seq<FlagTest>, a: Arg, o: Object)
    requires WordBits(tests, o).Some? && (!a.ty.FlagsWord? ==> a.name in o)
    ensures var on := a.IsOptional() && TurnsOn(a, o, word, a.ty.bit);
            var w := WordBits(tests, o).value;
            WordBits(tests + TestFor(word, a), o) == Some(if on then OrBit(w, a.ty.bit) else w)
  {
    var test := TestFor(word, a);
    if test == [] {
      assert tests + test == tests;
    } else {
      assert (tests + test)[..|tests|] == tests;
    }
  }

  /** A bit of a flags word is set exactly when some argument turns it on. */
  lemma {:induction false} WordBit(word: string, args: seq<Arg>, o: Object, bit: nat)
    requires HasFields(args, o)
    ensures WordBits(TestsFor(word, args), o).Some?
    ensures BitSet(WordBits(TestsFor(word, args), o).value, bit) <==> exists a :: a in args && TurnsOn(a, o, word, bit)
  {
    if args == [] {
      NoBitOfZero(bit);
    } else {
      var init, last := args[..|args| - 1], args[|args| - 1];
      assert args == init + [last];
      WordBit(word, init, o, bit);
      WordLast(word, TestsFor(word, init), last, o);
      if last.IsOptional() {
        OrBitSets(WordBits(TestsFor(word, init), o).value, last.ty.bit, bit);
      }
    }
  }

  function WordOf(args: seq<Arg>, o: Object, word: string): (w: nat)
    requires HasFields(args, o)
  {
    WordBit(word, args, o, 0);
    WordBits(TestsFor(word, args), o).value
  }

  /** Some argument turns the bit on. */
  ghost predicate BitOn(args: seq<Arg>, o: Object, word: string, bit: nat) {
    exists a :: a in args && TurnsOn(a, o, word, bit)
  }

  /** The bit an optional argument depends on tells whether the argument is there. */
  ghost predicate AgreeAt(args: seq<Arg>, o: Object, a: Arg)
    requires HasFields(args, o) && a in args
  {
    a.IsOptional() ==> (BitOn(args, o, a.ty.word, a.ty.bit) <==> Present(a, o))
  }

  lemma AgreeEverywhere(args: seq<Arg>, o: Object)
    requires HasFields(args, o)
    ensures Agree(args, o) <==> forall a :: a in args ==> AgreeAt(args, o, a)
  {
    forall a | a in args && a.IsOptional() && Present(a, o)
      ensures BitOn(args, o, a.ty.word, a.ty.bit)
    {
      assert TurnsOn(a, o, a.ty.word, a.ty.bit);
    }
    if forall a :: a in args ==> AgreeAt(args, o, a) {
      forall a, a' | a in args && a' in args && SameBit(a, a') && FlagOn(a', o)
        ensures Present(a, o)
      {
        assert TurnsOn(a', o, a.ty.word, a.ty.bit);
        assert AgreeAt(args, o, a);
      }
    }
  }

  // ----- the round trip

  ghost predicate WordsRead(args: seq<Arg>, o: Object, i: nat, env: Object)
    requires i <= |args| && HasFields(args, o)
  {
    forall j :: 0 <= j < i && args[j].ty.FlagsWord? ==>
      args[j].name in env && env[args[j].name] == IntV(WordOf(args, o, args[j].name))
  }

  /** The vector this argument writes, if any, is safe from the element-size guess. */
  ghost predicate SafeArg(c: Codec, a: Arg, o: Object, after: seq<byte>)
    requires !a.ty.FlagsWord? ==> a.name in o
  {
    match a.ty
    case Plain(VectorField(_, sub)) => o[a.name].ListV? ==> GuessSafe(c, sub, o[a.name].items, after)
    case Optional(_, _, VectorField(_, sub)) => o[a.name].ListV? ==> GuessSafe(c, sub, o[a.name].items, after)
    case _ => true
  }

  function ReadArgValue(args: seq<Arg>, o: Object, a: Arg): (v: Value)
    requires HasFields(args, o) && a in args
  {
    if a.ty.FlagsWord? then IntV(WordOf(args, o, a.name)) else Back(a, o)
  }

  lemma ValueReadsBack(c: Codec, f: FieldType, v: Value, tail: seq<byte>)
    requires SelfDelimiting(c) && WriteValue(c, Wire(f), v).Some?
    requires f.VectorField? && v.ListV? ==> GuessSafe(c, f.sub, v.items, tail)
    ensures ReadValue(c, How(f), WriteValue(c, Wire(f), v).value + tail) == Some((v, tail))
  {
    var w := WriteValue(c, Wire(f), v).value;
    assert (w + tail)[|w|..] == tail;
    match f {
      case CoreField(k) => assert CoreReadsBack(c, k, v, tail);
      case VectorField(_, sub) => VectorReadsBack(c, sub, v.items, tail);
      case BoxedField =>
        assert ObjectReadsBack(c, v, tail);
        assert (w + tail)[..4] == w[..4];
    }
  }

  lemma RunWriterSingle(c: Codec, i: WriteInstr, o: Object)
    ensures RunWriter(c, [i], o) == RunWrite(c, i, o)
  {
    assert [i][1..] == [];
    var w := RunWrite(c, i, o);
    if w.Some? {
      assert w.value + [] == w.value;
    }
  }

  lemma WordReadsBack(c: Codec, args: seq<Arg>, a: Arg, o: Object, env: Object, rest: seq<byte>)
    requires HasFields(args, o) && a in args && a.ty.FlagsWord? && RunWrite(c, WriteCode(args, a)[0], o).Some?
    ensures RunRead(c, ReadCode(a)[0], env, RunWrite(c, WriteCode(args, a)[0], o).value + rest)
         == Some((ReadArgValue(args, o, a), rest))
  {
    var w := RunWrite(c, WriteCode(args, a)[0], o).value;
    WordBit(a.name, args, o, 0);
    assert w == PackSigned(WordOf(args, o, a.name), 4).value;
    SignedRoundTrip(WordOf(args, o, a.name), 4);
    assert (w + rest)[..4] == w && (w + rest)[4..] == rest;
  }

  lemma OptionalReadsBack(c: Codec, a: Arg, o: Object, env: Object, rest: seq<byte>, i: WriteInstr, w: nat)
    requires SelfDelimiting(c) && a.ty.Optional? && a.name in o && SafeArg(c, a, o, rest)
    requires i == WriteCode([], a)[0] && RunWrite(c, i, o).Some?
    requires a.ty.word in env && env[a.ty.word] == IntV(w) && (BitSet(w, a.ty.bit) <==> Present(a, o))
    ensures RunRead(c, ReadCode(a)[0], env, RunWrite(c, i, o).value + rest) == Some((Back(a, o), rest))
  {
    if Present(a, o) {
      ValueReadsBack(c, a.ty.field, o[a.name], rest);
    } else {
      assert RunWrite(c, i, o).value + rest == rest;
    }
  }

  lemma FlagFromEnv(args: seq<Arg>, i: nat, o: Object, env: Object)
    requires i < |args| && WellFormed(args) && HasFields(args, o)
    requires WordsRead(args, o, i, env) && args[i].IsOptional()
    ensures var a := args[i];
            && a.ty.word in env && env[a.ty.word] == IntV(WordOf(args, o, a.ty.word))
            && (BitSet(WordOf(args, o, a.ty.word), a.ty.bit) <==> BitOn(args, o, a.ty.word, a.ty.bit))
  {
    WordBit(args[i].ty.word, args, o, args[i].ty.bit);
    assert WordBefore(args, i);
  }

  /** One argument: its read line undoes its write line. */
  lemma ArgReadsBack(c: Codec, args: seq<Arg>, i: nat, o: Object, env: Object, rest: seq<byte>)
    requires SelfDelimiting(c) && i < |args| && WellFormed(args) && HasFields(args, o) && AgreeAt(args, o, args[i])
    requires WordsRead(args, o, i, env) && SafeArg(c, args[i], o, rest)
    requires WriteArg(c, args, args[i], o).Some?
    ensures RunRead(c, ReadCode(args[i])[0], env, WriteArg(c, args, args[i], o).value + rest)
         == Some((ReadArgValue(args, o, args[i]), rest))
  {
    var a := args[i];
    var code := WriteCode(args, a);
    if a.IsOptional() {
      FlagFromEnv(args, i, o, env);
    }
    if a.ty.OptionalTrue? {
      assert RunWriter(c, code, o).value + rest == rest;
    } else {
      assert code == [code[0]];
      RunWriterSingle(c, code[0], o);
      if a.ty.FlagsWord? {
        WordReadsBack(c, args, a, o, env, rest);
      } else if a.ty.Optional? {
        OptionalReadsBack(c, a, o, env, rest, code[0], WordOf(args, o, a.ty.word));
      } else {
        ValueReadsBack(c, a.ty.field, o[a.name], rest);
      }
    }
  }

  // ----- what one argument needs in order to come back

  /** Reads of core types never give None, and reads of objects give objects. */
  ghost predicate Typed(c: Codec) {
    && (forall k, b :: c.readCore(k, b).Some? ==> c.readCore(k, b).value.0 != NoneV)
    && (forall b :: c.readObject(b).Some? ==> c.readObject(b).value.0.ObjectV?)
  }

  lemma ReadsSomething(c: Codec, how: ReadType, b: seq<byte>)
    requires Typed(c) && ReadValue(c, how, b).Some?
    ensures ReadValue(c, how, b).value.0 != NoneV
  {
  }

  lemma WrongItems(c: Codec, size: nat, n: nat, b: seq<byte>)
    requires (size == 4 || size == 8) && n > 0
    ensures var r := ReadItems(c, None, size, n, b);
            r.Some? ==> |r.value.0| > 0 && !r.value.0[0].ObjectV?
  {
    var first := ReadItem(c, None, size, b);
    assert !first.value.0.ObjectV?;
  }

  /** A wrong size guess turns boxed elements into numbers. */
  lemma WrongGuess(c: Codec, items: seq<Value>, tail: seq<byte>)
    requires SelfDelimiting(c) && WriteVector(c, None, items).Some? && !GuessSafe(c, None, items, tail)
    ensures var r := ReadBoxedValue(c, None, WriteVector(c, None, items).value + tail);
            r.Some? ==> r.value.0 != ListV(items)
  {
    var body := WriteItems(c, None, items).value;
    VectorHeader(|items|, body + tail);
    assert WriteVector(c, None, items).value + tail == LittleEndian(VECTOR_ID, 4) + PackSigned(|items|, 4).value + (body + tail);
    assert ObjectReadsBack(c, items[0], []);
    WrongItems(c, Guess(|body + tail|, |items|), |items|, body + tail);
  }

  lemma WrongVector(c: Codec, f: FieldType, v: Value, tail: seq<byte>)
    requires SelfDelimiting(c) && f.VectorField? && v.ListV? && WriteValue(c, Wire(f), v).Some? && !GuessSafe(c, f.sub, v.items, tail)
    ensures var r := ReadValue(c, How(f), WriteValue(c, Wire(f), v).value + tail);
            r.Some? ==> r.value.0 != v
  {
    WrongGuess(c, v.items, tail);
  }

  /** Reading an optional argument gives the right value only if its bit is on exactly when it is there. */
  lemma OptionalExact(c: Codec, a: Arg, env: Object, o: Object, b: seq<byte>, w: nat)
    requires Typed(c) && a.IsOptional() && a.name in o && (a.ty.Optional? ==> !a.ty.field.VectorField?)
    requires a.ty.word in env && env[a.ty.word] == IntV(w) && (Present(a, o) ==> BitSet(w, a.ty.bit))
    requires var r := RunRead(c, ReadCode(a)[0], env, b); r.Some? && r.value.0 == Back(a, o)
    ensures BitSet(w, a.ty.bit) <==> Present(a, o)
  {
    if a.ty.Optional? && BitSet(w, a.ty.bit) {
      ReadsSomething(c, How(a.ty.field), b);
    }
  }

  lemma AgreesIfRight(c: Codec, args: seq<Arg>, i: nat, o: Object, env: Object, b: seq<byte>)
    requires Typed(c) && i < |args| && WellFormed(args) && HasFields(args, o) && WordsRead(args, o, i, env)
    requires args[i].IsOptional() && (args[i].ty.Optional? ==> !args[i].ty.field.VectorField?)
    requires var r := RunRead(c, ReadCode(args[i])[0], env, b); r.Some? && r.value.0 == Back(args[i], o)
    ensures AgreeAt(args, o, args[i])
  {
    var a := args[i];
    FlagFromEnv(args, i, o, env);
    if Present(a, o) {
      assert TurnsOn(a, o, a.ty.word, a.ty.bit);
    }
    OptionalExact(c, a, env, o, b, WordOf(args, o, a.ty.word));
  }

  lemma SafeIfRight(c: Codec, args: seq<Arg>, i: nat, o: Object, env: Object, rest: seq<byte>)
    requires SelfDelimiting(c) && i < |args| && WellFormed(args) && HasFields(args, o) && WordsRead(args, o, i, env)
    requires !args[i].ty.FlagsWord? && AgreeAt(args, o, args[i]) && WriteArg(c, args, args[i], o).Some?
    requires var r := RunRead(c, ReadCode(args[i])[0], env, WriteArg(c, args, args[i], o).value + rest);
             r.Some? && r.value.0 == Back(args[i], o)
    ensures SafeArg(c, args[i], o, rest)
  {
    var a := args[i];
    var code := WriteCode(args, a);
    if a.ty.Plain? {
      assert code == [code[0]];
      RunWriterSingle(c, code[0], o);
      PlainSafe(c, a, o, rest, code[0], env);
    } else if a.ty.Optional? {
      assert code == [code[0]];
      RunWriterSingle(c, code[0], o);
      FlagFromEnv(args, i, o, env);
      OptionalSafe(c, a, o, rest, code[0], env, WordOf(args, o, a.ty.word));
    }
  }

  lemma PlainSafe(c: Codec, a: Arg, o: Object, rest: seq<byte>, i: WriteInstr, env: Object)
    requires SelfDelimiting(c) && a.ty.Plain? && a.name in o && i == WriteCode([], a)[0] && RunWrite(c, i, o).Some?
    requires var r := RunRead(c, ReadCode(a)[0], env, RunWrite(c, i, o).value + rest); r.Some? && r.value.0 == Back(a, o)
    ensures SafeArg(c, a, o, rest)
  {
    if !SafeArg(c, a, o, rest) {
      WrongVector(c, a.ty.field, o[a.name], rest);
    }
  }

  lemma OptionalSafe(c: Codec, a: Arg, o: Object, rest: seq<byte>, i: WriteInstr, env: Object, w: nat)
    requires SelfDelimiting(c) && a.ty.Optional? && a.name in o && i == WriteCode([], a)[0] && RunWrite(c, i, o).Some?
    requires a.ty.word in env && env[a.ty.word] == IntV(w) && (BitSet(w, a.ty.bit) <==> Present(a, o))
    requires var r := RunRead(c, ReadCode(a)[0], env, RunWrite(c, i, o).value + rest); r.Some? && r.value.0 == Back(a, o)
    ensures SafeArg(c, a, o, rest)
  {
    if !SafeArg(c, a, o, rest) {
      WrongVector(c, a.ty.field, o[a.name], rest);
    }
  }
}
