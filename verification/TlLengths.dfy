/**
 How many bytes the emitted reader takes: a value that is read back right takes at least the bytes that writing it gives.
 */
module TlLengths {
  import opened Bytes
  import opened TlSchema
  import opened TlCodec

  predicate CoreMeasuredAt(c: Codec, k: Core, b: seq<byte>) {
    var r := c.readCore(k, b);
    r.Some? && r.value.1 < |b| && c.writeCore(k, r.value.0).Some? ==> r.value.1 >= |c.writeCore(k, r.value.0).value|
  }

  predicate ObjectMeasuredAt(c: Codec, b: seq<byte>) {
    var r := c.readObject(b);
    r.Some? && r.value.1 < |b| && c.writeObject(r.value.0).Some? ==> r.value.1 >= |c.writeObject(r.value.0).value|
  }

  /** Unless it runs into the end of the buffer, reading a value takes at least the bytes that writing it gives. */
  ghost predicate Measured(c: Codec) {
    && (forall k, b :: CoreMeasuredAt(c, k, b))
    && (forall b :: ObjectMeasuredAt(c, b))
  }

  lemma {:induction false} ItemsBound(c: Codec, sub: Option<Core>, size: nat, n: nat, b: seq<byte>)
    requires ReadItems(c, sub, size, n, b).Some?
    ensures ReadItems(c, sub, size, n, b).value.1 <= |b| && |ReadItems(c, sub, size, n, b).value.0| == n
    decreases n
  {
    if n > 0 {
      var (v, k) := ReadItem(c, sub, size, b).value;
      ItemsBound(c, sub, size, n - 1, b[k..]);
    }
  }

  /** One element of a vector. */
  lemma ItemTakes(c: Codec, sub: Option<Core>, size: nat, b: seq<byte>)
    requires SelfDelimiting(c) && Typed(c) && Measured(c) && ReadItem(c, sub, size, b).Some?
    requires ReadItem(c, sub, size, b).value.1 < |b|
    requires WriteItem(c, sub, ReadItem(c, sub, size, b).value.0).Some?
    ensures ReadItem(c, sub, size, b).value.1 >= |WriteItem(c, sub, ReadItem(c, sub, size, b).value.0).value|
  {
    var (v, k) := ReadItem(c, sub, size, b).value;
    if sub.Some? {
      assert CoreMeasuredAt(c, sub.value, b);
    } else {
      assert ObjectReadsBack(c, v, []);
      assert ObjectMeasuredAt(c, b);
    }
  }

  lemma {:induction false} ItemsTake(c: Codec, sub: Option<Core>, size: nat, n: nat, b: seq<byte>)
    requires SelfDelimiting(c) && Typed(c) && Measured(c) && ReadItems(c, sub, size, n, b).Some?
    requires ReadItems(c, sub, size, n, b).value.1 < |b|
    requires WriteItems(c, sub, ReadItems(c, sub, size, n, b).value.0).Some?
    ensures ReadItems(c, sub, size, n, b).value.1 >= |WriteItems(c, sub, ReadItems(c, sub, size, n, b).value.0).value|
    decreases n
  {
    if n > 0 {
      var (v, k) := ReadItem(c, sub, size, b).value;
      var vs := ReadItems(c, sub, size, n - 1, b[k..]).value.0;
      assert ([v] + vs)[0] == v && ([v] + vs)[1..] == vs;
      ItemTakes(c, sub, size, b);
      ItemsTake(c, sub, size, n - 1, b[k..]);
    }
  }

  /** A vector takes its header at least; with bytes left over, it takes as many as writing it gives. */
  lemma VectorTakes(c: Codec, sub: Option<Core>, b: seq<byte>)
    requires SelfDelimiting(c) && Typed(c) && Measured(c)
    requires ReadBoxedValue(c, sub, b).Some? && ReadBoxedValue(c, sub, b).value.0.ListV?
    ensures var (v, n) := ReadBoxedValue(c, sub, b).value;
            n >= 4 && (n < |b| && WriteVector(c, sub, v.items).Some? ==> n >= |WriteVector(c, sub, v.items).value|)
  {
    var rest := b[4..];
    var (IntV(count), k) := ReadInt(rest, 4);
    var left := rest[k..];
    var n := if count > 0 then count else 0;
    ItemsBound(c, sub, Guess(|left|, count), n, left);
    var items := ReadItems(c, sub, Guess(|left|, count), n, left).value.0;
    if WriteVector(c, sub, items).Some? && ReadBoxedValue(c, sub, b).value.1 < |b| {
      ItemsTake(c, sub, Guess(|left|, count), n, left);
    }
  }

  /** A value that is read with bytes left over takes at least the bytes that writing it gives. */
  lemma ValueTakes(c: Codec, f: FieldType, b: seq<byte>)
    requires SelfDelimiting(c) && Typed(c) && Measured(c) && ReadValue(c, How(f), b).Some?
    requires ReadValue(c, How(f), b).value.1 != [] && WriteValue(c, Wire(f), ReadValue(c, How(f), b).value.0).Some?
    ensures var (v, rest) := ReadValue(c, How(f), b).value;
            |b| - |rest| >= |WriteValue(c, Wire(f), v).value|
  {
    var (v, rest) := ReadValue(c, How(f), b).value;
    match f {
      case CoreField(k) =>
        assert CoreMeasuredAt(c, k, b);
      case BoxedField =>
        assert ObjectReadsBack(c, v, []);
        assert ObjectMeasuredAt(c, b);
      case VectorField(_, sub) =>
        VectorTakes(c, sub, b);
    }
  }
}
