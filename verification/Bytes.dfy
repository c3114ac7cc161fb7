/**
 Byte strings and the integer encodings the client puts on the wire.
 */
module Bytes {
  import opened Arithmetic

  type byte = x: int | 0 <= x < 256

  datatype Option<+T> = None | Some(value: T)
  {
    predicate IsFailure() {
      None?
    }

    function PropagateFailure<U>(): (r: Option<U>)
      requires None?
    {
      None
    }

    function Extract(): (r: T)
      requires Some?
    {
      value
    }
  }

  function Min(a: nat, b: nat): (r: nat)
    ensures r <= a && r <= b && (r == a || r == b)
  {
    if a <= b then a else b
  }

  function Zeros(n: nat): (r: seq<byte>)
    ensures |r| == n && forall i :: 0 <= i < n ==> r[i] == 0
  {
    seq(n, i => 0)
  }

  /** `256` to the power `n`. */
  function Base(n: nat): (r: nat)
    ensures r > 0
  {
    if n == 0 then 1 else 256 * Base(n - 1)
  }

  // ----- unsigned little endian

  function LittleEndian(v: nat, n: nat): (b: seq<byte>)
    ensures |b| == n
    decreases n, v
  {
    if n == 0 then [] else [v % 256] + LittleEndian(v / 256, n - 1)
  }

  function FromLittleEndian(b: seq<byte>): (v: nat) {
    if b == [] then 0 else b[0] + 256 * FromLittleEndian(b[1..])
  }

  lemma {:induction false} LittleEndianRoundTrip(v: nat, n: nat)
    requires v < Base(n)
    ensures FromLittleEndian(LittleEndian(v, n)) == v
    decreases n
  {
    if n > 0 {
      LittleEndianRoundTrip(v / 256, n - 1);
      assert LittleEndian(v, n)[1..] == LittleEndian(v / 256, n - 1);
    }
  }

  lemma {:induction false} FromLittleEndianBound(b: seq<byte>)
    ensures FromLittleEndian(b) < Base(|b|)
  {
    if b != [] {
      FromLittleEndianBound(b[1..]);
    }
  }

  /** Every byte string is the encoding of its own value. */
  lemma {:induction false} LittleEndianOnto(b: seq<byte>)
    ensures LittleEndian(FromLittleEndian(b), |b|) == b
  {
    if b != [] {
      LittleEndianOnto(b[1..]);
      var v, rest := FromLittleEndian(b), FromLittleEndian(b[1..]);
      DivModUnique(v, 256, rest, b[0]);
      assert [b[0]] + b[1..] == b;
    }
  }

  // ----- signed little endian, two's complement

  /** `v.to_bytes(n, "little", signed=True)`; out of range raises. */
  function PackSigned(v: int, n: nat): (b: Option<seq<byte>>)
    ensures b.Some? <==> 0 <= 2 * v + Base(n) < 2 * Base(n)
    ensures b.Some? ==> |b.value| == n
  {
    if 0 <= 2 * v + Base(n) < 2 * Base(n) then
      Some(LittleEndian(if v < 0 then v + Base(n) else v, n))
    else
      None
  }

  /** `int.from_bytes(b, "little", signed=True)`. */
  function UnpackSigned(b: seq<byte>): (v: int) {
    var u := FromLittleEndian(b);
    if 2 * u < Base(|b|) then u else u - Base(|b|)
  }

  lemma SignedRoundTrip(v: int, n: nat)
    requires PackSigned(v, n).Some?
    ensures UnpackSigned(PackSigned(v, n).value) == v
  {
    LittleEndianRoundTrip(if v < 0 then v + Base(n) else v, n);
  }

  // ----- big endian

  function BigEndian(v: nat, n: nat): (b: seq<byte>)
    ensures |b| == n
    decreases n, v
  {
    if n == 0 then [] else BigEndian(v / 256, n - 1) + [v % 256]
  }

  function FromBigEndian(b: seq<byte>): (v: nat) {
    if b == [] then 0 else 256 * FromBigEndian(b[..|b| - 1]) + b[|b| - 1]
  }

  lemma {:induction false} BigEndianRoundTrip(v: nat, n: nat)
    requires v < Base(n)
    ensures FromBigEndian(BigEndian(v, n)) == v
    decreases n
  {
    if n > 0 {
      BigEndianRoundTrip(v / 256, n - 1);
      assert BigEndian(v, n)[..n - 1] == BigEndian(v / 256, n - 1);
    }
  }

  lemma {:induction false} FromBigEndianBound(b: seq<byte>)
    ensures FromBigEndian(b) < Base(|b|)
  {
    if b != [] {
      FromBigEndianBound(b[..|b| - 1]);
    }
  }

  lemma {:induction false} BigEndianOnto(b: seq<byte>)
    ensures BigEndian(FromBigEndian(b), |b|) == b
  {
    if b != [] {
      var last := |b| - 1;
      BigEndianOnto(b[..last]);
      DivModUnique(FromBigEndian(b), 256, FromBigEndian(b[..last]), b[last]);
      assert b[..last] + [b[last]] == b;
    }
  }
}
