/**
 The pure Python block modes of `aes.py` over an abstract block cipher: `xor` on integers, IGE and CTR.
 */
module BlockModes {
  import opened Bytes

  // ----- `^` on natural numbers

  function Xor(a: nat, b: nat): (r: nat) {
    if a == 0 && b == 0 then 0 else 2 * Xor(a / 2, b / 2) + (if a % 2 == b % 2 then 0 else 1)
  }

  /** `a << k`. */
  function Shift(a: nat, k: nat): (r: nat)
    ensures a > 0 ==> r > 0
    decreases k
  {
    if k == 0 then a else 2 * Shift(a, k - 1)
  }

  /** Low bits and high bits do not interact. */
  lemma {:induction false} XorSplit(k: nat, a: nat, x: nat, b: nat, y: nat)
    requires x < Shift(1, k) && y < Shift(1, k)
    ensures Xor(Shift(a, k) + x, Shift(b, k) + y) == Shift(Xor(a, b), k) + Xor(x, y)
    decreases k
  {
    if k > 0 {
      ShiftHalf(a, k, x);
      ShiftHalf(b, k, y);
      XorSplit(k - 1, a, x / 2, b, y / 2);
      XorSplitBit(Shift(a, k) + x, Shift(b, k) + y, Shift(a, k - 1) + x / 2, Shift(b, k - 1) + y / 2,
                  Shift(Xor(a, b), k - 1), x, y);
    }
  }

  lemma ShiftHalf(a: nat, k: nat, x: nat)
    requires k > 0 && x < Shift(1, k)
    ensures x / 2 < Shift(1, k - 1)
    ensures (Shift(a, k) + x) / 2 == Shift(a, k - 1) + x / 2 && (Shift(a, k) + x) % 2 == x % 2
  {
    var half := Shift(a, k - 1);
    assert Shift(a, k) == 2 * half && Shift(1, k) == 2 * Shift(1, k - 1);
  }

  /** One bit of the split: `high` is what the high bits contribute to the halves. */
  lemma XorSplitBit(m: nat, n: nat, m': nat, n': nat, high: nat, x: nat, y: nat)
    requires m / 2 == m' && n / 2 == n' && m % 2 == x % 2 && n % 2 == y % 2
    requires Xor(m', n') == high + Xor(x / 2, y / 2)
    ensures Xor(m, n) == 2 * high + Xor(x, y)
  {
    XorStep(m, n);
    XorStep(x, y);
  }

  lemma XorStep(a: nat, b: nat)
    ensures Xor(a, b) == 2 * Xor(a / 2, b / 2) + (if a % 2 == b % 2 then 0 else 1)
  {
  }

  lemma {:induction false} XorBound(k: nat, x: nat, y: nat)
    requires x < Shift(1, k) && y < Shift(1, k)
    ensures Xor(x, y) < Shift(1, k)
    decreases k
  {
    if k > 0 {
      XorBound(k - 1, x / 2, y / 2);
      XorStep(x, y);
    }
  }

  lemma {:induction false} XorTwice(a: nat, b: nat)
    ensures Xor(Xor(a, b), b) == a
    decreases a + b
  {
    if a != 0 || b != 0 {
      XorTwice(a / 2, b / 2);
      XorStep(a, b);
      var bit := if a % 2 == b % 2 then 0 else 1;
      var x := Xor(a, b);
      assert x / 2 == Xor(a / 2, b / 2) && x % 2 == bit;
      XorStep(x, b);
    }
  }

  lemma Shift8(a: nat)
    ensures Shift(a, 8) == 256 * a
  {
    assert Shift(a, 4) == 16 * a;
    assert Shift(a, 6) == 4 * Shift(a, 4);
  }

  function XorByte(a: byte, b: byte): (r: byte) {
    Shift8(1);
    XorBound(8, a, b);
    Xor(a, b)
  }

  lemma XorByteTwice(a: byte, b: byte)
    ensures XorByte(XorByte(a, b), b) == a
  {
    XorTwice(a, b);
  }

  lemma XorAppend(a: nat, x: byte, b: nat, y: byte)
    ensures Xor(256 * a + x, 256 * b + y) == 256 * Xor(a, b) + XorByte(x, y)
  {
    Shift8(1);
    Shift8(a);
    Shift8(b);
    Shift8(Xor(a, b));
    XorSplit(8, a, x, b, y);
  }

  // ----- `xor` of byte strings, through integers

  /** Bytewise exclusive or. */
  function XorBytes(a: seq<byte>, b: seq<byte>): (r: seq<byte>)
    requires |a| == |b|
    ensures |r| == |a|
  {
    seq(|a|, i requires 0 <= i < |a| => XorByte(a[i], b[i]))
  }

  /** `int.to_bytes(int.from_bytes(a) ^ int.from_bytes(b), len(a))`; a value that does not fit raises. */
  function XorInt(a: seq<byte>, b: seq<byte>): (r: Option<seq<byte>>) {
    var v := Xor(FromBigEndian(a), FromBigEndian(b));
    if v < Base(|a|) then Some(BigEndian(v, |a|)) else None
  }

  lemma {:induction false} XorOfValues(a: seq<byte>, b: seq<byte>)
    requires |a| == |b|
    ensures Xor(FromBigEndian(a), FromBigEndian(b)) == FromBigEndian(XorBytes(a, b))
  {
    if a != [] {
      var n := |a| - 1;
      XorOfValues(a[..n], b[..n]);
      XorAppend(FromBigEndian(a[..n]), a[n], FromBigEndian(b[..n]), b[n]);
      assert XorBytes(a, b)[..n] == XorBytes(a[..n], b[..n]);
    }
  }

  /** On equal lengths the integer form is the bytewise exclusive or. */
  lemma XorIntIsBytewise(a: seq<byte>, b: seq<byte>)
    requires |a| == |b|
    ensures XorInt(a, b) == Some(XorBytes(a, b))
  {
    XorOfValues(a, b);
    FromBigEndianBound(XorBytes(a, b));
    BigEndianOnto(XorBytes(a, b));
  }

  lemma {:induction false} LeadingZeros(n: nat, b: seq<byte>)
    ensures FromBigEndian(Zeros(n) + b) == FromBigEndian(b)
    decreases n + |b|
  {
    var s := Zeros(n) + b;
    if b != [] {
      assert s[..|s| - 1] == Zeros(n) + b[..|b| - 1];
      LeadingZeros(n, b[..|b| - 1]);
    } else if n > 0 {
      assert s[..n - 1] == Zeros(n - 1) + b;
      LeadingZeros(n - 1, b);
    }
  }

  /** A shorter second argument is aligned to the right. */
  lemma XorIntShort(a: seq<byte>, b: seq<byte>)
    requires |b| <= |a|
    ensures XorInt(a, b) == Some(XorBytes(a, Zeros(|a| - |b|) + b))
  {
    LeadingZeros(|a| - |b|, b);
    XorIntIsBytewise(a, Zeros(|a| - |b|) + b);
  }

  lemma XorBytesTwice(a: seq<byte>, b: seq<byte>)
    requires |a| == |b|
    ensures XorBytes(XorBytes(a, b), b) == a
  {
    forall i | 0 <= i < |a|
      ensures XorBytes(XorBytes(a, b), b)[i] == a[i]
    {
      XorByteTwice(a[i], b[i]);
    }
  }

  // ----- blocks

  type Block = b: seq<byte> | |b| == 16 witness Zeros(16)

  /** A block cipher under a fixed key. */
  type BlockFunction = Block -> Block

  predicate InvertsAt(enc: BlockFunction, dec: BlockFunction, b: Block) {
    dec(enc(b)) == b
  }

  ghost predicate Inverts(enc: BlockFunction, dec: BlockFunction) {
    forall b: Block :: InvertsAt(enc, dec, b)
  }

  function Split(data: seq<byte>): (r: seq<Block>)
    requires |data| % 16 == 0
    ensures |r| == |data| / 16
  {
    if data == [] then [] else [data[..16]] + Split(data[16..])
  }

  function Concat(blocks: seq<Block>): (r: seq<byte>)
    ensures |r| == 16 * |blocks|
  {
    if blocks == [] then [] else blocks[0] + Concat(blocks[1..])
  }

  lemma {:induction false} ConcatSplit(data: seq<byte>)
    requires |data| % 16 == 0
    ensures Concat(Split(data)) == data
  {
    if data != [] {
      ConcatSplit(data[16..]);
      assert data == data[..16] + data[16..];
    }
  }

  lemma {:induction false} SplitConcat(blocks: seq<Block>)
    ensures Split(Concat(blocks)) == blocks
  {
    if blocks != [] {
      SplitConcat(blocks[1..]);
      var data := Concat(blocks);
      assert data[..16] == blocks[0] && data[16..] == Concat(blocks[1..]);
      assert [blocks[0]] + blocks[1..] == blocks;
    }
  }
}
