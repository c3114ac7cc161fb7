/**
 AES in infinite garble extension mode, as `ige` writes it.
 */
module Ige {
  import opened Bytes
  import opened BlockModes

  function XorBlock(a: Block, b: Block): (r: Block) {
    XorBytes(a, b)
  }

  lemma XorBlockTwice(a: Block, b: Block)
    ensures XorBlock(XorBlock(a, b), b) == a
  {
    XorBytesTwice(a, b);
  }

  /** Each ciphertext block masks the next plaintext block, and the other way round. */
  function Encrypt(enc: BlockFunction, blocks: seq<Block>, iv1: Block, iv2: Block): (r: seq<Block>)
    ensures |r| == |blocks|
  {
    if blocks == [] then []
    else
      var c := XorBlock(enc(XorBlock(blocks[0], iv1)), iv2);
      [c] + Encrypt(enc, blocks[1..], c, blocks[0])
  }

  function Decrypt(dec: BlockFunction, blocks: seq<Block>, iv1: Block, iv2: Block): (r: seq<Block>)
    ensures |r| == |blocks|
  {
    if blocks == [] then []
    else
      var p := XorBlock(dec(XorBlock(blocks[0], iv2)), iv1);
      [p] + Decrypt(dec, blocks[1..], blocks[0], p)
  }

  /** Decryption inverts encryption block by block. */
  lemma {:induction false} DecryptEncrypt(enc: BlockFunction, dec: BlockFunction, blocks: seq<Block>, iv1: Block, iv2: Block)
    requires Inverts(enc, dec)
    ensures Decrypt(dec, Encrypt(enc, blocks, iv1, iv2), iv1, iv2) == blocks
  {
    if blocks != [] {
      var x := enc(XorBlock(blocks[0], iv1));
      var c := XorBlock(x, iv2);
      XorBlockTwice(x, iv2);
      assert InvertsAt(enc, dec, XorBlock(blocks[0], iv1));
      XorBlockTwice(blocks[0], iv1);
      DecryptEncrypt(enc, dec, blocks[1..], c, blocks[0]);
      assert Encrypt(enc, blocks, iv1, iv2)[1..] == Encrypt(enc, blocks[1..], c, blocks[0]);
      assert [blocks[0]] + blocks[1..] == blocks;
    }
  }

  lemma {:induction false} EncryptSnoc(enc: BlockFunction, blocks: seq<Block>, iv1: Block, iv2: Block, i: nat)
    requires i < |blocks|
    ensures var r := Encrypt(enc, blocks, iv1, iv2);
            r[i] == XorBlock(enc(XorBlock(blocks[i], if i == 0 then iv1 else r[i - 1])), if i == 0 then iv2 else blocks[i - 1])
  {
    if i > 0 {
      EncryptSnoc(enc, blocks[1..], Encrypt(enc, blocks, iv1, iv2)[0], blocks[0], i - 1);
    }
  }

  lemma {:induction false} DecryptSnoc(dec: BlockFunction, blocks: seq<Block>, iv1: Block, iv2: Block, i: nat)
    requires i < |blocks|
    ensures var r := Decrypt(dec, blocks, iv1, iv2);
            r[i] == XorBlock(dec(XorBlock(blocks[i], if i == 0 then iv2 else r[i - 1])), if i == 0 then iv1 else blocks[i - 1])
  {
    if i > 0 {
      DecryptSnoc(dec, blocks[1..], blocks[0], Decrypt(dec, blocks, iv1, iv2)[0], i - 1);
    }
  }

  /** The whole mode on byte strings. */
  function Mode(f: BlockFunction, data: seq<byte>, iv: seq<byte>, encrypt: bool): (r: seq<byte>)
    requires |data| % 16 == 0 && |iv| == 32
    ensures |r| == |data|
  {
    var blocks := Split(data);
    Concat(if encrypt then Encrypt(f, blocks, iv[..16], iv[16..]) else Decrypt(f, blocks, iv[..16], iv[16..]))
  }

  /** For every whole-block message and 32-byte iv, decrypting the encryption gives the message back. */
  lemma RoundTrip(enc: BlockFunction, dec: BlockFunction, data: seq<byte>, iv: seq<byte>)
    requires Inverts(enc, dec) && |data| % 16 == 0 && |iv| == 32
    ensures Mode(dec, Mode(enc, data, iv, true), iv, false) == data
  {
    var cipher := Encrypt(enc, Split(data), iv[..16], iv[16..]);
    SplitConcat(cipher);
    DecryptEncrypt(enc, dec, Split(data), iv[..16], iv[16..]);
    ConcatSplit(data);
  }

  /** `xor(f(xor(chunk, a)), b)` with the integer-based `xor`. */
  method Turn(f: BlockFunction, chunk: Block, a: Block, b: Block) returns (r: Block)
    ensures r == XorBlock(f(XorBlock(chunk, a)), b)
  {
    XorIntIsBytewise(chunk, a);
    var x: Block := XorInt(chunk, a).value;
    XorIntIsBytewise(f(x), b);
    r := XorInt(f(x), b).value;
  }

  /** The encrypting loop: the chunk list is rewritten in place. */
  method EncryptLoop(f: BlockFunction, input: seq<Block>, iv1: Block, iv2: Block) returns (blocks: seq<Block>)
    ensures blocks == Encrypt(f, input, iv1, iv2)
  {
    var a, b := iv1, iv2;
    blocks := input;
    ghost var goal := Encrypt(f, input, iv1, iv2);
    for i := 0 to |input|
      invariant |blocks| == |input| && blocks[i..] == input[i..] && blocks[..i] == goal[..i]
      invariant a == (if i == 0 then iv1 else goal[i - 1]) && b == (if i == 0 then iv2 else input[i - 1])
    {
      var chunk := blocks[i];
      assert chunk == input[i..][0];
      EncryptSnoc(f, input, iv1, iv2, i);
      a := Turn(f, chunk, a, b);
      blocks := blocks[i := a];
      b := chunk;
      assert goal[..i + 1] == goal[..i] + [goal[i]];
    }
  }

  /** The decrypting loop, with the two halves of the iv exchanged. */
  method DecryptLoop(f: BlockFunction, input: seq<Block>, iv1: Block, iv2: Block) returns (blocks: seq<Block>)
    ensures blocks == Decrypt(f, input, iv1, iv2)
  {
    var a, b := iv1, iv2;
    blocks := input;
    ghost var goal := Decrypt(f, input, iv1, iv2);
    for i := 0 to |input|
      invariant |blocks| == |input| && blocks[i..] == input[i..] && blocks[..i] == goal[..i]
      invariant b == (if i == 0 then iv2 else goal[i - 1]) && a == (if i == 0 then iv1 else input[i - 1])
    {
      var chunk := blocks[i];
      assert chunk == input[i..][0];
      DecryptSnoc(f, input, iv1, iv2, i);
      b := Turn(f, chunk, b, a);
      blocks := blocks[i := b];
      a := chunk;
      assert goal[..i + 1] == goal[..i] + [goal[i]];
    }
  }

  /** `ige(data, key, iv, encrypt)`: a last chunk shorter than a block raises. */
  method Ige(f: BlockFunction, data: seq<byte>, iv: seq<byte>, encrypt: bool) returns (r: Option<seq<byte>>)
    requires |iv| == 32
    ensures r.Some? <==> |data| % 16 == 0
    ensures r.Some? ==> r.value == Mode(f, data, iv, encrypt)
  {
    if |data| % 16 != 0 {
      return None;
    }
    var blocks;
    if encrypt {
      blocks := EncryptLoop(f, Split(data), iv[..16], iv[16..]);
    } else {
      blocks := DecryptLoop(f, Split(data), iv[..16], iv[16..]);
    }
    r := Some(Concat(blocks));
  }

  // ----- the mode, block by block

  function BlockAt(b: seq<byte>, i: nat): (r: Block)
    requires 16 * i + 16 <= |b|
  {
    b[16 * i..16 * i + 16]
  }

  lemma {:induction false} ConcatAt(blocks: seq<Block>, i: nat)
    requires i < |blocks|
    ensures BlockAt(Concat(blocks), i) == blocks[i]
  {
    if i > 0 {
      ConcatAt(blocks[1..], i - 1);
      assert Concat(blocks) == blocks[0] + Concat(blocks[1..]);
      assert BlockAt(Concat(blocks), i) == BlockAt(Concat(blocks[1..]), i - 1);
    }
  }

  lemma SplitAt(data: seq<byte>, i: nat)
    requires |data| % 16 == 0 && 16 * i + 16 <= |data|
    ensures Split(data)[i] == BlockAt(data, i)
  {
    ConcatSplit(data);
    ConcatAt(Split(data), i);
  }

  /** Encryption: the first half of the iv masks the first block before the cipher and the second half after it;
      after that the block before in the ciphertext and in the plaintext do. */
  lemma EncryptedBlock(f: BlockFunction, data: seq<byte>, iv: seq<byte>, i: nat)
    requires |data| % 16 == 0 && |iv| == 32 && 16 * i + 16 <= |data|
    ensures var r := Mode(f, data, iv, true);
            var before: Block := if i == 0 then iv[..16] else BlockAt(r, i - 1);
            var after: Block := if i == 0 then iv[16..] else BlockAt(data, i - 1);
            BlockAt(r, i) == XorBytes(f(XorBytes(BlockAt(data, i), before)), after)
  {
    var blocks := Split(data);
    var r := Encrypt(f, blocks, iv[..16], iv[16..]);
    EncryptSnoc(f, blocks, iv[..16], iv[16..], i);
    ConcatAt(r, i);
    SplitAt(data, i);
    if i > 0 {
      ConcatAt(r, i - 1);
      SplitAt(data, i - 1);
    }
  }

  /** Decryption: the second half of the iv masks the first block before the cipher and the first half after it. */
  lemma DecryptedBlock(f: BlockFunction, data: seq<byte>, iv: seq<byte>, i: nat)
    requires |data| % 16 == 0 && |iv| == 32 && 16 * i + 16 <= |data|
    ensures var r := Mode(f, data, iv, false);
            var before: Block := if i == 0 then iv[16..] else BlockAt(r, i - 1);
            var after: Block := if i == 0 then iv[..16] else BlockAt(data, i - 1);
            BlockAt(r, i) == XorBytes(f(XorBytes(BlockAt(data, i), before)), after)
  {
    var blocks := Split(data);
    var r := Decrypt(f, blocks, iv[..16], iv[16..]);
    DecryptSnoc(f, blocks, iv[..16], iv[16..], i);
    ConcatAt(r, i);
    SplitAt(data, i);
    if i > 0 {
      ConcatAt(r, i - 1);
      SplitAt(data, i - 1);
    }
  }
}
