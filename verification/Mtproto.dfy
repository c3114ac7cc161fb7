/**
 The encrypted message envelope of `mtproto.py`: `pack`, `unpack` and their padding rules.
 Hash and cipher are parameters.
 */
module Mtproto {
  import opened Bytes
  import opened BlockModes
  import Ige

  /** SHA-256 and AES under each key. */
  datatype Crypto = Crypto(
    hash: seq<byte> -> seq<byte>,
    enc: seq<byte> -> BlockFunction,
    dec: seq<byte> -> BlockFunction)

  predicate HashesAt(c: Crypto, b: seq<byte>) {
    |c.hash(b)| == 32
  }

  predicate CiphersAt(c: Crypto, key: seq<byte>, b: Block) {
    InvertsAt(c.enc(key), c.dec(key), b)
  }

  ghost predicate Sound(c: Crypto) {
    && (forall b :: HashesAt(c, b))
    && (forall key, b :: CiphersAt(c, key, b))
  }

  datatype Message = Message(msgId: int, seqNo: int, length: int, body: seq<byte>)

  datatype Error = AuthKeyMismatch | NotWholeBlocks | SessionMismatch | MsgKeyMismatch | BadPadding | BadAlignment | EvenMsgId

  datatype Result = Ok(message: Message) | Err(error: Error)

  // ----- message headers

  /** `Message.write`. */
  function WriteMessage(m: Message): (w: Option<seq<byte>>) {
    var id, no, len := PackSigned(m.msgId, 8), PackSigned(m.seqNo, 4), PackSigned(m.length, 4);
    if id.Some? && no.Some? && len.Some? then Some(id.value + no.value + len.value + m.body) else None
  }

  /** Python's `b[:n]` and `b[n:]`; a negative `n` counts from the end. */
  function Prefix(b: seq<byte>, n: int): (r: seq<byte>) {
    if n >= 0 then b[..Min(n, |b|)] else if -n <= |b| then b[..|b| + n] else []
  }

  function Suffix(b: seq<byte>, n: int): (r: seq<byte>) {
    if n >= 0 then b[Min(n, |b|)..] else if -n <= |b| then b[|b| + n..] else b
  }

  /** `BytesIO.read(n)` at the front of `b`: a negative count reads everything. */
  function Read(b: seq<byte>, n: int): (r: seq<byte>) {
    if n < 0 then b else Prefix(b, n)
  }

  /** `Message.read`, with the body left as bytes. */
  function ReadMessage(b: seq<byte>): (m: Message) {
    var length := UnpackSigned(Prefix(Suffix(b, 12), 4));
    Message(UnpackSigned(Prefix(b, 8)), UnpackSigned(Prefix(Suffix(b, 8), 4)), length, Read(Suffix(b, 16), length))
  }

  lemma MessageReadsBack(m: Message, tail: seq<byte>)
    requires WriteMessage(m).Some? && m.length == |m.body|
    ensures ReadMessage(WriteMessage(m).value + tail) == m
    ensures Suffix(WriteMessage(m).value + tail, 16) == m.body + tail
  {
    var id, no, len := PackSigned(m.msgId, 8).value, PackSigned(m.seqNo, 4).value, PackSigned(m.length, 4).value;
    var b := WriteMessage(m).value + tail;
    assert b == id + no + len + m.body + tail;
    assert Prefix(b, 8) == id;
    assert Prefix(Suffix(b, 8), 4) == no;
    assert Prefix(Suffix(b, 12), 4) == len;
    assert Suffix(b, 16) == m.body + tail;
    assert Prefix(m.body + tail, |m.body|) == m.body;
    SignedRoundTrip(m.msgId, 8);
    SignedRoundTrip(m.seqNo, 4);
    SignedRoundTrip(m.length, 4);
  }

  // ----- the envelope

  /** `kdf`: the offset `x` is 0 for messages to the server and 8 for messages from it. */
  function KdfKey(c: Crypto, authKey: seq<byte>, msgKey: seq<byte>, x: nat): (r: seq<byte>) {
    var a, b := HashA(c, authKey, msgKey, x), HashB(c, authKey, msgKey, x);
    Prefix(a, 8) + Prefix(Suffix(b, 8), 16) + Suffix(a, 24)
  }

  function KdfIv(c: Crypto, authKey: seq<byte>, msgKey: seq<byte>, x: nat): (r: seq<byte>) {
    var a, b := HashA(c, authKey, msgKey, x), HashB(c, authKey, msgKey, x);
    Prefix(b, 8) + Prefix(Suffix(a, 8), 16) + Suffix(b, 24)
  }

  function HashA(c: Crypto, authKey: seq<byte>, msgKey: seq<byte>, x: nat): (r: seq<byte>) {
    c.hash(msgKey + Prefix(Suffix(authKey, x), 36))
  }

  function HashB(c: Crypto, authKey: seq<byte>, msgKey: seq<byte>, x: nat): (r: seq<byte>) {
    c.hash(Prefix(Suffix(authKey, x + 40), 36) + msgKey)
  }

  lemma IvLength(c: Crypto, authKey: seq<byte>, msgKey: seq<byte>, x: nat)
    requires Sound(c)
    ensures |KdfIv(c, authKey, msgKey, x)| == 32
  {
    assert HashesAt(c, msgKey + Prefix(Suffix(authKey, x), 36));
    assert HashesAt(c, Prefix(Suffix(authKey, x + 40), 36) + msgKey);
  }

  function MsgKey(c: Crypto, authKey: seq<byte>, plain: seq<byte>, x: nat): (r: seq<byte>) {
    Prefix(Suffix(c.hash(Prefix(Suffix(authKey, 88 + x), 32) + plain), 8), 16)
  }

  /** The number of random bytes `pack` draws: `-(len(data) + 12) % 16 + 12`. */
  function PaddingLength(n: nat): (r: nat) {
    (-(n + 12)) % 16 + 12
  }

  /** The padding fills whole blocks and stays inside the range that `unpack` accepts. */
  lemma PaddingFits(n: nat)
    ensures 12 <= PaddingLength(n) <= 27 && (n + PaddingLength(n)) % 16 == 0
  {
  }

  /** What is encrypted: salt, session id, message and padding. */
  function Plain(salt: seq<byte>, sessionId: seq<byte>, message: seq<byte>, padding: seq<byte>): (r: seq<byte>) {
    salt + sessionId + message + padding
  }

  /** `pack` in the direction `x`, for a plain text of whole blocks. */
  function Envelope(c: Crypto, authKey: seq<byte>, authKeyId: seq<byte>, plain: seq<byte>, x: nat): (r: seq<byte>)
    requires Sound(c) && |plain| % 16 == 0
  {
    var msgKey := MsgKey(c, authKey, plain, x);
    IvLength(c, authKey, msgKey, x);
    authKeyId + msgKey + Ige.Mode(c.enc(KdfKey(c, authKey, msgKey, x)), plain, KdfIv(c, authKey, msgKey, x), true)
  }

  /** The checks of `unpack` on the decrypted text, in their order. */
  function CheckPlain(c: Crypto, authKey: seq<byte>, sessionId: seq<byte>, msgKey: seq<byte>, plain: seq<byte>, x: nat): (r: Result) {
    var m := ReadMessage(Suffix(plain, 16));
    var payload := Suffix(plain, 32);
    var padding := Suffix(payload, m.length);
    if Prefix(Suffix(plain, 8), 8) != sessionId then Err(SessionMismatch)
    else if msgKey != MsgKey(c, authKey, plain, x) then Err(MsgKeyMismatch)
    else if !(12 <= |padding| <= 1024) then Err(BadPadding)
    else if |payload| % 4 != 0 then Err(BadAlignment)
    else if m.msgId % 2 == 0 then Err(EvenMsgId)
    else Ok(m)
  }

  /** `unpack` in the direction `x`. */
  function Unpack(c: Crypto, b: seq<byte>, sessionId: seq<byte>, authKey: seq<byte>, authKeyId: seq<byte>, x: nat): (r: Result)
    requires Sound(c)
  {
    var msgKey, rest := Prefix(Suffix(b, 8), 16), Suffix(b, 24);
    IvLength(c, authKey, msgKey, x);
    if Prefix(b, 8) != authKeyId then Err(AuthKeyMismatch)
    else if |rest| % 16 != 0 then Err(NotWholeBlocks)
    else CheckPlain(c, authKey, sessionId, msgKey,
                    Ige.Mode(c.dec(KdfKey(c, authKey, msgKey, x)), rest, KdfIv(c, authKey, msgKey, x), false), x)
  }

  lemma MsgKeyLength(c: Crypto, authKey: seq<byte>, plain: seq<byte>, x: nat)
    requires Sound(c)
    ensures |MsgKey(c, authKey, plain, x)| == 16
  {
    assert HashesAt(c, Prefix(Suffix(authKey, 88 + x), 32) + plain);
  }

  lemma CipherInverts(c: Crypto, key: seq<byte>)
    requires Sound(c)
    ensures Inverts(c.enc(key), c.dec(key))
  {
    forall b: Block
      ensures InvertsAt(c.enc(key), c.dec(key), b)
    {
      assert CiphersAt(c, key, b);
    }
  }

  lemma SplitEnvelope(id: seq<byte>, key: seq<byte>, rest: seq<byte>)
    requires |id| == 8 && |key| == 16
    ensures var b := id + key + rest;
            Prefix(b, 8) == id && Prefix(Suffix(b, 8), 16) == key && Suffix(b, 24) == rest
  {
    var b := id + key + rest;
    assert b[..8] == id && b[8..] == key + rest && b[24..] == rest;
  }

  /** Unsealing what was sealed in the same direction brings the plain text to the checks. */
  lemma UnsealSealed(c: Crypto, authKey: seq<byte>, authKeyId: seq<byte>, sessionId: seq<byte>, plain: seq<byte>, x: nat)
    requires Sound(c) && |plain| % 16 == 0 && |authKeyId| == 8
    ensures Unpack(c, Envelope(c, authKey, authKeyId, plain, x), sessionId, authKey, authKeyId, x)
         == CheckPlain(c, authKey, sessionId, MsgKey(c, authKey, plain, x), plain, x)
  {
    var msgKey := MsgKey(c, authKey, plain, x);
    MsgKeyLength(c, authKey, plain, x);
    IvLength(c, authKey, msgKey, x);
    var key, iv := KdfKey(c, authKey, msgKey, x), KdfIv(c, authKey, msgKey, x);
    var sealed := Ige.Mode(c.enc(key), plain, iv, true);
    SplitEnvelope(authKeyId, msgKey, sealed);
    CipherInverts(c, key);
    Ige.RoundTrip(c.enc(key), c.dec(key), plain, iv);
  }

  /** The errors that opening can end in, by what the opener holds and how long the padding is. */
  function Verdict(m: Message, sameKey: bool, sameSession: bool, padding: nat): (r: Result) {
    if !sameKey then Err(AuthKeyMismatch)
    else if !sameSession then Err(SessionMismatch)
    else if padding < 12 || padding > 1024 then Err(BadPadding)
    else if m.msgId % 2 == 0 then Err(EvenMsgId)
    else Ok(m)
  }

  /**
   A message sealed as `pack` seals it, with any padding to whole blocks, and opened with any key id and session id:
   it is opened exactly if both are its own, the padding has 12 to 1024 bytes and the message id is odd.
   */
  lemma UnpackOfPack(c: Crypto, authKey: seq<byte>, authKeyId: seq<byte>, salt: seq<byte>, sessionId: seq<byte>, m: Message,
      padding: seq<byte>, x: nat, ownKeyId: seq<byte>, ownSession: seq<byte>)
    requires Sound(c) && |authKeyId| == 8 && |salt| == 8 && |sessionId| == 8
    requires WriteMessage(m).Some? && m.length == |m.body|
    requires |Plain(salt, sessionId, WriteMessage(m).value, padding)| % 16 == 0
    ensures Unpack(c, Envelope(c, authKey, authKeyId, Plain(salt, sessionId, WriteMessage(m).value, padding), x), ownSession, authKey, ownKeyId, x)
         == Verdict(m, ownKeyId == authKeyId, ownSession == sessionId, |padding|)
  {
    var plain := Plain(salt, sessionId, WriteMessage(m).value, padding);
    if ownKeyId == authKeyId {
      UnsealSealed(c, authKey, authKeyId, ownSession, plain, x);
      PlainParts(salt, sessionId, m, padding);
      ChecksPass(c, authKey, ownSession, plain, m, padding, x);
    } else {
      EnvelopeBytes(c, authKey, authKeyId, plain, x);
    }
  }

  lemma ChecksPass(c: Crypto, authKey: seq<byte>, ownSession: seq<byte>, plain: seq<byte>, m: Message, padding: seq<byte>, x: nat)
    requires ReadMessage(Suffix(plain, 16)) == m && |plain| % 16 == 0
    requires |Suffix(plain, 32)| == |plain| - 32 && Suffix(Suffix(plain, 32), m.length) == padding
    ensures CheckPlain(c, authKey, ownSession, MsgKey(c, authKey, plain, x), plain, x)
         == Verdict(m, true, ownSession == Prefix(Suffix(plain, 8), 8), |padding|)
  {
    StaysAligned(|plain|);
  }

  /** What opening needs of a plain text of at least 32 bytes: the session id, the message key, 12 to 1024 bytes after
      the body, whole words and an odd id. */
  predicate Passes(c: Crypto, authKey: seq<byte>, sessionId: seq<byte>, msgKey: seq<byte>, plain: seq<byte>, m: Message, x: nat) {
    && |plain| >= 32
    && plain[8..16] == sessionId && MsgKey(c, authKey, plain, x) == msgKey
    && m == ReadMessage(plain[16..]) && m.msgId % 2 == 1 && |plain| % 4 == 0
    && (m.length >= 0 ==> 12 <= |plain| - 32 - m.length <= 1024)
  }

  lemma CheckedPasses(c: Crypto, authKey: seq<byte>, sessionId: seq<byte>, msgKey: seq<byte>, plain: seq<byte>, m: Message, x: nat)
    requires |sessionId| == 8 && CheckPlain(c, authKey, sessionId, msgKey, plain, x) == Ok(m)
    ensures Passes(c, authKey, sessionId, msgKey, plain, m, x)
  {
    var payload := Suffix(plain, 32);
    assert |Suffix(payload, m.length)| <= |payload|;
    Piece(plain, 8, 8);
  }

  /** Whatever bytes are opened, from whomever: they begin with the key id, and their decryption passes every check. */
  lemma OpenedPasses(c: Crypto, b: seq<byte>, sessionId: seq<byte>, authKey: seq<byte>, authKeyId: seq<byte>, x: nat, m: Message)
    requires Sound(c) && |sessionId| == 8 && |authKeyId| == 8 && Unpack(c, b, sessionId, authKey, authKeyId, x) == Ok(m)
    ensures |b| >= 56 && b[..8] == authKeyId && |b[24..]| % 16 == 0
    ensures var msgKey := b[8..24];
            && |KdfIv(c, authKey, msgKey, x)| == 32
            && Passes(c, authKey, sessionId, msgKey,
                 Ige.Mode(c.dec(KdfKey(c, authKey, msgKey, x)), b[24..], KdfIv(c, authKey, msgKey, x), false), m, x)
  {
    var msgKey, rest := Prefix(Suffix(b, 8), 16), Suffix(b, 24);
    IvLength(c, authKey, msgKey, x);
    CheckedPasses(c, authKey, sessionId, msgKey,
      Ige.Mode(c.dec(KdfKey(c, authKey, msgKey, x)), rest, KdfIv(c, authKey, msgKey, x), false), m, x);
    Piece(b, 8, 16);
  }

  lemma StaysAligned(n: int)
    requires n % 16 == 0
    ensures (n - 32) % 4 == 0
  {
  }

  lemma PlainParts(salt: seq<byte>, sessionId: seq<byte>, m: Message, padding: seq<byte>)
    requires |salt| == 8 && |sessionId| == 8 && WriteMessage(m).Some? && m.length == |m.body|
    ensures var plain := Plain(salt, sessionId, WriteMessage(m).value, padding);
            && Prefix(Suffix(plain, 8), 8) == sessionId
            && ReadMessage(Suffix(plain, 16)) == m
            && |Suffix(plain, 32)| == |plain| - 32
            && Suffix(Suffix(plain, 32), m.length) == padding
  {
    var w := WriteMessage(m).value;
    var plain := Plain(salt, sessionId, w, padding);
    assert Suffix(plain, 8) == sessionId + w + padding;
    assert Suffix(plain, 16) == w + padding;
    MessageReadsBack(m, padding);
    assert Suffix(plain, 32) == Suffix(Suffix(plain, 16), 16);
    assert Suffix(m.body + padding, |m.body|) == padding;
  }

  // ----- the bytes

  lemma Piece(b: seq<byte>, at: nat, n: nat)
    requires at + n <= |b|
    ensures Prefix(Suffix(b, at), n) == b[at..at + n]
  {
    assert b[at..][..n] == b[at..at + n];
  }

  lemma HashPieces(c: Crypto, authKey: seq<byte>, msgKey: seq<byte>, x: nat)
    requires Sound(c) && |authKey| == 256 && x <= 8
    ensures HashA(c, authKey, msgKey, x) == c.hash(msgKey + authKey[x..x + 36]) && |HashA(c, authKey, msgKey, x)| == 32
    ensures HashB(c, authKey, msgKey, x) == c.hash(authKey[x + 40..x + 76] + msgKey) && |HashB(c, authKey, msgKey, x)| == 32
  {
    Piece(authKey, x, 36);
    Piece(authKey, x + 40, 36);
    assert HashesAt(c, msgKey + authKey[x..x + 36]);
    assert HashesAt(c, authKey[x + 40..x + 76] + msgKey);
  }

  lemma Mixed(a: seq<byte>, b: seq<byte>)
    requires |a| == 32 && |b| == 32
    ensures Prefix(a, 8) + Prefix(Suffix(b, 8), 16) + Suffix(a, 24) == a[..8] + b[8..24] + a[24..32]
  {
    Piece(b, 8, 16);
    assert a[24..] == a[24..32];
  }

  /** The keys are pieces of two hashes of the message key and pieces of the 2048-bit auth key. */
  lemma KeyPieces(c: Crypto, authKey: seq<byte>, msgKey: seq<byte>, x: nat)
    requires Sound(c) && |authKey| == 256 && x <= 8
    ensures var a, b := c.hash(msgKey + authKey[x..x + 36]), c.hash(authKey[x + 40..x + 76] + msgKey);
            && |a| == 32 && |b| == 32
            && KdfKey(c, authKey, msgKey, x) == a[..8] + b[8..24] + a[24..32]
            && KdfIv(c, authKey, msgKey, x) == b[..8] + a[8..24] + b[24..32]
  {
    HashPieces(c, authKey, msgKey, x);
    Mixed(HashA(c, authKey, msgKey, x), HashB(c, authKey, msgKey, x));
    Mixed(HashB(c, authKey, msgKey, x), HashA(c, authKey, msgKey, x));
  }

  /** The message key is the middle of the hash of a piece of the auth key and the plain text. */
  lemma MsgKeyPiece(c: Crypto, authKey: seq<byte>, plain: seq<byte>, x: nat)
    requires Sound(c) && |authKey| == 256 && x <= 8
    ensures var h := c.hash(authKey[88 + x..120 + x] + plain);
            |h| == 32 && MsgKey(c, authKey, plain, x) == h[8..24]
  {
    Piece(authKey, 88 + x, 32);
    assert HashesAt(c, authKey[88 + x..120 + x] + plain);
    Piece(c.hash(authKey[88 + x..120 + x] + plain), 8, 16);
  }

  /** Eight bytes of id, four of sequence number, four of length, and the body. */
  lemma MessageBytes(m: Message)
    requires WriteMessage(m).Some?
    ensures var w := WriteMessage(m).value;
            && |w| == 16 + |m.body|
            && UnpackSigned(w[..8]) == m.msgId && UnpackSigned(w[8..12]) == m.seqNo && UnpackSigned(w[12..16]) == m.length
            && w[16..] == m.body
  {
    var id, no, len := PackSigned(m.msgId, 8).value, PackSigned(m.seqNo, 4).value, PackSigned(m.length, 4).value;
    var w := id + no + len + m.body;
    assert w[..8] == id && w[8..12] == no && w[12..16] == len && w[16..] == m.body;
    SignedRoundTrip(m.msgId, 8);
    SignedRoundTrip(m.seqNo, 4);
    SignedRoundTrip(m.length, 4);
  }

  /** The envelope: the auth key's id, the message key, and the encryption. */
  lemma EnvelopeBytes(c: Crypto, authKey: seq<byte>, authKeyId: seq<byte>, plain: seq<byte>, x: nat)
    requires Sound(c) && |plain| % 16 == 0 && |authKeyId| == 8
    ensures var b := Envelope(c, authKey, authKeyId, plain, x);
            |b| == 24 + |plain| && b[..8] == authKeyId && b[8..24] == MsgKey(c, authKey, plain, x)
  {
    MsgKeyLength(c, authKey, plain, x);
  }
}
