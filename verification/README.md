# Verified models of the client's protocol and codec cores

This project models the parts of an MTProto client for Telegram that carry hard promises, and proves those
promises in Dafny: the session's publication loop, message filter, waiter table and life cycle, the dispatcher's
queue, the authorization loop, factorization by Pollard's rho, the IGE and CTR block modes, the password and
Diffie-Hellman arithmetic, the message envelope, the code that the TL schema compiler emits, the HTML printer and
parser, file ids, and the writer of the fake-TLS greeting. `dafny verify dfyconfig.toml` checks everything.

Code that updates variables or objects is modelled by methods and classes, each proved against a specification
function; expressions and recursion are modelled by functions. Tasks that interleave are modelled as state machines
whose steps are what one task does between two suspensions, or as objects whose methods are such steps; the theorems
hold for every sequence of steps. Randomness, hashes, the block cipher, the clock, the network and user callbacks are
parameters, so that a theorem holds whatever they give.

| file | models |
|---|---|
| `Prime.dfy`, `Arithmetic.dfy` | `decompose` and the number theory it needs |
| `TlSchema.dfy`, `TlCodec.dfy`, `TlLengths.dfy`, `TlRoundTrip.dfy`, `Pipeline.dfy` | the schema compiler, the code it emits, and its interpreter |
| `HtmlMarkup.dfy`, `HtmlUnparse.dfy`, `HtmlStrip.dfy`, `HtmlStripUnparse.dfy`, `HtmlDispatch.dfy`, `HtmlParser.dfy`, `HtmlRoundTrip.dfy`, `Decimals.dfy` | printing and parsing of message entities |
| `BlockModes.dfy`, `Ige.dfy`, `Ctr.dfy`, `Mtproto.dfy` | exclusive or, block modes, message envelope |
| `Srp.dfy` | modular powers, password check, shared key |
| `FileIdText.dfy`, `FileId.dfy` | run lengths, base64, file ids |
| `HelloWriter.dfy`, `HelloTree.dfy` | the greeting's writer and its reference encoding |
| `Receipt.dfy`, `Publication.dfy` | the receipt check and the publication loop |
| `MessageFilter.dfy`, `Waiters.dfy`, `Lifecycle.dfy`, `LifecycleRuns.dfy` | the rest of the session |
| `Dispatcher.dfy`, `Auth.dfy` | the update queue, the endpoint loop |
| `Bytes.dfy`, `Sequences.dfy` | integers as bytes, lists without repetition, runs of a state machine |

## What does not hold

Nine promises one might read into the code do not hold of it. Each is kept as the code has it, with a concrete case
and the condition under which it does hold.

- `decompose` can answer a composite `pq` itself (`Prime.CompositeCanReturnItself`); it does so exactly when the first
  comparison that shares a factor with `pq` is an equality (`Prime.Decompose`).
- A vector of boxed elements whose bytes happen to be 4 or 8 per element is misread (`TlRoundTrip.EightByteElementIsMisread`);
  the emitted pair is inverse exactly when no vector is in that position (`TlRoundTrip.RoundTripExact`).
- `unparse` escapes neither the text before the first tag and after the last one nor the attributes of a tag, so markup
  in the text and, for a reader that ends a tag at its first closing bracket, such a bracket in an address do not survive
  (`HtmlStripUnparse.UnescapedHeadIsLost`, `HtmlStripUnparse.BracketInLinkIsLeft`); the text comes back exactly if neither happens, as long as not both do
  (`HtmlStripUnparse.PrintedTextBackIff`, `HtmlStripUnparse.LossesCanCancel`).
- A printed tag is not always read back as its own kind: a link to a mention or to a mail address, a mention of a negative
  id, an emoji id of 2^63 or more and a date with an unknown format are not; a kind comes back exactly if it is none of these
  (`HtmlDispatch.ReadBackIff`), and whole texts with their entities likewise (`HtmlRoundTrip.ParseOfUnparse`).
- The publication loop packs the payload before it checks the query, so a query that is changed and restored in between
  goes out changed (`Publication.RestoredQueryIsSent`); a write carries the fixed bytes exactly if the query serialised to
  them in the turn that packed it (`Publication.Publication.Invoke`).
- A start that finishes its handshake during a teardown leaves a stopped session marked ready
  (`Lifecycle.RaceLeavesReady`, `Lifecycle.DownIsNotReadyIff`).
- After a restart, an id is accepted again in some run unless it was among the thirty oldest of the window
  (`MessageFilter.AcceptedAgain`, `MessageFilter.ReplayAfterRestartIff`).
- Two stops whose passes both run before the workers end leave sentinels in the queue (`Dispatcher.TwoStops`,
  `Dispatcher.Shutdown`).
- Padding of the greeting ends at offset 517, not at the 513 that the constant's comment names: the size does not count
  the padding's own header (`HelloTree.PaddingEnds`).

## Model

| member | source | states |
|---|---|---|
| `Prime.Decompose` | pyrogram/crypto/prime.py:37-74 | for every odd `pq` of at least 3 and every draw the loops end; the result divides `pq` and lies in 2..pq; the last phase is below 2pq, the fallback stays within one batch; the result is `pq` exactly if the first shared factor is a full collision |
| `Prime.Search` | pyrogram/crypto/prime.py:43-74 | the same for any iterated map that stays below `pq` |
| `Prime.RunPhase` | pyrogram/crypto/prime.py:47-62 | a phase without a common factor has made all its comparisons and all of them were coprime; otherwise the first hit lies in its last batch |
| `Prime.Batch` | pyrogram/crypto/prime.py:57-59 | the running product remembers whether any comparison so far shared a factor, and which was the first |
| `Prime.Fallback` | pyrogram/crypto/prime.py:66-72 | stepping one by one from the start of the batch stops exactly at its first hit |
| `Prime.PhaseCollides` | pyrogram/crypto/prime.py:46-64 | every phase with r >= pq compares two equal terms |
| `Prime.LongPhaseHits` | pyrogram/crypto/prime.py:46-64 | no phase with r >= pq ends without a hit, which bounds the outer loop |
| `Prime.GcdDetects` | pyrogram/crypto/prime.py:61 | the gcd of a batch is 1 exactly if no comparison so far shared a factor |
| `Prime.CompositeCanReturnItself` | pyrogram/crypto/prime.py:66-74 | for pq = 9, c = 8, y = 1 the first hit is an equality |
| `TlSchema.Compile` | compiler/api/compiler.py:539-639 | the generation loop emits, argument by argument, the writer and reader that the specification gives for the whole line |
| `TlSchema.SortArgs` | compiler/api/compiler.py:184-196 | required arguments first, then optional ones, both in schema order, flags words dropped, nothing else lost or added |
| `TlCodec.WordBit` | compiler/api/compiler.py:544-571 | a bit of a flags word is set exactly if some argument of that word and bit turns it on |
| `TlCodec.VectorReadsBack` | pyrogram/raw/core/primitives/vector.py:38-69 | a vector is read back from its bytes unless the element-size guess applies to boxed elements |
| `TlCodec.BareVector` | pyrogram/raw/core/primitives/vector.py:35-63 | a bare vector that fills the buffer with four or eight bytes per element is read element by element, as integers and booleans |
| `TlCodec.VectorBytes` | pyrogram/raw/core/primitives/vector.py:33-69 | a written vector begins with the bytes 15 C4 B5 1C and its count |
| `TlCodec.ArgReadsBack` | compiler/api/compiler.py:576-639 | one argument: its read line undoes its write line and takes exactly its bytes |
| `TlRoundTrip.RoundTrip` | compiler/api/compiler.py:539-639 | the emitted reader on the emitted writer's bytes and any tail returns the object, an absent `true` as False and an absent vector as [], and leaves the tail |
| `TlRoundTrip.RoundTripExact` | compiler/api/compiler.py:539-639 | the round trip succeeds if and only if fields sharing a bit agree on presence and no vector meets the guess: for every object that bytes follow, and at the end of the buffer for objects whose optional vectors agree with their bits |
| `TlRoundTrip.NoAccident` | compiler/api/compiler.py:589-607 | with bytes left over, a bit set for a missing vector is never made good by accident: an empty vector read in its place would use up bytes that later fields need |
| `TlLengths.ValueTakes` | compiler/api/compiler.py:616-639 | a value that is read right, with bytes left over, takes at least the bytes that writing it gives |
| `TlRoundTrip.EightByteElementIsMisread` | pyrogram/raw/core/primitives/vector.py:38-63 | one boxed element of eight bytes at the end of the buffer does not come back |
| `HtmlUnparse.Unparser.Recursive` | pyrogram/parser/html.py:259-276 | a call pushes the tags of one entity and of the entities inside it, in tree order, and counts the entities it took |
| `HtmlUnparse.Unparser.CollectAll` | pyrogram/parser/html.py:285-288 | the main loop pushes the tags of the whole forest |
| `HtmlUnparse.VisitsOnce` | pyrogram/parser/html.py:259-288 | every supported entity is visited once, in sorted order |
| `HtmlUnparse.TreeNests` | pyrogram/parser/html.py:259-288 | entities that are pairwise nested or disjoint form a well-nested forest |
| `HtmlUnparse.TreeHoldsAll` | pyrogram/parser/html.py:259-288 | the forest holds exactly the given entities, with multiplicity |
| `HtmlMarkup.MarksInOrder` | pyrogram/parser/html.py:262-275 | the tags come with non-decreasing offsets, so no sort is needed at the end |
| `HtmlUnparse.Splice` | pyrogram/parser/html.py:290-300 | the backward loop that rewrites the text equals the forward rendering |
| `HtmlUnparse.Unparse` | pyrogram/parser/html.py:278-302 | the printed markup is the rendering of the tags of the forest |
| `HtmlStrip.StripGivesTextBack` | pyrogram/parser/html.py:290-300 | for any tags in brackets of which all vanish or whose text has plain ends: dropping the tags and undoing the escape gives the text back if and only if every tag vanishes and the raw head and end have nothing to strip |
| `HtmlStripUnparse.StartTagIsSingle` | pyrogram/parser/html.py:206-257 | the start tag of a supported kind closes at its end exactly if no attribute holds a closing bracket |
| `HtmlStripUnparse.PrintedTextBackIff` | pyrogram/parser/html.py:196-302 | the same on the output for supported, non-empty, pairwise nested or disjoint entities, with the condition on the entities' own start tags |
| `HtmlStripUnparse.PlainAttributesTextBackIff` | pyrogram/parser/html.py:196-302 | for entities without a closing bracket in an attribute, the text comes back if and only if its raw ends have nothing to strip |
| `HtmlStripUnparse.UnescapedHeadIsLost` | pyrogram/parser/html.py:290-300 | `unparse` of "<x" with a bold "x": the `<` is lost |
| `HtmlStripUnparse.BracketInLinkIsLeft` | pyrogram/parser/html.py:232-235 | `unparse` of "x" linked to ">": a piece of the tag stays in the text |
| `HtmlStripUnparse.LossesCanCancel` | pyrogram/parser/html.py:290-300 | a text and a link that are both out of order and where the text still comes back, so the two conditions cannot be joined without one of them holding |
| `HtmlUnparse.EscapedCharacters` | pyrogram/parser/html.py:297 | exactly five characters are replaced, each by its reference |
| `HtmlStrip.ReferenceUndoesEscape` | pyrogram/parser/html.py:297 | the five references that the escape writes are undone by a decoder that never looks past a tag |
| `HtmlDispatch.ReadBackIff` | pyrogram/parser/html.py:49-123 | the name and attributes printed for a supported kind dispatch back to that kind if and only if a link is neither a mention with an id nor a `mailto:`, a mentioned id is not negative, an emoji id is below 2^63 and a date has one of the nineteen formats; no printed tag is passed over |
| `HtmlDispatch.OpensIff` | pyrogram/parser/html.py:93-121 | the only printed tag that raises is a date with a format outside the nineteen |
| `HtmlDispatch.ReadIsReadable` | pyrogram/parser/html.py:70-92 | what is read from a printed tag is again readable, except an emoji id that comes down by 2^64 and is still too large |
| `HtmlDispatch.FormatBack` | pyrogram/parser/html.py:105-121 | the flags read from a date format show exactly that format |
| `HtmlDispatch.TagNames` | pyrogram/parser/html.py:53-69 | which tag names open which of the kinds without a value, both ways |
| `HtmlDispatch.PrintedTags` | pyrogram/parser/html.py:206-231 | the tags without attributes, letter by letter |
| `HtmlDispatch.PrintedBlocks` | pyrogram/parser/html.py:215-224 | the tags of quotes and of code blocks without a language |
| `HtmlDispatch.PrintedDate` | pyrogram/parser/html.py:244-253 | the tag of a date with and without a format |
| `HtmlDispatch.PrintedAddress` | pyrogram/parser/html.py:215-243 | the tags with an address, an id or a language, letter by letter |
| `HtmlParser.Parser.HandleStartTag` | pyrogram/parser/html.py:49-128 | a tag that opens an entity pushes it on its name's stack at the end of the text with length 0; a tag that is passed over or raises changes nothing |
| `HtmlParser.Parser.HandleData` | pyrogram/parser/html.py:130-137 | every open entity of every stack grows by the new text |
| `HtmlParser.Parser.HandleEndTag` | pyrogram/parser/html.py:139-149 | the innermost entity of that tag is closed; an unmatched tag changes nothing |
| `HtmlParser.FeedReaches` | pyrogram/parser/html.py:125-149 | whatever the events, every open entity has offset + length = length of the text |
| `HtmlRoundTrip.FeedForest` | pyrogram/parser/html.py:49-149 | on a well-nested event stream whose pieces hold no character reference and whose start tags open entities, each entity closes with the kind its tag is read as and exactly the span between its tags |
| `HtmlRoundTrip.EventsAreMarks` | pyrogram/parser/html.py:259-300 | the events of a forest are its tags at the positions where they are spliced in |
| `HtmlRoundTrip.Balanced` | pyrogram/parser/html.py:259-276 | every start tag is closed by its own end tag |
| `HtmlRoundTrip.ParseOfUnparse` | pyrogram/parser/html.py:49-149 | feeding the handlers the printed names, attributes and pieces, with a decoder that never lengthens, returns the same text and the same multiset of entities if and only if no piece between neighbouring tags holds a character reference and every kind is one that is read back from its own tag; no tag is left open then |
| `HtmlRoundTrip.ParseRaisesIff` | pyrogram/parser/html.py:93-106 | it raises exactly if a date has a format outside the nineteen |
| `HtmlRoundTrip.NoUnreadable` | pyrogram/parser/html.py:86-92 | entities that are not read back as themselves cannot make up for each other: an emoji id that is reached by wrapping around needs a still larger one |
| `HtmlRoundTrip.PrintedEvents` | pyrogram/parser/html.py:196-302 | those events are balanced and are exactly the tags that are printed |
| `BlockModes.XorIntIsBytewise` | pyrogram/crypto/aes.py:77-82 | the exclusive or by way of big integers is the bytewise one on equal lengths |
| `BlockModes.XorIntShort` | pyrogram/crypto/aes.py:77-82 | a shorter second argument is aligned to the right |
| `Ige.EncryptLoop` | pyrogram/crypto/aes.py:92-95 | the in-place loop computes the chained mode |
| `Ige.DecryptLoop` | pyrogram/crypto/aes.py:96-99 | the decrypting loop computes its counterpart |
| `Ige.Ige` | pyrogram/crypto/aes.py:84-101 | the mode on bytes, defined exactly for whole blocks |
| `Ige.RoundTrip` | pyrogram/crypto/aes.py:84-101 | if block decryption inverts block encryption, decrypting the encryption gives the message back for every whole-block message and 32-byte iv |
| `Ige.EncryptedBlock` | pyrogram/crypto/aes.py:84-95 | block i of the ciphertext from the plaintext and the halves of the iv: the first half masks the first block before the cipher, the second half after it |
| `Ige.DecryptedBlock` | pyrogram/crypto/aes.py:84-99 | block i of the plaintext, with the halves exchanged |
| `Ctr.Ctr` | pyrogram/crypto/aes.py:103-128 | the in-place loop with iv and state refines the key stream form, and leaves iv and state at the next position |
| `Ctr.ModeAt` | pyrogram/crypto/aes.py:109-126 | byte n is masked with byte (s+n) mod 16 of the encryption of counter v + (s+n)/16 modulo 2^128 (section 6.5 of NIST SP 800-38A) |
| `Ctr.Increment` | pyrogram/crypto/aes.py:119-124 | the carry loop with its exception branch is the successor of a 16-byte counter that wraps around |
| `Ctr.NextCounter` | pyrogram/crypto/aes.py:118-124 | the successor of counter m is counter m + 1 modulo 2^128 |
| `Ctr.CallsCompose` | pyrogram/crypto/aes.py:103-128 | the mode goes on from the position that the wrapped counter shows as from the exact one |
| `Ctr.TwoCalls` | pyrogram/crypto/aes.py:103-128 | two calls that share iv and state encrypt a and b as one call on a + b would, also across the counter's wrap-around |
| `Ctr.Twice` | pyrogram/crypto/aes.py:103-128 | applying the mode twice from the same start restores the data |
| `Ctr.ThereAndBack` | pyrogram/crypto/aes.py:103-128 | a second call from the same iv and state restores the data |
| `Mtproto.PaddingFits` | pyrogram/crypto/mtproto.py:46-47 | the padding has 12 to 27 bytes and fills whole blocks |
| `Mtproto.UnsealSealed` | pyrogram/crypto/mtproto.py:57-66 | opening an envelope of the same direction brings back the plain text and its message key |
| `Mtproto.UnpackOfPack` | pyrogram/crypto/mtproto.py:43-101 | a packed message with any padding, opened with any key id and session id, is opened exactly if both are its own, the padding has 12 to 1024 bytes and the id is odd; otherwise the error of the first check that fails |
| `Mtproto.OpenedPasses` | pyrogram/crypto/mtproto.py:57-101 | whatever bytes are opened begin with the key id, and their decryption has the session id, the message key, the padding and the parity that the checks ask for |
| `Mtproto.MessageReadsBack` | pyrogram/raw/core/message.py:42-58 | a message header and body are read back, whatever follows |
| `Mtproto.KeyPieces` | pyrogram/crypto/mtproto.py:30-40 | the AES key and iv byte by byte from the two hashes, and these from the message key and the pieces of the auth key |
| `Mtproto.MsgKeyPiece` | pyrogram/crypto/mtproto.py:49-51 | the message key is bytes 8 to 24 of the hash of 32 bytes of the auth key and the plain text |
| `Mtproto.MessageBytes` | pyrogram/raw/core/message.py:50-58 | a written message has its id, sequence number, length and body at bytes 0, 8, 12 and 16 |
| `Mtproto.EnvelopeBytes` | pyrogram/crypto/mtproto.py:54 | the envelope begins with the key id and the message key |
| `Srp.SecretsAgree` | pyrogram/utils/crypto.py:80-103 | client and server compute the same secret for every a, b, x, u, k and modulus (section 2.6 of RFC 5054) |
| `Srp.SharedKey` | pyrogram/session/auth.py:210-236 | g_a^b and g_b^a are equal modulo p |
| `Srp.ComputePasswordCheck` | pyrogram/utils/crypto.py:80-103 | the redraw loop ends with a non-zero challenge, and the secret agrees with every server whose public value is B |
| `Srp.PowOne` | pyrogram/utils/crypto.py:80-103 | the powers 0 and 1, which with the addition of exponents fix every power |
| `FileIdText.RleEncode` | pyrogram/file_id.py:60-86 | the loop computes the zero-run encoding and raises exactly if a count exceeds a byte |
| `FileIdText.RleDecode` | pyrogram/file_id.py:89-113 | the loop computes the decoding |
| `FileIdText.FitsIff` | pyrogram/file_id.py:73-86 | the encoder raises exactly if a run of zeros is longer than 255 |
| `FileIdText.RleRoundTrip` | pyrogram/file_id.py:60-113 | decoding undoes encoding whenever the encoder does not raise |
| `FileIdText.B64RoundTrip` | pyrogram/file_id.py:34-57 | unpadded URL-safe base64 (section 5 of RFC 4648) is undone by putting the padding back |
| `FileIdText.KnownEncoding` | pyrogram/file_id.py:34-44 | the alphabet and the order of the bits on a test vector of RFC 4648 |
| `FileIdText.UnwrapWrap` | pyrogram/file_id.py:529 | both layers together: inverse without a run of more than 255 zeros, an error with one |
| `FileId.BytesRoundTrip` | pyrogram/raw/core/primitives/bytes.py:31-50 | a byte string of either length form is read back and exactly its bytes and padding are taken |
| `FileId.UnpackPack` | pyrogram/file_id.py:206-336 | packed signed fields of any widths are unpacked again, whatever follows |
| `FileId.TailRoundTrip` | pyrogram/file_id.py:206-336 | for all ten sources, reading the tail returns the fields the source stores and defaults elsewhere, and takes no byte more |
| `FileId.PhotoRoundTrip` | pyrogram/file_id.py:435-453 | the photo part comes back in both minor layouts |
| `FileId.DecodeOfEncode` | pyrogram/file_id.py:386-529 | with a version both sides agree on, decoding an encoded id gives it back with the fields its layout drops at their defaults |
| `FileId.DecodedIsNormal` | pyrogram/file_id.py:386-485 | every decoded id has such a version and no field outside its layout set |
| `FileId.RoundTripIff` | pyrogram/file_id.py:386-529 | the round trip is exact if and only if the version is agreed on and no field outside the layout is set |
| `FileId.BodyBytes` | pyrogram/file_id.py:491-509 | a written id has its type, with bit 25 for a reference, and its data centre at bytes 0 and 4, then the reference or the media id and access hash at 8 and 16 |
| `FileId.DocumentBytes` | pyrogram/file_id.py:524-525 | a document without a reference carries minor and major version, one with a reference neither |
| `FileId.PhotoBytes` | pyrogram/file_id.py:511-523 | a photo up to minor version 31 begins with its volume id and ends with its local id, from 32 on it has neither; from major version 4 on its source stands before the tail |
| `FileId.TailBytes` | pyrogram/file_id.py:290-336 | where the current layouts of a source put their fields |
| `FileId.LegacyTailBytes` | pyrogram/file_id.py:290-336 | where the older layouts put theirs |
| `HelloWriter.Shuffled` | pyrogram/crypto/faketls.py:339-346 | the in-place swaps keep the multiset of parts for any draws |
| `HelloWriter.EveryOrderIsDrawn` | pyrogram/crypto/faketls.py:339-346 | every order of the parts is the outcome of some draws |
| `HelloWriter.Writer.Render` | pyrogram/crypto/faketls.py:357-361 | the loop over the operations has the state and the errors of the specification |
| `HelloWriter.Writer.Write` | pyrogram/crypto/faketls.py:363-410 | one operation of any kind, with its errors |
| `HelloWriter.Writer.CloseScope` | pyrogram/crypto/faketls.py:412-416 | the length field is patched, or the call raises on an empty stack or a size above 65535 |
| `HelloWriter.Writer.WritePermutation` | pyrogram/crypto/faketls.py:418-428 | each part is rendered by a writer of its own, then the blocks are appended in shuffled order |
| `HelloTree.CloseOfOpen` | pyrogram/crypto/faketls.py:384-416 | closing a scope changes its two bytes and nothing else |
| `HelloTree.RenderIsEncoding` | pyrogram/crypto/faketls.py:357-442 | rendering the operations of a tree appends exactly the tree's length-prefixed encoding (section 3.4 of RFC 8446), leaves earlier bytes and the stack alone, and raises exactly if the tree has no encoding |
| `HelloTree.LayersFlatten` | pyrogram/crypto/faketls.py:384-391 | every list of operations with balanced scopes is the list of a tree |
| `HelloTree.RenderBalanced` | pyrogram/crypto/faketls.py:357-442 | so every balanced list renders to the encoding of its tree, with no scope open |
| `HelloTree.StackEmptyIff` | pyrogram/crypto/faketls.py:384-416 | a rendering that does not raise leaves the stack empty exactly if the scopes close in order |
| `HelloTree.PaddingEnds` | pyrogram/crypto/faketls.py:430-442 | padding before offset 513 always ends at 517, and later does nothing |
| `Receipt.Gather` | pyrogram/session/session.py:230-279 | the loop over the updates raises exactly if an update is foreign, repeated or clashes with another, and otherwise its dictionaries hold exactly the updates |
| `Receipt.PublicationReceipt` | pyrogram/session/session.py:219-288 | accepts exactly if the multiset of updates holds one mapping per random id and no other, positive pairwise distinct targets, and one own message in the query's peer per target and no other; the targets come in request order |
| `Receipt.OwnedIff` | pyrogram/session/session.py:246-275 | the branch's test of a new message, spelled out by chat, channel, user and the dialog with oneself |
| `Receipt.AnswerIsUnique` | pyrogram/session/session.py:280-288 | a multiset of updates has at most one answer, so the order of the updates does not matter |
| `Receipt.AcceptedIdsAreDistinct` | pyrogram/session/session.py:281-288 | repeated random ids are never accepted |
| `Publication.Publication.WriteOnce` | pyrogram/session/session.py:1362-1417 | a write happens exactly if nothing fails on the way and the check passes; its payload is the query of the turn that packed it, the turn before the check |
| `Publication.Publication.SendQuery` | pyrogram/session/session.py:1361-1456 | every wire write, resends after a bad salt included, comes after a passed identity check with the query serialising to the fixed bytes, and carries the query of its packing turn |
| `Publication.Publication.Begin` | pyrogram/session/session.py:331-335 | the intent is committed before the first native call and only then; a failed intent leaves no call and no write |
| `Publication.Publication.Finish` | pyrogram/session/session.py:354-367 | what is returned carries an accepted receipt; every failure after the result leaves the outcome unknown and names its cause |
| `Publication.Publication.Classify` | pyrogram/session/session.py:338-353 | exactly which failures of the call are raised as they are, which mark the outcome unknown, and which ask for another round while rounds are left |
| `Publication.Publication.Attempt` | pyrogram/session/session.py:321-370 | one round keeps the invariant, asks for another only while rounds are left, and backs its outcome as below; a session that is not ready makes no call, and raises the readiness error only after the last wait |
| `Publication.Publication.Invoke` | pyrogram/session/session.py:291-371 | in every run of a scope: every write goes out in the scope's session, as its account and no bot, and under its fixed keys; a first world that misses any of these raises the identity error with nothing done, and one that meets them never raises it before the first turn; one intent, first of all events; at most max_retries + 1 native calls; the readiness error only with no intent and no call; a plain RPC error only from the first call and never once the outcome is unknown; every outcome is backed by its cause: a returned result was answered and confirmed, the give-up errors come after max_retries waits, identity and mutation errors by a failing check, other failures by the last reply; a write carries the bytes fixed at the start exactly if the query serialised to them when it was packed, so all writes do if no turn changes the query; undisturbed, the first round writes; a second query is refused and a query off the manifest changes nothing |
| `Publication.CheckIff` | pyrogram/session/session.py:139-153 | the identity check passes exactly for the scope's session, client session, account, human actor and fixed keys |
| `Publication.CheckedWritesAsOwner` | pyrogram/session/session.py:1404-1417 | so every checked write goes out in such a world |
| `Publication.RestoredQueryIsSent` | pyrogram/session/session.py:1376-1417 | a run of the loop in which a query changed before packing and restored before the check goes out changed |
| `MessageFilter.BisectRight` | pyrogram/session/session.py:1180 | binary search for the insertion point of a sorted window |
| `MessageFilter.Filter.Handle` | pyrogram/session/session.py:1126-1190 | one message, with the exact condition of each verdict: known if stored or kept aside; too low below the first kept id; future beyond 30 and past beyond 300 seconds; accepted otherwise or if nothing is kept; and exactly what each leaves in the window, the count and the acknowledgements |
| `MessageFilter.RunJudges` | pyrogram/session/session.py:1126-1181 | the same for every message of every run |
| `MessageFilter.Filter.HandleAll` | pyrogram/session/session.py:1126-1190 | the loop over a container stops exactly at a refusal that finds thirty refusals in a row |
| `MessageFilter.JudgeRemembers` | pyrogram/session/session.py:1126-1181 | whatever arrives, the window stays strictly increasing and at most 2001 long, and every accepted id is stored or below the first stored one |
| `MessageFilter.AcceptedIsNotAcceptedAgain` | pyrogram/session/session.py:1127-1148 | an accepted id that comes again is known or too low |
| `MessageFilter.RunAcceptsOnce` | pyrogram/session/session.py:1126-1181 | in every run between two clears no id is accepted twice |
| `MessageFilter.Filter.Restart` | pyrogram/session/session.py:1019-1024 | a restart keeps the thirty oldest ids aside and clears the window |
| `MessageFilter.AsideIsRefused` | pyrogram/session/session.py:1127-1133 | an id that a restart kept aside is never accepted, whatever arrives |
| `MessageFilter.ReplayAfterRestartIff` | pyrogram/session/session.py:1021-1024 | after a restart some run accepts an id, whether it was stored, dropped with the older half or never seen, exactly if it was not kept aside |
| `MessageFilter.AcceptedAgain` | pyrogram/session/session.py:1019-1024 | a run that accepts thirty-one ids, restarts, and accepts the newest again |
| `Lifecycle.StopIsFinal` | pyrogram/session/session.py:714-1045 | in every interleaving, once the stop flag is up nothing sets `is_started` or moves to STARTING or STARTED, a stopped session stays as it is, and STOP_FAILED is never left |
| `Lifecycle.ReachableStates` | pyrogram/session/session.py:889-1010 | at most one teardown is live, STOP_FAILED implies the flag, and with the flag up and no live teardown the session is stopped or STOP_FAILED |
| `Lifecycle.StopCall` | pyrogram/session/session.py:906-923 | joining, refusing or creating a teardown keeps the invariant for any value of the flag |
| `Lifecycle.TornKeeps` | pyrogram/session/session.py:940-1016 | every piece of a teardown keeps the invariant |
| `Lifecycle.Resumed` | pyrogram/session/session.py:687-887 | every resumption of a start or restart keeps the invariant and the guarantees of the flag, and sets `is_started` exactly if a handshake comes back in order with the flag down |
| `Lifecycle.Scheduled` | pyrogram/session/session.py:1036-1045 | scheduling a restart keeps them too, and does nothing once the flag is up |
| `Lifecycle.ReceiverEnded` | pyrogram/session/session.py:1344-1358 | so does the end of the receiver |
| `Lifecycle.DownIsNotReadyIff` | pyrogram/session/session.py:863-873 | a session that is down or going down is never ready, exactly if no handshake comes back in order, with the flag down, no restart requested and the receiver alive, while a teardown is at work |
| `Lifecycle.RaceLeavesReady` | pyrogram/session/session.py:871-873 | a run of ten steps that ends stopped for good and yet ready |
| `LifecycleRuns.TasksGoOn` | pyrogram/session/session.py:714-1032 | in every interleaving, where a resumed task goes: a start to its first endpoint, through connection and handshake to a ready session; a failed endpoint to its cleanup, and from a clean one to the next endpoint or, after the last, to an error; a restart through its stop to a start |
| `LifecycleRuns.EndpointsInTurn` | pyrogram/session/session.py:723-854 | for every number of failures: after j failed and cleaned endpoints the start is at endpoint j in STARTING, and it raises only when all have failed, with the flag up exactly for the owner's start |
| `LifecycleRuns.ReadyAtTheFirstThatWorks` | pyrogram/session/session.py:723-873 | if the first j endpoints fail and the next one works, the session is STARTED and ready |
| `LifecycleRuns.StartMakesReady` | pyrogram/session/session.py:714-887 | a start of a session that is down, undisturbed, ends STARTED and ready |
| `LifecycleRuns.RestartConnects` | pyrogram/session/session.py:1024-1029 | in every interleaving a restart whose teardown ended clean, with the flag down and no other start in between, is at the first endpoint in STARTING |
| `LifecycleRuns.RestartComesBack` | pyrogram/session/session.py:1019-1034 | an undisturbed restart stops the session, starts it again and makes it ready |
| `LifecycleRuns.RestartsUntilReady` | pyrogram/session/session.py:1047-1101 | a scheduled restart ends only if the session is ready, must stay stopped, or its task is told to end |
| `LifecycleRuns.StepsAnswer` | pyrogram/session/session.py:889-1045 | a stop raises the flag and creates a teardown; asking for a restart clears `is_started` and leaves a scheduled restart at work, and so does the end of a ready session's receiver |
| `LifecycleRuns.OneScheduledRestart` | pyrogram/session/session.py:1036-1045 | in every interleaving at most one scheduled restart is at work |
| `LifecycleRuns.StopStops` | pyrogram/session/session.py:889-1010 | a stop of a session that is up, once torn down, leaves it stopped for good, or STOP_FAILED if the close failed, and not ready |
| `Waiters.AnswersAndFailuresLast` | pyrogram/session/session.py:1419-1456 | in every interleaving, a waiter that had its answer is never failed later, a failed one never returns a value, and a result is final |
| `Waiters.SendAnswers` | pyrogram/session/session.py:1430-1456 | in every interleaving, a send that is over and not aborted answers by the last answer that arrived under its id while it was registered: a value is returned, an RPC error raised, a bad salt sends again, none is a timeout; if a teardown or the loss of the receiver found it registered before any answer, it raises that failure |
| `Waiters.SendEnds` | pyrogram/session/session.py:1419-1436 | a send ends only by its own wake-up or abort, and times out only by a timeout |
| `Waiters.SendGoesOn` | pyrogram/session/session.py:1361-1428 | registering, writing and waking up take a send from step to step; it wakes exactly if it has an answer or a failure or its time is up, and leaves the table then |
| `Waiters.SendBegins` | pyrogram/session/internals/msg_factory.py:43-52 | a new send takes an id above every earlier one |
| `Waiters.TableHoldsSendsInProgress` | pyrogram/session/session.py:1361-1428 | the table holds only entries of sends in progress, each under its own id |
| `Waiters.RegisteredAreResolved` | pyrogram/session/session.py:956-961 | a teardown, and the loss of the receiver, resolve every registered waiter |
| `Waiters.NoWaiterIsLost` | pyrogram/session/internals/msg_factory.py:43-52 | in every interleaving the sends have pairwise distinct ids, and no registered send is both unresolved and out of the table |
| `Waiters.TeardownResolvesAll` | pyrogram/session/session.py:956-961 | a teardown, and the loss of the receiver, leave no registered send waiting |
| `Waiters.NextKeeps` | pyrogram/session/session.py:1216-1218 | every step keeps the table's invariant and the resolutions |
| `Dispatcher.Dispatcher.Enqueue` | pyrogram/dispatcher.py:443-456 | a packet is admitted at the end of the queue, or dropped once admission is closed |
| `Dispatcher.Dispatcher.PushSentinels` | pyrogram/dispatcher.py:409-415 | one sentinel per registered worker, behind every admitted packet |
| `Dispatcher.Dispatcher.Take` | pyrogram/dispatcher.py:482-487 | a worker takes the head: a packet to handle, or the sentinel that ends it |
| `Dispatcher.Dispatcher.Unregister` | pyrogram/dispatcher.py:430-432 | finished workers leave the list, the others stay |
| `Dispatcher.TakenInOrder` | pyrogram/dispatcher.py:443-487 | what was taken is a prefix of the packets in admission order, or all packets and then sentinels |
| `Dispatcher.PacketsLeaveInOrder` | pyrogram/dispatcher.py:443-487 | before any sentinel, taken and waiting packets together are the admitted ones in order |
| `Dispatcher.Shutdown` | pyrogram/dispatcher.py:395-441 | when all workers have ended every admitted packet was taken once and in order, each worker took one sentinel, and the queue is empty exactly if one sentinel per worker was put |
| `Dispatcher.TwoStops` | pyrogram/dispatcher.py:395-415 | two stops at once leave as many sentinels as there are workers |
| `Auth.Auth.Create` | pyrogram/session/auth.py:91-348 | against any network the loop ends within 6n attempts for n endpoints, each closing its connection once; a failure stays at its endpoint, an unreachable endpoint moves to the next; it gives up only after the last endpoint was unreachable or after six failures in a row at one endpoint; success puts the winner first and keeps the others in order |
| `Auth.NeverBack` | pyrogram/session/auth.py:305-341 | endpoints are visited from the first on, without skipping one and without going back |
| `Auth.WinnerFirst` | pyrogram/session/auth.py:343-345 | putting a member in front of a list without repetition and removing repetitions moves it there |
| `Auth.DedupeKeeps` | pyrogram/session/auth.py:64-66 | removing repetitions keeps the members and the first element |

## Left out

- Sockets, transports, DNS, file descriptors and locking: input and output.
- The block cipher, hashes and random sources: uninterpreted, with decryption assumed to invert encryption and hashes to have 32 bytes.
- Core and boxed codecs of `pyrogram/raw/core`: assumed self-delimiting in the TL round trip; only the vector, the integers and the byte string are modelled.
- RoundTripExact: at the end of the buffer it asks that optional vectors agree with their own bit, because a flags word that is read short there gives back the bytes that a vector read by accident has taken; with bytes after the object it asks only that a read takes at least the bytes that writing its value gives.
- Gzipped and container bodies of received messages: `Mtproto` leaves the message body as bytes.
- UrlsafeDecode: a character outside the alphabet is an error, where the library function drops it; no encoded id has one.
- Web-location file ids: writer and reader lay out the fields after the url differently; decoding one ends in a separate case.
- Unique file ids: thin structures over the same two layers.
- The HTML tokenizer, the decoding of attribute values and whitespace stripping: the handlers are modelled from their events on, which carry the tag's name and its attributes as they were printed.
- Digits outside ASCII, signs and spaces that `int` and the mention pattern also take: numbers are read as an optional minus sign and ASCII digits.
- Resolving mentions to users and dropping empty entities after the parse: the model ends with the handlers.
- Custom emoji ids that are not decimal numbers, and a language attribute without a value: an id is an integer, and a missing language the empty string.
- Quoted attributes: stripping ends a tag at its first closing bracket, also inside quotes.
- Surrogate pairs: texts are sequences of UTF-16 units.
- Published albums (`AlbumPublicationPolicy`) and the plain retry loop of `invoke`: easier than the ordinary publication loop.
- SendQuery: an error outside the caught classes leaves the loop without marking the outcome unknown, as in the source; no claim is made about the outcome then.
- Replay protection across restarts: not claimed, see `MessageFilter.ReplayAfterRestartIff`.
- Conservation of acknowledgements while they are being sent: the set is cleared after a suspension.
- Interleaving of two packets inside the filter: messages are handled one at a time.
- Worker cancellation, handler groups and callbacks of the dispatcher: the model has workers that run to their sentinel.
- Endpoint details, logging and upload fallback of the session life cycle: they do not change the state machine.
- The generated greeting's content, GREASE values, curve points and the HMAC: only the writer is modelled.
- Nonce checks and the steps of the key exchange besides the shared power: straight-line comparisons.
