/**
 File ids: what `encode` writes and `decode` reads under the two text layers of `FileIdText`.
 Ids of web locations are not described; decoding one ends in `WebLocation`.
 */
module FileId {
  import opened Bytes
  import opened FileIdText

  // ----- the entities

  type FileType = x: int | 0 <= x < 18

  predicate IsPhoto(t: FileType) {
    t == 0 || t == 1 || t == 2 || t == 11 || t == 12
  }

  datatype Source =
    | Legacy | Thumbnail | ChatPhotoSmall | ChatPhotoBig | StickerSetThumbnail
    | FullLegacy | ChatPhotoSmallLegacy | ChatPhotoBigLegacy
    | StickerSetThumbnailLegacy | StickerSetThumbnailVersion

  function SourceCode(s: Source): (n: int)
    ensures 0 <= n < 10 && SourceOf(n) == Some(s)
  {
    match s
    case Legacy => 0
    case Thumbnail => 1
    case ChatPhotoSmall => 2
    case ChatPhotoBig => 3
    case StickerSetThumbnail => 4
    case FullLegacy => 5
    case ChatPhotoSmallLegacy => 6
    case ChatPhotoBigLegacy => 7
    case StickerSetThumbnailLegacy => 8
    case StickerSetThumbnailVersion => 9
  }

  /** `ThumbnailSource(n)`, which raises on an unknown value. */
  function SourceOf(n: int): (s: Option<Source>) {
    match n
    case 0 => Some(Legacy)
    case 1 => Some(Thumbnail)
    case 2 => Some(ChatPhotoSmall)
    case 3 => Some(ChatPhotoBig)
    case 4 => Some(StickerSetThumbnail)
    case 5 => Some(FullLegacy)
    case 6 => Some(ChatPhotoSmallLegacy)
    case 7 => Some(ChatPhotoBigLegacy)
    case 8 => Some(StickerSetThumbnailLegacy)
    case 9 => Some(StickerSetThumbnailVersion)
    case _ => None
  }

  type codepoint = x: int | 0 <= x < 0x110000

  datatype Tail = Tail(
    volumeId: Option<int>, localId: Option<int>, secret: Option<int>,
    thumbnailFileType: Option<int>, thumbnailSize: seq<codepoint>,
    chatId: Option<int>, chatAccessHash: Option<int>,
    stickerSetId: Option<int>, stickerSetAccessHash: Option<int>, stickerSetVersion: Option<int>)

  const BLANK := Tail(None, None, None, None, [], None, None, None, None, None)

  datatype FileId = FileId(
    major: int, minor: int, fileType: FileType, dcId: int, reference: seq<byte>,
    mediaId: Option<int>, accessHash: Option<int>, source: Option<Source>, tail: Tail)

  // ----- struct.pack and struct.unpack

  /** `struct.pack` of signed fields of the given widths; a missing or too large value raises. */
  function Pack(widths: seq<nat>, vals: seq<Option<int>>): (b: Option<seq<byte>>)
    requires |widths| == |vals|
  {
    if widths == [] then Some([])
    else
      var v :- vals[0];
      var head :- PackSigned(v, widths[0]);
      var rest :- Pack(widths[1..], vals[1..]);
      Some(head + rest)
  }

  /** `struct.unpack` of a read of exactly those widths; a short read raises. */
  function Unpack(widths: seq<nat>, b: seq<byte>): (r: Option<(seq<Option<int>>, seq<byte>)>)
    ensures r.Some? ==> |r.value.0| == |widths| && forall i :: 0 <= i < |widths| ==> r.value.0[i].Some?
  {
    if widths == [] then Some(([], b))
    else if |b| < widths[0] then None
    else
      var (vals, rest) :- Unpack(widths[1..], b[widths[0]..]);
      Some(([Some(UnpackSigned(b[..widths[0]]))] + vals, rest))
  }

  lemma {:induction false} UnpackPack(widths: seq<nat>, vals: seq<Option<int>>, tail: seq<byte>)
    requires |widths| == |vals| && Pack(widths, vals).Some?
    ensures Unpack(widths, Pack(widths, vals).value + tail) == Some((vals, tail))
  {
    if widths == [] {
      assert [] + tail == tail;
    } else {
      var head := PackSigned(vals[0].value, widths[0]).value;
      var rest := Pack(widths[1..], vals[1..]).value;
      UnpackPack(widths[1..], vals[1..], tail);
      SignedRoundTrip(vals[0].value, widths[0]);
      var b := (head + rest) + tail;
      assert b[..widths[0]] == head && b[widths[0]..] == rest + tail;
      assert [vals[0]] + vals[1..] == vals;
    }
  }

  // ----- the `bytes` primitive

  /** `bytes(-n % 4)`. */
  function Pad(n: nat): (b: seq<byte>) {
    Zeros(Padding(n))
  }

  function WriteBytes(v: seq<byte>): (b: Option<seq<byte>>) {
    if |v| <= 253 then Some([|v|] + v + Pad(|v| + 1))
    else if |v| < 0x1000000 then Some([254] + LittleEndian(|v|, 3) + v + Pad(|v|))
    else None
  }

  /** `data.read(n)`: a short buffer gives what there is. */
  function Take(b: seq<byte>, n: nat): (r: seq<byte>) {
    b[..Min(n, |b|)]
  }

  function Drop(b: seq<byte>, n: nat): (r: seq<byte>) {
    b[Min(n, |b|)..]
  }

  function ReadBytes(b: seq<byte>): (r: (seq<byte>, seq<byte>)) {
    var n := FromLittleEndian(Take(b, 1));
    var rest := Drop(b, 1);
    if n <= 253 then
      (Take(rest, n), Drop(Drop(rest, n), Padding(n + 1)))
    else
      var n := FromLittleEndian(Take(rest, 3));
      var rest := Drop(rest, 3);
      (Take(rest, n), Drop(Drop(rest, n), Padding(n)))
  }

  lemma TakeDrop(a: seq<byte>, b: seq<byte>)
    ensures Take(a + b, |a|) == a && Drop(a + b, |a|) == b
  {
  }

  lemma PaddedRoundTrip(v: seq<byte>, pad: seq<byte>, tail: seq<byte>)
    ensures Take(v + (pad + tail), |v|) == v
    ensures Drop(Drop(v + (pad + tail), |v|), |pad|) == tail
  {
    TakeDrop(v, pad + tail);
    TakeDrop(pad, tail);
  }

  lemma OneByteValue(n: byte)
    ensures FromLittleEndian([n]) == n
  {
    assert [n][1..] == [];
  }

  lemma BytesRoundTrip(v: seq<byte>, tail: seq<byte>)
    requires WriteBytes(v).Some?
    ensures ReadBytes(WriteBytes(v).value + tail) == (v, tail)
  {
    var b := WriteBytes(v).value + tail;
    if |v| <= 253 {
      var pad := Pad(|v| + 1);
      assert b == [|v|] + (v + (pad + tail));
      TakeDrop([|v|], v + (pad + tail));
      OneByteValue(|v|);
      PaddedRoundTrip(v, pad, tail);
    } else {
      var pad, len := Pad(|v|), LittleEndian(|v|, 3);
      assert b == [254] + (len + (v + (pad + tail)));
      TakeDrop([254], len + (v + (pad + tail)));
      OneByteValue(254);
      TakeDrop(len, v + (pad + tail));
      assert Base(3) == 0x1000000;
      LittleEndianRoundTrip(|v|, 3);
      PaddedRoundTrip(v, pad, tail);
    }
  }

  // ----- the photo tail

  /** `ord`, which raises unless the string has one character. */
  function Ord(s: seq<codepoint>): (n: Option<int>) {
    if |s| == 1 then Some(s[0]) else None
  }

  /** `chr`. */
  function Chr(n: int): (s: Option<seq<codepoint>>) {
    if 0 <= n < 0x110000 then Some([n]) else None
  }

  function WriteTail(s: Source, t: Tail): (b: Option<seq<byte>>) {
    match s
    case Legacy => Pack([8], [t.secret])
    case Thumbnail => Pack([4, 4], [t.thumbnailFileType, Ord(t.thumbnailSize)])
    case ChatPhotoSmall | ChatPhotoBig => Pack([8, 8], [t.chatId, t.chatAccessHash])
    case StickerSetThumbnail => Pack([8, 8], [t.stickerSetId, t.stickerSetAccessHash])
    case FullLegacy => Pack([8, 8, 4], [t.volumeId, t.secret, t.localId])
    case ChatPhotoSmallLegacy | ChatPhotoBigLegacy =>
      Pack([8, 8, 8, 4], [t.chatId, t.chatAccessHash, t.volumeId, t.localId])
    case StickerSetThumbnailLegacy =>
      Pack([8, 8, 8, 4], [t.stickerSetId, t.stickerSetAccessHash, t.volumeId, t.localId])
    case StickerSetThumbnailVersion =>
      Pack([8, 8, 4], [t.stickerSetId, t.stickerSetAccessHash, t.stickerSetVersion])
  }

  function ReadTail(s: Source, b: seq<byte>): (r: Option<(Tail, seq<byte>)>) {
    match s
    case Legacy =>
      var (v, rest) :- Unpack([8], b);
      Some((BLANK.(secret := v[0]), rest))
    case Thumbnail =>
      var (v, rest) :- Unpack([4, 4], b);
      var size :- Chr(v[1].value);
      Some((BLANK.(thumbnailFileType := v[0], thumbnailSize := size), rest))
    case ChatPhotoSmall | ChatPhotoBig =>
      var (v, rest) :- Unpack([8, 8], b);
      Some((BLANK.(chatId := v[0], chatAccessHash := v[1]), rest))
    case StickerSetThumbnail =>
      var (v, rest) :- Unpack([8, 8], b);
      Some((BLANK.(stickerSetId := v[0], stickerSetAccessHash := v[1]), rest))
    case FullLegacy =>
      var (v, rest) :- Unpack([8, 8, 4], b);
      Some((BLANK.(volumeId := v[0], secret := v[1], localId := v[2]), rest))
    case ChatPhotoSmallLegacy | ChatPhotoBigLegacy =>
      var (v, rest) :- Unpack([8, 8, 8, 4], b);
      Some((BLANK.(chatId := v[0], chatAccessHash := v[1], volumeId := v[2], localId := v[3]), rest))
    case StickerSetThumbnailLegacy =>
      var (v, rest) :- Unpack([8, 8, 8, 4], b);
      Some((BLANK.(stickerSetId := v[0], stickerSetAccessHash := v[1], volumeId := v[2], localId := v[3]), rest))
    case StickerSetThumbnailVersion =>
      var (v, rest) :- Unpack([8, 8, 4], b);
      Some((BLANK.(stickerSetId := v[0], stickerSetAccessHash := v[1], stickerSetVersion := v[2]), rest))
  }

  /** The fields a source stores, the others at their defaults. */
  function Kept(s: Source, t: Tail): (r: Tail) {
    var placed := s.FullLegacy? || s.ChatPhotoSmallLegacy? || s.ChatPhotoBigLegacy? || s.StickerSetThumbnailLegacy?;
    var chat := s.ChatPhotoSmall? || s.ChatPhotoBig? || s.ChatPhotoSmallLegacy? || s.ChatPhotoBigLegacy?;
    var sticker := s.StickerSetThumbnail? || s.StickerSetThumbnailLegacy? || s.StickerSetThumbnailVersion?;
    Tail(
      volumeId := if placed then t.volumeId else None,
      localId := if placed then t.localId else None,
      secret := if s.Legacy? || s.FullLegacy? then t.secret else None,
      thumbnailFileType := if s.Thumbnail? then t.thumbnailFileType else None,
      thumbnailSize := if s.Thumbnail? then t.thumbnailSize else [],
      chatId := if chat then t.chatId else None,
      chatAccessHash := if chat then t.chatAccessHash else None,
      stickerSetId := if sticker then t.stickerSetId else None,
      stickerSetAccessHash := if sticker then t.stickerSetAccessHash else None,
      stickerSetVersion := if s.StickerSetThumbnailVersion? then t.stickerSetVersion else None)
  }

  /** What a source stores comes back, and no byte more is taken. */
  lemma TailRoundTrip(s: Source, t: Tail, rest: seq<byte>)
    requires WriteTail(s, t).Some?
    ensures ReadTail(s, WriteTail(s, t).value + rest) == Some((Kept(s, t), rest))
  {
    match s
    case Legacy => UnpackPack([8], [t.secret], rest);
    case Thumbnail => ThumbnailRoundTrip(t, rest);
    case ChatPhotoSmall | ChatPhotoBig => UnpackPack([8, 8], [t.chatId, t.chatAccessHash], rest);
    case StickerSetThumbnail => UnpackPack([8, 8], [t.stickerSetId, t.stickerSetAccessHash], rest);
    case FullLegacy => UnpackPack([8, 8, 4], [t.volumeId, t.secret, t.localId], rest);
    case ChatPhotoSmallLegacy | ChatPhotoBigLegacy =>
      UnpackPack([8, 8, 8, 4], [t.chatId, t.chatAccessHash, t.volumeId, t.localId], rest);
    case StickerSetThumbnailLegacy =>
      UnpackPack([8, 8, 8, 4], [t.stickerSetId, t.stickerSetAccessHash, t.volumeId, t.localId], rest);
    case StickerSetThumbnailVersion =>
      UnpackPack([8, 8, 4], [t.stickerSetId, t.stickerSetAccessHash, t.stickerSetVersion], rest);
  }

  lemma ThumbnailRoundTrip(t: Tail, rest: seq<byte>)
    requires WriteTail(Thumbnail, t).Some?
    ensures ReadTail(Thumbnail, WriteTail(Thumbnail, t).value + rest) == Some((Kept(Thumbnail, t), rest))
  {
    var vals := [t.thumbnailFileType, Ord(t.thumbnailSize)];
    UnpackPack([4, 4], vals, rest);
    assert vals[1] == Ord(t.thumbnailSize) && vals[1..][0] == vals[1];
    assert t.thumbnailSize == [t.thumbnailSize[0]];
  }

  // ----- encode

  const WEB_LOCATION_FLAG: int := 0x1000000
  const FILE_REFERENCE_FLAG: int := 0x2000000

  /** The minor version from which photo ids carry no volume and local id of their own. */
  const NO_VOLUME_AND_LOCAL_ID_MINOR := 32

  /** A field that is written only if `on`. */
  function WriteIf(on: bool, width: nat, v: Option<int>): (b: Option<seq<byte>>) {
    if on then Pack([width], [v]) else Some([])
  }

  function WritePhoto(f: FileId): (b: Option<seq<byte>>) {
    var placed := f.minor < NO_VOLUME_AND_LOCAL_ID_MINOR;
    var source :- f.source;
    var volume :- WriteIf(placed, 8, f.tail.volumeId);
    var tag :- WriteIf(f.major >= 4, 4, Some(SourceCode(source)));
    var tail :- WriteTail(source, f.tail);
    var local :- WriteIf(placed, 4, f.tail.localId);
    Some(volume + (tag + (tail + local)))
  }

  /** The document branch tests the type with its flags on, so a file reference skips the extra words. */
  function WriteKind(f: FileId): (b: Option<seq<byte>>) {
    if IsPhoto(f.fileType) then WritePhoto(f)
    else if f.reference == [] then Pack([4, 4], [Some(f.minor), Some(f.major)])
    else Some([])
  }

  function TypeWord(f: FileId): (w: int) {
    f.fileType + if f.reference != [] then FILE_REFERENCE_FLAG else 0
  }

  function WriteReference(v: seq<byte>): (b: Option<seq<byte>>) {
    if v != [] then WriteBytes(v) else Some([])
  }

  function WriteBody(f: FileId): (b: Option<seq<byte>>) {
    var head :- Pack([4, 4], [Some(TypeWord(f)), Some(f.dcId)]);
    var reference :- WriteReference(f.reference);
    var ids :- Pack([8, 8], [f.mediaId, f.accessHash]);
    var kind :- WriteKind(f);
    Some(head + (reference + (ids + kind)))
  }

  function WriteVersion(minor: int, major: int): (b: Option<seq<byte>>) {
    Pack([1, 1], [Some(minor), Some(major)])
  }

  /** `FileId.encode`, for a file id without a url. */
  function Encode(f: FileId): (t: Option<string>) {
    var body :- WriteBody(f);
    var version :- WriteVersion(f.minor, f.major);
    Wrap(body + version)
  }

  // ----- decode

  datatype Parsed = WebLocation | File(id: FileId)

  /** A field that is read only if `on`, and otherwise has the value `fallback`. */
  function ReadIf(on: bool, width: nat, fallback: Option<int>, b: seq<byte>): (r: Option<(Option<int>, seq<byte>)>)
    ensures on && r.Some? ==> r.value.0.Some?
  {
    if on then
      var (v, rest) :- Unpack([width], b);
      Some((v[0], rest))
    else
      Some((fallback, b))
  }

  function ReadSource(major: byte, b: seq<byte>): (r: Option<(Source, seq<byte>)>) {
    var (tag, b) :- ReadIf(major >= 4, 4, Some(0), b);
    var source :- SourceOf(tag.value);
    Some((source, b))
  }

  /** The tail of the source, and in the older layout the local id after it. */
  function ReadPlaced(source: Source, placed: bool, volume: Option<int>, b: seq<byte>): (r: Option<Tail>) {
    var (tail, b) :- ReadTail(source, b);
    var (local, b) :- ReadIf(placed, 4, None, b);
    Some(if placed then tail.(volumeId := volume, localId := local) else tail)
  }

  function ReadPhoto(major: byte, minor: byte, b: seq<byte>): (r: Option<(Source, Tail)>) {
    var placed := minor < NO_VOLUME_AND_LOCAL_ID_MINOR;
    var (volume, b) :- ReadIf(placed, 8, None, b);
    var (source, b) :- ReadSource(major, b);
    var tail :- ReadPlaced(source, placed, volume, b);
    Some((source, tail))
  }

  function ReadReference(has: bool, b: seq<byte>): (r: (seq<byte>, seq<byte>)) {
    if has then ReadBytes(b) else ([], b)
  }

  predicate Flagged(word: int, flag: int)
    requires flag > 0
  {
    word / flag % 2 == 1
  }

  function ReadBody(major: byte, minor: byte, b: seq<byte>): (r: Option<Parsed>) {
    var (head, b) :- Unpack([4, 4], b);
    ReadTyped(major, minor, head[0].value, head[1].value, b)
  }

  /** The flags are taken off the type word, and the rest is read as they say. */
  function ReadTyped(major: byte, minor: byte, word: int, dcId: int, b: seq<byte>): (r: Option<Parsed>) {
    var web, referred := Flagged(word, WEB_LOCATION_FLAG), Flagged(word, FILE_REFERENCE_FLAG);
    var kind := word - (if web then WEB_LOCATION_FLAG else 0) - (if referred then FILE_REFERENCE_FLAG else 0);
    if !(0 <= kind < 18) then None
    else if web then Some(WebLocation)
    else
      var id :- ReadContent(major, minor, kind, dcId, referred, b);
      Some(File(id))
  }

  /** What follows the type word and the data centre. */
  function ReadContent(major: byte, minor: byte, kind: FileType, dcId: int, referred: bool, b: seq<byte>): (r: Option<FileId>) {
    var (reference, b) := ReadReference(referred, b);
    var (ids, b) :- Unpack([8, 8], b);
    var id := FileId(major, minor, kind, dcId, reference, ids[0], ids[1], None, BLANK);
    if IsPhoto(kind) then
      var (source, tail) :- ReadPhoto(major, minor, b);
      Some(id.(source := Some(source), tail := tail))
    else
      Some(id)
  }

  /** `FileId.decode` under the text layers: the version is the last byte or the last two. */
  function DecodeBytes(s: seq<byte>): (r: Option<Parsed>) {
    var n := |s|;
    if n < 1 then None
    else if s[n - 1] < 4 then ReadBody(s[n - 1], 0, s[..n - 1])
    else if n < 2 then None
    else ReadBody(s[n - 1], s[n - 2], s[..n - 2])
  }

  function Decode(t: string): (r: Option<Parsed>) {
    var s :- Unwrap(t);
    DecodeBytes(s)
  }

  // ----- the round trip

  /** A version both sides read the same way. */
  predicate VersionHolds(f: FileId) {
    && 0 <= f.major && 0 <= f.minor
    && (f.major < 4 ==> f.minor == 0 && (IsPhoto(f.fileType) ==> f.source == Some(Legacy)))
  }

  /** The file id with every field that its layout does not carry at its default. */
  function Normal(f: FileId): (r: FileId) {
    if !IsPhoto(f.fileType) then f.(source := None, tail := BLANK)
    else if f.source.None? then f
    else
      f.(tail := NormalTail(f.source.value, f.minor < NO_VOLUME_AND_LOCAL_ID_MINOR, f.tail))
  }

  lemma NothingAdded(rest: seq<byte>)
    ensures [] + rest == rest
  {
  }

  lemma IfRoundTrip(on: bool, width: nat, fallback: Option<int>, v: Option<int>, rest: seq<byte>)
    requires WriteIf(on, width, v).Some?
    ensures ReadIf(on, width, fallback, WriteIf(on, width, v).value + rest)
         == Some((if on then v else fallback, rest))
  {
    if on {
      UnpackPack([width], [v], rest);
    } else {
      NothingAdded(rest);
    }
  }

  /** The tail as it comes back in one of the two layouts. */
  function NormalTail(source: Source, placed: bool, t: Tail): (r: Tail) {
    var kept := Kept(source, t);
    if placed then kept.(volumeId := t.volumeId, localId := t.localId) else kept
  }

  lemma PhotoRoundTrip(f: FileId, rest: seq<byte>)
    requires VersionHolds(f) && f.major < 256 && f.minor < 256 && IsPhoto(f.fileType) && WritePhoto(f).Some?
    ensures f.source.Some?
    ensures ReadPhoto(f.major, f.minor, WritePhoto(f).value + rest) == Some((f.source.value, Normal(f).tail))
  {
    var placed := f.minor < NO_VOLUME_AND_LOCAL_ID_MINOR;
    var source := f.source.value;
    var volume := WriteIf(placed, 8, f.tail.volumeId).value;
    var tag := WriteIf(f.major >= 4, 4, Some(SourceCode(source))).value;
    var after := WriteTail(source, f.tail).value + (WriteIf(placed, 4, f.tail.localId).value + rest);
    Regroup(volume, tag, WriteTail(source, f.tail).value, WriteIf(placed, 4, f.tail.localId).value, rest);
    IfRoundTrip(placed, 8, None, f.tail.volumeId, tag + after);
    SourceRoundTrip(f.major, source, after);
    PlacedRoundTrip(placed, source, f.tail, rest);
  }

  lemma SourceRoundTrip(major: byte, source: Source, rest: seq<byte>)
    requires WriteIf(major >= 4, 4, Some(SourceCode(source))).Some?
    requires major < 4 ==> source == Legacy
    ensures ReadSource(major, WriteIf(major >= 4, 4, Some(SourceCode(source))).value + rest) == Some((source, rest))
  {
    TagRoundTrip(major, source, rest);
  }

  lemma PlacedRoundTrip(placed: bool, source: Source, t: Tail, rest: seq<byte>)
    requires WriteTail(source, t).Some? && WriteIf(placed, 4, t.localId).Some?
    ensures ReadPlaced(source, placed, if placed then t.volumeId else None,
              WriteTail(source, t).value + (WriteIf(placed, 4, t.localId).value + rest))
         == Some(NormalTail(source, placed, t))
  {
    TailThenLocal(placed, source, t, rest);
  }

  lemma TagRoundTrip(major: int, source: Source, rest: seq<byte>)
    requires WriteIf(major >= 4, 4, Some(SourceCode(source))).Some?
    requires major < 4 ==> source == Legacy
    ensures ReadIf(major >= 4, 4, Some(0), WriteIf(major >= 4, 4, Some(SourceCode(source))).value + rest)
         == Some((Some(SourceCode(source)), rest))
  {
    IfRoundTrip(major >= 4, 4, Some(0), Some(SourceCode(source)), rest);
  }

  lemma TailThenLocal(placed: bool, source: Source, t: Tail, rest: seq<byte>)
    requires WriteTail(source, t).Some? && WriteIf(placed, 4, t.localId).Some?
    ensures var local := WriteIf(placed, 4, t.localId).value + rest;
            && ReadTail(source, WriteTail(source, t).value + local) == Some((Kept(source, t), local))
            && ReadIf(placed, 4, None, local) == Some((if placed then t.localId else None, rest))
  {
    var local := WriteIf(placed, 4, t.localId).value + rest;
    TailRoundTrip(source, t, local);
    IfRoundTrip(placed, 4, None, t.localId, rest);
  }

  lemma TypeWordSplits(f: FileId)
    ensures !Flagged(TypeWord(f), WEB_LOCATION_FLAG)
    ensures Flagged(TypeWord(f), FILE_REFERENCE_FLAG) <==> f.reference != []
  {
  }

  lemma ReferenceRoundTrip(v: seq<byte>, rest: seq<byte>)
    requires WriteReference(v).Some?
    ensures ReadReference(v != [], WriteReference(v).value + rest) == (v, rest)
  {
    if v != [] {
      BytesRoundTrip(v, rest);
    } else {
      NothingAdded(rest);
    }
  }

  /** What `encode` writes after the type word and the data centre, read back. */
  lemma ContentRoundTrip(f: FileId, reference: seq<byte>, ids: seq<byte>, kind: seq<byte>, rest: seq<byte>)
    requires VersionHolds(f) && f.major < 256 && f.minor < 256
    requires WriteReference(f.reference) == Some(reference) && WriteKind(f) == Some(kind)
    requires Pack([8, 8], [f.mediaId, f.accessHash]) == Some(ids)
    ensures ReadContent(f.major, f.minor, f.fileType, f.dcId, f.reference != [], reference + (ids + (kind + rest)))
         == Some(Normal(f))
  {
    ReferenceRoundTrip(f.reference, ids + (kind + rest));
    UnpackPack([8, 8], [f.mediaId, f.accessHash], kind + rest);
    if IsPhoto(f.fileType) {
      PhotoRoundTrip(f, rest);
    }
  }

  lemma BodyRoundTrip(f: FileId, rest: seq<byte>)
    requires VersionHolds(f) && f.major < 256 && f.minor < 256 && WriteBody(f).Some?
    ensures ReadBody(f.major, f.minor, WriteBody(f).value + rest) == Some(File(Normal(f)))
  {
    var head := Pack([4, 4], [Some(TypeWord(f)), Some(f.dcId)]).value;
    var reference := WriteReference(f.reference).value;
    var ids := Pack([8, 8], [f.mediaId, f.accessHash]).value;
    var kind := WriteKind(f).value;
    ContentRoundTrip(f, reference, ids, kind, rest);
    HeadReads(f, f.major, f.minor, head, reference + (ids + (kind + rest)));
    Regroup(head, reference, ids, kind, rest);
  }

  lemma Regroup(a: seq<byte>, b: seq<byte>, c: seq<byte>, d: seq<byte>, rest: seq<byte>)
    ensures (a + (b + (c + d))) + rest == a + (b + (c + (d + rest)))
  {
  }

  lemma HeadReads(f: FileId, major: byte, minor: byte, head: seq<byte>, content: seq<byte>)
    requires Pack([4, 4], [Some(TypeWord(f)), Some(f.dcId)]) == Some(head)
    ensures ReadBody(major, minor, head + content)
         == var id := ReadContent(major, minor, f.fileType, f.dcId, f.reference != [], content);
            if id.Some? then Some(File(id.value)) else None
  {
    UnpackPack([4, 4], [Some(TypeWord(f)), Some(f.dcId)], content);
    TypedReads(f, major, minor, content);
  }

  lemma TypedReads(f: FileId, major: byte, minor: byte, content: seq<byte>)
    ensures ReadTyped(major, minor, TypeWord(f), f.dcId, content)
         == var id := ReadContent(major, minor, f.fileType, f.dcId, f.reference != [], content);
            if id.Some? then Some(File(id.value)) else None
  {
    TypeWordSplits(f);
  }

  /** The two version bytes as `decode` sees them. */
  lemma VersionBytes(minor: int, major: int)
    requires WriteVersion(minor, major).Some? && 0 <= minor && 0 <= major
    ensures minor < 128 && major < 128
    ensures WriteVersion(minor, major).value == [minor] + [major]
  {
    PackByte(minor);
    PackByte(major);
    var widths: seq<nat>, vals := [1, 1], [Some(minor), Some(major)];
    assert widths[1..] == [1] && vals[1..] == [Some(major)];
    PackOne(1, major);
  }

  lemma PackOne(width: nat, v: int)
    ensures Pack([width], [Some(v)]) == PackSigned(v, width)
  {
    if PackSigned(v, width).Some? {
      assert PackSigned(v, width).value + [] == PackSigned(v, width).value;
    }
  }

  lemma PackByte(v: int)
    ensures PackSigned(v, 1).Some? <==> -128 <= v < 128
    ensures PackSigned(v, 1).Some? ==> PackSigned(v, 1).value == [v % 256]
  {
    assert Base(1) == 256;
    var u: nat := if v < 0 && -128 <= v then v + 256 else if v < 0 then 0 else v;
    assert LittleEndian(u, 1) == [u % 256];
  }

  lemma DecodeVersioned(body: seq<byte>, minor: byte, major: byte)
    ensures DecodeBytes(body + ([minor] + [major]))
         == if major < 4 then ReadBody(major, 0, body + [minor]) else ReadBody(major, minor, body)
  {
    var s := body + ([minor] + [major]);
    var n := |s|;
    assert s[..n - 1] == body + [minor];
    assert s[..n - 2] == body;
  }

  lemma DecodeOfWrap(s: seq<byte>)
    requires Wrap(s).Some?
    ensures Decode(Wrap(s).value) == DecodeBytes(s)
  {
    UnwrapWrap(s);
  }

  lemma EncodedBytes(f: FileId)
    requires Encode(f).Some? && 0 <= f.major && 0 <= f.minor
    ensures f.minor < 128 && f.major < 128 && WriteBody(f).Some?
    ensures Encode(f) == Wrap(WriteBody(f).value + ([f.minor] + [f.major]))
  {
    VersionBytes(f.minor, f.major);
  }

  lemma BodyDecodes(f: FileId)
    requires VersionHolds(f) && f.major < 256 && f.minor < 256 && WriteBody(f).Some?
    ensures DecodeBytes(WriteBody(f).value + ([f.minor] + [f.major])) == Some(File(Normal(f)))
  {
    var body := WriteBody(f).value;
    DecodeVersioned(body, f.minor, f.major);
    if f.major < 4 {
      BodyRoundTrip(f, [f.minor]);
    } else {
      BodyRoundTrip(f, []);
      assert body + [] == body;
    }
  }

  /** Decoding an encoded file id gives it back with the fields its layout drops at their defaults. */
  lemma DecodeOfEncode(f: FileId)
    requires Encode(f).Some? && VersionHolds(f)
    ensures Decode(Encode(f).value) == Some(File(Normal(f)))
  {
    EncodedBytes(f);
    BodyDecodes(f);
    DecodeOfWrap(WriteBody(f).value + ([f.minor] + [f.major]));
  }

  lemma ReadTailKept(s: Source, b: seq<byte>)
    ensures ReadTail(s, b).Some? ==> Kept(s, ReadTail(s, b).value.0) == ReadTail(s, b).value.0
  {
  }

  lemma ReadPlacedKept(source: Source, placed: bool, volume: Option<int>, b: seq<byte>)
    requires ReadPlaced(source, placed, volume, b).Some?
    ensures var tail := ReadPlaced(source, placed, volume, b).value;
            tail == NormalTail(source, placed, tail)
  {
    ReadTailKept(source, b);
  }

  lemma ReadPhotoKept(major: byte, minor: byte, b: seq<byte>)
    requires ReadPhoto(major, minor, b).Some?
    ensures var (source, tail) := ReadPhoto(major, minor, b).value;
            (major < 4 ==> source == Legacy) && tail == NormalTail(source, minor < NO_VOLUME_AND_LOCAL_ID_MINOR, tail)
  {
    var placed := minor < NO_VOLUME_AND_LOCAL_ID_MINOR;
    var (volume, b1) := ReadIf(placed, 8, None, b).value;
    var (source, b2) := ReadSource(major, b1).value;
    ReadPlacedKept(source, placed, volume, b2);
  }

  lemma ReadContentNormal(major: byte, minor: byte, kind: FileType, dcId: int, referred: bool, b: seq<byte>)
    requires ReadContent(major, minor, kind, dcId, referred, b).Some? && (major < 4 ==> minor == 0)
    ensures var f := ReadContent(major, minor, kind, dcId, referred, b).value;
            f.major == major && f.minor == minor && VersionHolds(f) && Normal(f) == f
  {
    if IsPhoto(kind) {
      var b2 := ReadReference(referred, b).1;
      ReadPhotoKept(major, minor, Unpack([8, 8], b2).value.1);
    }
  }

  lemma ReadBodyNormal(major: byte, minor: byte, b: seq<byte>)
    requires ReadBody(major, minor, b).Some? && ReadBody(major, minor, b).value.File?
    requires major < 4 ==> minor == 0
    ensures var f := ReadBody(major, minor, b).value.id;
            f.major == major && f.minor == minor && VersionHolds(f) && Normal(f) == f
  {
    var (head, b1) := Unpack([4, 4], b).value;
    ReadTypedNormal(major, minor, head[0].value, head[1].value, b1);
  }

  lemma ReadTypedNormal(major: byte, minor: byte, word: int, dcId: int, b: seq<byte>)
    requires ReadTyped(major, minor, word, dcId, b).Some? && ReadTyped(major, minor, word, dcId, b).value.File?
    requires major < 4 ==> minor == 0
    ensures var f := ReadTyped(major, minor, word, dcId, b).value.id;
            f.major == major && f.minor == minor && VersionHolds(f) && Normal(f) == f
  {
    var referred := Flagged(word, FILE_REFERENCE_FLAG);
    ReadContentNormal(major, minor, word - (if referred then FILE_REFERENCE_FLAG else 0), dcId, referred, b);
  }

  /** Every decoded file id is one that decoding could have given back. */
  lemma DecodedIsNormal(t: string)
    requires Decode(t).Some? && Decode(t).value.File?
    ensures VersionHolds(Decode(t).value.id) && Normal(Decode(t).value.id) == Decode(t).value.id
  {
    var s := Unwrap(t).value;
    var n := |s|;
    if s[n - 1] < 4 {
      ReadBodyNormal(s[n - 1], 0, s[..n - 1]);
    } else {
      ReadBodyNormal(s[n - 1], s[n - 2], s[..n - 2]);
    }
  }

  /** The round trip holds exactly for the file ids with a version both sides agree on and no unused field set. */
  lemma RoundTripIff(f: FileId)
    requires Encode(f).Some?
    ensures Decode(Encode(f).value) == Some(File(f)) <==> VersionHolds(f) && Normal(f) == f
  {
    if VersionHolds(f) {
      DecodeOfEncode(f);
    } else if Decode(Encode(f).value) == Some(File(f)) {
      DecodedIsNormal(Encode(f).value);
    }
  }

  // ----- the bytes of a written id

  lemma OneField(width: nat, v: Option<int>, tail: seq<byte>)
    requires Pack([width], [v]).Some?
    ensures var b := Pack([width], [v]).value + tail;
            |b| == width + |tail| && v == Some(UnpackSigned(b[..width])) && b[width..] == tail
  {
    UnpackPack([width], [v], tail);
    var b := Pack([width], [v]).value + tail;
    PackOne(width, v.value);
    assert b[..width] == PackSigned(v.value, width).value;
    SignedRoundTrip(v.value, width);
  }

  lemma TwoFields(w: nat, v: Option<int>, w': nat, v': Option<int>, tail: seq<byte>)
    requires Pack([w, w'], [v, v']).Some?
    ensures var b := Pack([w, w'], [v, v']).value + tail;
            && |b| == w + w' + |tail|
            && v == Some(UnpackSigned(b[..w])) && v' == Some(UnpackSigned(b[w..w + w'])) && b[w + w'..] == tail
  {
    var widths, vals := [w, w'], [v, v'];
    assert widths[1..] == [w'] && vals[1..] == [v'];
    PackOne(w', v'.value);
    var x, y := PackSigned(v.value, w).value, PackSigned(v'.value, w').value;
    var b := (x + y) + tail;
    assert b[..w] == x && b[w..w + w'] == y && b[w + w'..] == tail;
    SignedRoundTrip(v.value, w);
    SignedRoundTrip(v'.value, w');
  }

  /** The type, with bit 25 set for a file reference, and the data centre; then the reference, if there is one, the
      media id and the access hash. */
  lemma BodyBytes(f: FileId)
    requires WriteBody(f).Some?
    ensures var b := WriteBody(f).value;
            && |b| >= 8 && UnpackSigned(b[..4]) == (if f.reference == [] then f.fileType else f.fileType + 0x200_0000)
            && UnpackSigned(b[4..8]) == f.dcId
            && (f.reference == [] ==>
                && |b| >= 24 && f.mediaId == Some(UnpackSigned(b[8..16])) && f.accessHash == Some(UnpackSigned(b[16..24]))
                && WriteKind(f) == Some(b[24..]))
            && (0 < |f.reference| <= 253 ==> |b| >= 9 + |f.reference| && b[8] == |f.reference| && b[9..9 + |f.reference|] == f.reference)
  {
    var reference, ids, kind := WriteReference(f.reference).value, Pack([8, 8], [f.mediaId, f.accessHash]).value, WriteKind(f).value;
    var content := reference + (ids + kind);
    var b := WriteBody(f).value;
    TwoFields(4, Some(TypeWord(f)), 4, Some(f.dcId), content);
    assert b[8..] == content;
    if f.reference == [] {
      TwoFields(8, f.mediaId, 8, f.accessHash, kind);
      assert content == ids + kind;
      assert b[8..16] == content[..8] && b[16..24] == content[8..16] && b[24..] == content[16..];
    } else if |f.reference| <= 253 {
      assert content[0] == |f.reference| && content[1..1 + |f.reference|] == f.reference;
      assert b[9..9 + |f.reference|] == content[1..1 + |f.reference|];
    }
  }

  /** A document without a reference carries its two versions. */
  lemma DocumentBytes(f: FileId)
    requires WriteKind(f).Some? && f.fileType !in {0, 1, 2, 11, 12}
    ensures var b := WriteKind(f).value;
            if f.reference != [] then b == []
            else |b| == 8 && UnpackSigned(b[..4]) == f.minor && UnpackSigned(b[4..8]) == f.major
  {
    if f.reference == [] {
      TwoFields(4, Some(f.minor), 4, Some(f.major), []);
      assert Pack([4, 4], [Some(f.minor), Some(f.major)]).value + [] == WriteKind(f).value;
    }
  }

  lemma PhotoParts(f: FileId) returns (volume: seq<byte>, tag: seq<byte>, tail: seq<byte>, local: seq<byte>)
    requires WriteKind(f).Some? && IsPhoto(f.fileType)
    ensures f.source.Some? && WriteKind(f).value == volume + (tag + (tail + local)) && Some(tail) == WriteTail(f.source.value, f.tail)
    ensures if f.minor < 32 then Pack([8], [f.tail.volumeId]) == Some(volume) else volume == []
    ensures if f.minor < 32 then Pack([4], [f.tail.localId]) == Some(local) else local == []
    ensures if f.major >= 4 then Pack([4], [Some(SourceCode(f.source.value))]) == Some(tag) else tag == []
  {
    volume := WriteIf(f.minor < 32, 8, f.tail.volumeId).value;
    tag := WriteIf(f.major >= 4, 4, Some(SourceCode(f.source.value))).value;
    tail := WriteTail(f.source.value, f.tail).value;
    local := WriteIf(f.minor < 32, 4, f.tail.localId).value;
  }

  /** A photo up to minor version 31 begins with its volume id and ends with its local id; from 32 on it has
      neither. From major version 4 on its source comes before the rest. */
  lemma PhotoBytes(f: FileId)
    requires WriteKind(f).Some? && f.fileType in {0, 1, 2, 11, 12}
    ensures var b := WriteKind(f).value;
            var rest := if f.minor <= 31 && |b| >= 8 then b[8..] else b;
            && f.source.Some?
            && (f.minor <= 31 ==> |b| >= 12 && f.tail.volumeId == Some(UnpackSigned(b[..8])))
            && (f.minor <= 31 ==> f.tail.localId == Some(UnpackSigned(b[|b| - 4..])))
            && (f.major >= 4 ==> |rest| >= 4 && UnpackSigned(rest[..4]) == SourceCode(f.source.value))
            && (f.major < 4 && f.minor >= 32 ==> Some(b) == WriteTail(f.source.value, f.tail))
  {
    var volume, tag, tail, local := PhotoParts(f);
    var b := WriteKind(f).value;
    var rest := tag + (tail + local);
    if f.minor <= 31 {
      OneField(8, f.tail.volumeId, rest);
      OneField(4, f.tail.localId, []);
      assert local + [] == local && local[..4] == local;
      assert b[|b| - 4..] == local;
    } else {
      assert b == rest;
      assert tail + local == tail;
      assert f.major < 4 ==> b == tail;
    }
    if f.major >= 4 {
      OneField(4, Some(SourceCode(f.source.value)), tail + local);
    }
  }

  function Offset(widths: seq<nat>, i: nat): (n: nat)
    requires i <= |widths|
  {
    if i == 0 then 0 else Offset(widths, i - 1) + widths[i - 1]
  }

  lemma {:induction false} OffsetShift(widths: seq<nat>, i: nat)
    requires widths != [] && i < |widths|
    ensures Offset(widths, i + 1) == widths[0] + Offset(widths[1..], i)
  {
    if i > 0 {
      OffsetShift(widths, i - 1);
    }
  }

  /** `v` is the field of the given width at the given place. */
  predicate FieldIs(b: seq<byte>, at: nat, width: nat, v: Option<int>) {
    at + width <= |b| && v == Some(UnpackSigned(b[at..at + width]))
  }

  /** A packed field stands after the fields before it. */
  lemma {:induction false} FieldAt(widths: seq<nat>, vals: seq<Option<int>>, i: nat)
    requires |widths| == |vals| && i < |widths| && Pack(widths, vals).Some?
    ensures FieldIs(Pack(widths, vals).value, Offset(widths, i), widths[i], vals[i])
  {
    var head, rest := PackSigned(vals[0].value, widths[0]).value, Pack(widths[1..], vals[1..]).value;
    var b := head + rest;
    if i == 0 {
      assert b[..widths[0]] == head;
      SignedRoundTrip(vals[0].value, widths[0]);
    } else {
      FieldAt(widths[1..], vals[1..], i - 1);
      OffsetShift(widths, i - 1);
      var at := Offset(widths[1..], i - 1);
      assert b[widths[0] + at..widths[0] + at + widths[i]] == rest[at..at + widths[i]];
    }
  }

  ghost predicate AllFields(w: seq<nat>, v: seq<Option<int>>, b: seq<byte>) {
    |w| == |v| && forall i :: 0 <= i < |w| ==> FieldIs(b, Offset(w, i), w[i], v[i])
  }

  lemma PackedFields(w: seq<nat>, v: seq<Option<int>>)
    requires |w| == |v| && Pack(w, v).Some?
    ensures AllFields(w, v, Pack(w, v).value)
  {
    forall i | 0 <= i < |w| ensures FieldIs(Pack(w, v).value, Offset(w, i), w[i], v[i]) {
      FieldAt(w, v, i);
    }
  }

  lemma FieldsInOrder(w: seq<nat>, v: seq<Option<int>>, b: seq<byte>)
    requires AllFields(w, v, b) && |w| >= 2
    ensures FieldIs(b, 0, w[0], v[0]) && FieldIs(b, w[0], w[1], v[1])
    ensures |w| >= 3 ==> FieldIs(b, w[0] + w[1], w[2], v[2])
    ensures |w| >= 4 ==> FieldIs(b, w[0] + w[1] + w[2], w[3], v[3])
  {
    assert Offset(w, 0) == 0 && Offset(w, 1) == w[0] && Offset(w, 2) == w[0] + w[1];
    assert |w| >= 4 ==> Offset(w, 3) == w[0] + w[1] + w[2];
  }

  lemma FieldsOf(w: seq<nat>, v: seq<Option<int>>)
    requires |w| == |v| >= 2 && Pack(w, v).Some?
    ensures var b := Pack(w, v).value;
            && FieldIs(b, 0, w[0], v[0]) && FieldIs(b, w[0], w[1], v[1])
            && (|w| >= 3 ==> FieldIs(b, w[0] + w[1], w[2], v[2])) && (|w| >= 4 ==> FieldIs(b, w[0] + w[1] + w[2], w[3], v[3]))
  {
    PackedFields(w, v);
    FieldsInOrder(w, v, Pack(w, v).value);
  }

  /** Where the older layouts of a source put their fields. */
  lemma LegacyTailBytes(s: Source, t: Tail)
    requires WriteTail(s, t).Some?
    ensures var b := WriteTail(s, t).value;
            && (s.FullLegacy? ==> FieldIs(b, 0, 8, t.volumeId) && FieldIs(b, 8, 8, t.secret) && FieldIs(b, 16, 4, t.localId))
            && (s.ChatPhotoSmallLegacy? || s.ChatPhotoBigLegacy? ==>
                && FieldIs(b, 0, 8, t.chatId) && FieldIs(b, 8, 8, t.chatAccessHash)
                && FieldIs(b, 16, 8, t.volumeId) && FieldIs(b, 24, 4, t.localId))
            && (s.StickerSetThumbnailLegacy? ==>
                && FieldIs(b, 0, 8, t.stickerSetId) && FieldIs(b, 8, 8, t.stickerSetAccessHash)
                && FieldIs(b, 16, 8, t.volumeId) && FieldIs(b, 24, 4, t.localId))
            && (s.StickerSetThumbnailVersion? ==>
                && FieldIs(b, 0, 8, t.stickerSetId) && FieldIs(b, 8, 8, t.stickerSetAccessHash)
                && FieldIs(b, 16, 4, t.stickerSetVersion))
  {
    match s
    case FullLegacy => FieldsOf([8, 8, 4], [t.volumeId, t.secret, t.localId]);
    case ChatPhotoSmallLegacy | ChatPhotoBigLegacy => FieldsOf([8, 8, 8, 4], [t.chatId, t.chatAccessHash, t.volumeId, t.localId]);
    case StickerSetThumbnailLegacy =>
      FieldsOf([8, 8, 8, 4], [t.stickerSetId, t.stickerSetAccessHash, t.volumeId, t.localId]);
    case StickerSetThumbnailVersion =>
      FieldsOf([8, 8, 4], [t.stickerSetId, t.stickerSetAccessHash, t.stickerSetVersion]);
    case _ =>
  }

  /** Where the current layouts of a source put their fields. */
  lemma TailBytes(s: Source, t: Tail)
    requires WriteTail(s, t).Some?
    ensures var b := WriteTail(s, t).value;
            && (s.Legacy? ==> FieldIs(b, 0, 8, t.secret))
            && (s.Thumbnail? ==> FieldIs(b, 0, 4, t.thumbnailFileType) && |t.thumbnailSize| == 1 && FieldIs(b, 4, 4, Some(t.thumbnailSize[0])))
            && (s.ChatPhotoSmall? || s.ChatPhotoBig? ==> FieldIs(b, 0, 8, t.chatId) && FieldIs(b, 8, 8, t.chatAccessHash))
            && (s.StickerSetThumbnail? ==> FieldIs(b, 0, 8, t.stickerSetId) && FieldIs(b, 8, 8, t.stickerSetAccessHash))
  {
    match s
    case Legacy => FieldAt([8], [t.secret], 0);
    case Thumbnail => FieldsOf([4, 4], [t.thumbnailFileType, Ord(t.thumbnailSize)]);
    case ChatPhotoSmall | ChatPhotoBig => FieldsOf([8, 8], [t.chatId, t.chatAccessHash]);
    case StickerSetThumbnail => FieldsOf([8, 8], [t.stickerSetId, t.stickerSetAccessHash]);
    case _ =>
  }
}
