/**
 The two outer layers of a file id: zero-run RLE over bytes, and unpadded URL-safe base64.
 */
module FileIdText {
  import opened Bytes

  // ----- zero-run RLE

  /** What `rle_encode` appends for the rest `s` of its input after `n` pending zeros. */
  function Encoded(s: seq<byte>, n: nat): (r: seq<nat>) {
    if s == [] then Run(n)
    else if s[0] == 0 then Encoded(s[1..], n + 1)
    else Run(n) + [s[0]] + Encoded(s[1..], 0)
  }

  /** What a run of pending zeros becomes. */
  function Run(n: nat): (r: seq<nat>) {
    if n > 0 then [0, n] else []
  }

  lemma EncodedStep(s: seq<byte>, i: nat, n: nat, r: seq<nat>)
    requires i < |s|
    ensures r + Encoded(s[i..], n)
         == if s[i] == 0 then r + Encoded(s[i + 1..], n + 1) else r + Run(n) + [s[i]] + Encoded(s[i + 1..], 0)
  {
    assert s[i..][1..] == s[i + 1..];
    var rest := Encoded(s[i + 1..], 0);
    assert r + (Run(n) + [s[i]] + rest) == r + Run(n) + [s[i]] + rest;
  }

  predicate AreBytes(r: seq<nat>) {
    forall i :: 0 <= i < |r| ==> r[i] < 256
  }

  /** `rle_encode`: `bytes(r)` raises if a run is longer than 255. */
  method RleEncode(s: seq<byte>) returns (out: Option<seq<byte>>)
    ensures out.Some? <==> AreBytes(Encoded(s, 0))
    ensures out.Some? ==> out.value == Encoded(s, 0)
  {
    var r: seq<nat> := [];
    var n: nat := 0;
    ghost var goal := Encoded(s, 0);
    assert s[0..] == s && r + goal == goal;
    for i := 0 to |s|
      invariant goal == r + Encoded(s[i..], n)
    {
      EncodedStep(s, i, n, r);
      if s[i] == 0 {
        n := n + 1;
      } else {
        if n > 0 {
          r := r + [0, n];
        } else {
          assert r == r + Run(n);
        }
        n := 0;
        r := r + [s[i]];
      }
    }
    assert goal == r + Run(n);
    if n > 0 {
      r := r + [0, n];
    }
    assert r == goal;
    out := if AreBytes(r) then Some(r) else None;
  }

  /** What `rle_decode` appends for the rest `s`; `z` tells that a zero has just been read. */
  function Decoded(s: seq<byte>, z: bool): (r: seq<byte>) {
    if s == [] then []
    else if s[0] == 0 then Decoded(s[1..], true)
    else (if z then Zeros(s[0]) else [s[0]]) + Decoded(s[1..], false)
  }

  lemma DecodedStep(s: seq<byte>, i: nat, z: bool)
    requires i < |s|
    ensures Decoded(s[i..], z)
         == if s[i] == 0 then Decoded(s[i + 1..], true)
            else (if z then Zeros(s[i]) else [s[i]]) + Decoded(s[i + 1..], false)
  {
    assert s[i..][1..] == s[i + 1..];
  }

  method RleDecode(s: seq<byte>) returns (r: seq<byte>)
    ensures r == Decoded(s, false)
  {
    r := [];
    var z := false;
    for i := 0 to |s|
      invariant Decoded(s, false) == r + Decoded(s[i..], z)
    {
      DecodedStep(s, i, z);
      if s[i] == 0 {
        z := true;
      } else if z {
        r := r + Zeros(s[i]);
        z := false;
      } else {
        r := r + [s[i]];
      }
    }
  }

  /** The longest run of zeros in `s`, `n` pending ones counted. */
  function LongestRun(s: seq<byte>, n: nat): (r: nat)
    ensures r >= n
  {
    if s == [] then n
    else if s[0] == 0 then LongestRun(s[1..], n + 1)
    else var rest := LongestRun(s[1..], 0); if rest > n then rest else n
  }

  lemma {:induction false} FitsIff(s: seq<byte>, n: nat)
    ensures AreBytes(Encoded(s, n)) <==> LongestRun(s, n) <= 255
  {
    if s == [] {
    } else if s[0] == 0 {
      FitsIff(s[1..], n + 1);
    } else {
      FitsIff(s[1..], 0);
      var run: seq<nat> := if n > 0 then [0, n] else [];
      assert Encoded(s, n) == run + [s[0]] + Encoded(s[1..], 0);
      AreBytesConcat(run + [s[0]], Encoded(s[1..], 0));
      AreBytesConcat(run, [s[0]]);
      assert AreBytes(run) <==> n <= 255 by {
        if n > 0 {
          assert run[1] == n;
        }
      }
    }
  }

  lemma AreBytesConcat(a: seq<nat>, b: seq<nat>)
    ensures AreBytes(a + b) <==> AreBytes(a) && AreBytes(b)
  {
    if AreBytes(a + b) {
      assert forall i :: 0 <= i < |a| ==> a[i] == (a + b)[i];
      assert forall i :: 0 <= i < |b| ==> b[i] == (a + b)[|a| + i];
    }
  }

  lemma DecodedRun(n: nat, rest: seq<byte>)
    requires 0 < n < 256
    ensures Decoded([0, n] + rest, false) == Zeros(n) + Decoded(rest, false)
  {
    var s := [0, n] + rest;
    assert s[1..] == [n] + rest && s[1..][1..] == rest;
  }

  lemma DecodedByte(b: byte, rest: seq<byte>)
    requires b != 0
    ensures Decoded([b] + rest, false) == [b] + Decoded(rest, false)
  {
    assert ([b] + rest)[1..] == rest;
  }

  lemma DecodedPending(n: nat, rest: seq<byte>)
    requires n < 256
    ensures Decoded((if n > 0 then [0, n] else []) + rest, false) == Zeros(n) + Decoded(rest, false)
  {
    if n > 0 {
      DecodedRun(n, rest);
    } else {
      assert [] + rest == rest;
    }
  }

  /** Decoding undoes encoding, whenever the encoder does not raise. */
  lemma {:induction false} RleRoundTrip(s: seq<byte>, n: nat)
    requires AreBytes(Encoded(s, n))
    ensures Decoded(Encoded(s, n), false) == Zeros(n) + s
  {
    if s == [] {
      if n > 0 {
        assert Encoded(s, n)[1] == n;
        DecodedRun(n, []);
        assert [0, n] + [] == [0, n];
      }
    } else if s[0] == 0 {
      RleRoundTrip(s[1..], n + 1);
      assert Zeros(n + 1) + s[1..] == Zeros(n) + s;
    } else {
      var run: seq<nat>, rest := if n > 0 then [0, n] else [], Encoded(s[1..], 0);
      assert Encoded(s, n) == run + ([s[0]] + rest);
      AreBytesConcat(run, [s[0]] + rest);
      AreBytesConcat([s[0]], rest);
      assert n > 0 ==> run[1] == n;
      RleRoundTrip(s[1..], 0);
      DecodedPending(n, [s[0]] + rest);
      DecodedByte(s[0], rest);
      assert Zeros(0) + s[1..] == s[1..];
      assert [s[0]] + s[1..] == s;
    }
  }

  // ----- base64

  type digit = x: int | 0 <= x < 64

  /** The URL-safe alphabet: section 5 of RFC 4648. */
  function DigitChar(d: digit): (c: char) {
    if d < 26 then 'A' + d as char
    else if d < 52 then 'a' + (d - 26) as char
    else if d < 62 then '0' + (d - 52) as char
    else if d == 62 then '-' else '_'
  }

  function CharDigit(c: char): (d: Option<digit>) {
    if 'A' <= c <= 'Z' then Some(c as int - 'A' as int)
    else if 'a' <= c <= 'z' then Some(c as int - 'a' as int + 26)
    else if '0' <= c <= '9' then Some(c as int - '0' as int + 52)
    else if c == '-' then Some(62)
    else if c == '_' then Some(63)
    else None
  }

  lemma CharOfDigit(d: digit)
    ensures CharDigit(DigitChar(d)) == Some(d) && DigitChar(d) != '='
  {
  }

  function FirstDigit(x: byte): (d: digit) {
    x / 4
  }

  function SecondDigit(x: byte, y: byte): (d: digit) {
    x % 4 * 16 + y / 16
  }

  function ThirdDigit(y: byte, z: byte): (d: digit) {
    y % 16 * 4 + z / 64
  }

  function LastDigit(z: byte): (d: digit) {
    z % 64
  }

  /** Three bytes as four digits; one or two bytes, filled up with zero bits, as two or three digits. */
  function Digits(s: seq<byte>): (r: seq<digit>) {
    if |s| == 0 then []
    else if |s| == 1 then [FirstDigit(s[0]), SecondDigit(s[0], 0)]
    else if |s| == 2 then [FirstDigit(s[0]), SecondDigit(s[0], s[1]), ThirdDigit(s[1], 0)]
    else Group(s[0], s[1], s[2]) + Digits(s[3..])
  }

  function Group(x: byte, y: byte, z: byte): (r: seq<digit>)
    ensures |r| == 4
  {
    [FirstDigit(x), SecondDigit(x, y), ThirdDigit(y, z), LastDigit(z)]
  }

  function FirstByte(a: int, b: int): (r: byte)
    requires 0 <= a < 64 && 0 <= b < 64
  {
    a * 4 + b / 16
  }

  function SecondByte(b: int, c: int): (r: byte)
    requires 0 <= b < 64 && 0 <= c < 64
  {
    b % 16 * 16 + c / 4
  }

  function ThirdByte(c: int, d: int): (r: byte)
    requires 0 <= c < 64 && 0 <= d < 64
  {
    c % 4 * 64 + d
  }

  /** The bytes of a digit string; a single digit left over is an error. */
  function FromDigits(ds: seq<digit>): (r: Option<seq<byte>>) {
    if |ds| == 0 then Some([])
    else if |ds| == 1 then None
    else
      if |ds| == 2 then Some([FirstByte(ds[0], ds[1])])
      else if |ds| == 3 then Some([FirstByte(ds[0], ds[1]), SecondByte(ds[1], ds[2])])
      else
        var rest :- FromDigits(ds[4..]);
        Some(Bytes3(ds[..4]) + rest)
  }

  function Bytes3(ds: seq<digit>): (r: seq<byte>)
    requires |ds| == 4
  {
    [FirstByte(ds[0], ds[1]), SecondByte(ds[1], ds[2]), ThirdByte(ds[2], ds[3])]
  }

  lemma GroupRoundTrip(x: byte, y: byte, z: byte)
    ensures FirstByte(FirstDigit(x), SecondDigit(x, y)) == x
    ensures SecondByte(SecondDigit(x, y), ThirdDigit(y, z)) == y
    ensures ThirdByte(ThirdDigit(y, z), LastDigit(z)) == z
  {
  }

  lemma BytesOfGroup(x: byte, y: byte, z: byte)
    ensures Bytes3(Group(x, y, z)) == [x, y, z]
  {
    GroupRoundTrip(x, y, z);
  }

  lemma FromFew(a: digit, b: digit, c: digit)
    ensures FromDigits([a, b]) == Some([FirstByte(a, b)])
    ensures FromDigits([a, b, c]) == Some([FirstByte(a, b), SecondByte(b, c)])
  {
  }

  lemma OneByteRoundTrip(s: seq<byte>, y: byte)
    requires |s| == 1 && y == 0
    ensures FromDigits(Digits(s)) == Some(s)
  {
    var x := s[0];
    assert Digits(s) == [FirstDigit(x), SecondDigit(x, y)];
    FromFew(FirstDigit(x), SecondDigit(x, y), SecondDigit(x, y));
    GroupRoundTrip(x, y, x);
    assert s == [x];
  }

  lemma TwoByteRoundTrip(s: seq<byte>, z: byte)
    requires |s| == 2 && z == 0
    ensures FromDigits(Digits(s)) == Some(s)
  {
    var x, y := s[0], s[1];
    assert Digits(s) == [FirstDigit(x), SecondDigit(x, y), ThirdDigit(y, z)];
    FromFew(FirstDigit(x), SecondDigit(x, y), ThirdDigit(y, z));
    GroupRoundTrip(x, y, z);
    assert s == [x, y];
  }

  lemma {:induction false} DigitsRoundTrip(s: seq<byte>)
    ensures FromDigits(Digits(s)) == Some(s)
  {
    if |s| == 1 {
      OneByteRoundTrip(s, 0);
    } else if |s| == 2 {
      TwoByteRoundTrip(s, 0);
    } else if |s| >= 3 {
      DigitsRoundTrip(s[3..]);
      BytesOfGroup(s[0], s[1], s[2]);
      var four := Group(s[0], s[1], s[2]);
      FromGroup(four, Digits(s[3..]));
      assert s == [s[0], s[1], s[2]] + s[3..];
    }
  }

  lemma FromGroup(four: seq<digit>, rest: seq<digit>)
    requires |four| == 4 && FromDigits(rest).Some?
    ensures FromDigits(four + rest) == Some(Bytes3(four) + FromDigits(rest).value)
  {
    assert (four + rest)[4..] == rest && (four + rest)[..4] == four;
  }

  function Chars(ds: seq<digit>): (t: string)
    ensures |t| == |ds|
  {
    seq(|ds|, i requires 0 <= i < |ds| => DigitChar(ds[i]))
  }

  function Equals(n: nat): (t: string)
    ensures |t| == n && forall i :: 0 <= i < n ==> t[i] == '='
  {
    seq(n, i => '=')
  }

  /** `(-n) % 4`. */
  function Padding(n: nat): (r: nat)
    ensures r < 4 && (n + r) % 4 == 0
  {
    (4 - n % 4) % 4
  }

  /** `base64.urlsafe_b64encode`, padded to whole groups of four. */
  function UrlsafeEncode(s: seq<byte>): (t: string) {
    var t := Chars(Digits(s));
    t + Equals(Padding(|t|))
  }

  /** `t.strip("=")`. */
  function StripLeft(t: string): (r: string) {
    if t != "" && t[0] == '=' then StripLeft(t[1..]) else t
  }

  function StripRight(t: string): (r: string) {
    if t != "" && t[|t| - 1] == '=' then StripRight(t[..|t| - 1]) else t
  }

  /** `b64_encode`. */
  function B64Encode(s: seq<byte>): (t: string) {
    StripRight(StripLeft(UrlsafeEncode(s)))
  }

  /** The digits of a string over the alphabet. */
  function ParseDigits(t: string): (r: Option<seq<digit>>) {
    if t == "" then Some([])
    else
      var d, rest := CharDigit(t[0]), ParseDigits(t[1..]);
      if d.Some? && rest.Some? then Some([d.value] + rest.value) else None
  }

  /** `base64.urlsafe_b64decode` on whole groups of four, for strings over the alphabet and their padding. */
  function UrlsafeDecode(t: string): (r: Option<seq<byte>>) {
    if |t| % 4 != 0 then None
    else
      var ds := ParseDigits(StripRight(t));
      if ds.None? || Padding(|ds.value|) != |t| - |ds.value| then None else FromDigits(ds.value)
  }

  /** `b64_decode`. */
  function B64Decode(t: string): (r: Option<seq<byte>>) {
    UrlsafeDecode(t + Equals(Padding(|t|)))
  }

  lemma {:induction false} StripRightPadding(t: string, n: nat)
    requires t != "" ==> t[|t| - 1] != '='
    ensures StripRight(t + Equals(n)) == t
  {
    if n == 0 {
      assert t + Equals(0) == t;
    } else {
      assert (t + Equals(n))[..|t| + n - 1] == t + Equals(n - 1);
      StripRightPadding(t, n - 1);
    }
  }

  lemma {:induction false} ParseOfChars(ds: seq<digit>)
    ensures ParseDigits(Chars(ds)) == Some(ds)
  {
    if ds != [] {
      CharOfDigit(ds[0]);
      ParseOfChars(ds[1..]);
      assert Chars(ds)[1..] == Chars(ds[1..]);
      assert [ds[0]] + ds[1..] == ds;
    }
  }

  lemma CharsNoPadding(ds: seq<digit>)
    ensures ds != [] ==> Chars(ds)[0] != '=' && Chars(ds)[|ds| - 1] != '='
  {
    if ds != [] {
      CharOfDigit(ds[0]);
      CharOfDigit(ds[|ds| - 1]);
    }
  }

  lemma EncodeIsChars(s: seq<byte>)
    ensures B64Encode(s) == Chars(Digits(s))
  {
    var t := Chars(Digits(s));
    CharsNoPadding(Digits(s));
    if t == "" {
      assert Padding(0) == 0;
      assert t + Equals(0) == "";
    } else {
      assert UrlsafeEncode(s)[0] == t[0];
    }
    StripRightPadding(t, Padding(|t|));
  }

  lemma DecodeOfChars(ds: seq<digit>)
    ensures B64Decode(Chars(ds)) == FromDigits(ds)
  {
    var t := Chars(ds);
    CharsNoPadding(ds);
    StripRightPadding(t, Padding(|t|));
    ParseOfChars(ds);
  }

  /** Unpadded base64 is inverted by putting the padding back. */
  lemma B64RoundTrip(s: seq<byte>)
    ensures B64Decode(B64Encode(s)) == Some(s)
  {
    EncodeIsChars(s);
    DecodeOfChars(Digits(s));
    DigitsRoundTrip(s);
  }

  /** The six bytes 14 FB 9C 03 D9 7E of RFC 4648, section 9, in the alphabet for urls. */
  lemma KnownEncoding()
    ensures B64Encode([0x14, 0xFB, 0x9C, 0x03, 0xD9, 0x7E]) == "FPucA9l-"
  {
    var s: seq<byte> := [0x14, 0xFB, 0x9C, 0x03, 0xD9, 0x7E];
    EncodeIsChars(s);
    var t: seq<byte> := [0x03, 0xD9, 0x7E];
    assert s[3..] == t && t[3..] == [];
    assert Group(0x14, 0xFB, 0x9C) == [5, 15, 46, 28] && Group(0x03, 0xD9, 0x7E) == [0, 61, 37, 62];
    assert Digits(t) == [0, 61, 37, 62] + [];
    assert Digits(s) == [5, 15, 46, 28, 0, 61, 37, 62];
    assert Chars([5, 15, 46, 28, 0, 61, 37, 62]) == "FPucA9l-";
  }

  // ----- both layers

  /** `b64_encode(rle_encode(s))`. */
  function Wrap(s: seq<byte>): (t: Option<string>) {
    var r := Encoded(s, 0);
    if AreBytes(r) then Some(B64Encode(r)) else None
  }

  /** `rle_decode(b64_decode(t))`. */
  function Unwrap(t: string): (s: Option<seq<byte>>) {
    var r := B64Decode(t);
    if r.Some? then Some(Decoded(r.value, false)) else None
  }

  /** The layers are inverse on every input without a run of more than 255 zeros, and raise on the others. */
  lemma UnwrapWrap(s: seq<byte>)
    ensures Wrap(s).Some? <==> LongestRun(s, 0) <= 255
    ensures Wrap(s).Some? ==> Unwrap(Wrap(s).value) == Some(s)
  {
    FitsIff(s, 0);
    if Wrap(s).Some? {
      B64RoundTrip(Encoded(s, 0));
      RleRoundTrip(s, 0);
      assert Zeros(0) + s == s;
    }
  }
}
