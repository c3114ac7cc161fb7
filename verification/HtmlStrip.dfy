/**
 Reading the printed markup back at the level of characters: tags dropped, escapes undone.
 */
module HtmlStrip {
  import opened HtmlMarkup
  import opened HtmlUnparse

  /** A decoder looks at the front of a string: the characters a reference there stands for, and its length or 0. */
  type Decoder = string -> (string, nat)

  predicate BoundedAt(ref: Decoder, s: string) {
    ref(s).1 <= |s| && |ref(s).0| <= ref(s).1
  }

  ghost predicate Bounded(ref: Decoder) {
    forall s :: BoundedAt(ref, s)
  }

  predicate IsEscaped(c: char) {
    c == '&' || c == '<' || c == '>' || c == '\"' || c == '\''
  }

  predicate UndoesAt(ref: Decoder, c: char, rest: string) {
    IsEscaped(c) ==> ref(EscapeChar(c) + rest) == ([c], |EscapeChar(c)|)
  }

  predicate PlainAt(ref: Decoder, s: string) {
    s != "" && s[0] != '&' ==> ref(s).1 == 0
  }

  predicate StopsAt(ref: Decoder, h: string, t: string) {
    h != "" && (h[|h| - 1] == '>' || (t != "" && t[0] == '<')) ==> ref(h + t) == ref(h)
  }

  /** The decoder knows what `html.escape` writes, starts only at an ampersand, and never looks past a `<` or a `>`. */
  ghost predicate UndoesEscape(ref: Decoder) {
    && Bounded(ref)
    && (forall c, rest :: UndoesAt(ref, c, rest))
    && (forall s :: PlainAt(ref, s))
    && (forall h, t :: StopsAt(ref, h, t))
  }

  /** Drop everything from `<` to the next `>`, and undo references outside of tags. */
  ghost function Strip(ref: Decoder, s: string, inTag: bool): (r: string)
    requires Bounded(ref)
    ensures |r| <= |s|
    decreases |s|
  {
    assert BoundedAt(ref, s);
    if s == "" then ""
    else if inTag then Strip(ref, s[1..], s[0] != '>')
    else if s[0] == '<' then Strip(ref, s[1..], true)
    else if ref(s).1 > 0 then ref(s).0 + Strip(ref, s[ref(s).1..], false)
    else [s[0]] + Strip(ref, s[1..], false)
  }

  // ----- one escaped piece

  lemma StripReference(ref: Decoder, p: string, c: char, rest: string)
    requires Bounded(ref) && p != "" && p[0] == '&' && ref(p + rest) == ([c], |p|)
    ensures Strip(ref, p + rest, false) == [c] + Strip(ref, rest, false)
  {
    assert (p + rest)[|p|..] == rest;
  }

  lemma StripPlain(ref: Decoder, c: char, rest: string)
    requires UndoesEscape(ref) && c != '&' && c != '<'
    ensures Strip(ref, [c] + rest, false) == [c] + Strip(ref, rest, false)
  {
    assert ([c] + rest)[1..] == rest;
    assert PlainAt(ref, [c] + rest);
  }

  /** Undoing the escape of one character. */
  lemma StripEscapedChar(ref: Decoder, c: char, rest: string)
    requires UndoesEscape(ref)
    ensures Strip(ref, EscapeChar(c) + rest, false) == [c] + Strip(ref, rest, false)
  {
    if IsEscaped(c) {
      assert EscapeChar(c)[0] == '&';
      assert UndoesAt(ref, c, rest);
      StripReference(ref, EscapeChar(c), c, rest);
    } else {
      StripPlain(ref, c, rest);
    }
  }

  lemma EscapeCons(s: string, rest: string)
    requires s != ""
    ensures Escape(s) + rest == EscapeChar(s[0]) + (Escape(s[1..]) + rest)
  {
  }

  lemma Join3(a: string, b: string, c: string)
    ensures a + (b + c) == a + b + c
  {
  }

  /** Stripping undoes `html.escape`. */
  lemma {:induction false} StripEscaped(ref: Decoder, s: string, rest: string)
    requires UndoesEscape(ref)
    ensures Strip(ref, Escape(s) + rest, false) == s + Strip(ref, rest, false)
  {
    if s == "" {
      assert Escape(s) + rest == rest;
    } else {
      EscapeCons(s, rest);
      StripEscapedChar(ref, s[0], Escape(s[1..]) + rest);
      StripEscaped(ref, s[1..], rest);
      assert s == [s[0]] + s[1..];
      Join3([s[0]], s[1..], Strip(ref, rest, false));
    }
  }

  // ----- tags

  /** A printed tag: it may hold further brackets in its attributes. */
  predicate Bracketed(t: string) {
    |t| >= 2 && t[0] == '<' && t[|t| - 1] == '>'
  }

  /** What stripping leaves of a tag. */
  ghost function Left(ref: Decoder, tag: string): (r: string)
    requires Bounded(ref)
  {
    Strip(ref, tag, false)
  }

  /** What the front of a text outside of tags stands for, and how much of the text that is. */
  function Front(ref: Decoder, s: string): (r: (string, nat))
    requires s != ""
  {
    if ref(s).1 > 0 then ref(s) else ([s[0]], 1)
  }

  lemma StripOne(ref: Decoder, s: string)
    requires Bounded(ref) && s != "" && s[0] != '<'
    ensures 0 < Front(ref, s).1 <= |s|
    ensures Strip(ref, s, false) == Front(ref, s).0 + Strip(ref, s[Front(ref, s).1..], false)
  {
    assert BoundedAt(ref, s);
  }

  lemma DropConcat(h: string, t: string, k: nat)
    requires k <= |h|
    ensures (h + t)[k..] == h[k..] + t
  {
  }

  lemma StripFront(ref: Decoder, h: string, t: string)
    requires Bounded(ref) && h != "" && h[0] != '<' && ref(h + t) == ref(h)
    ensures 0 < Front(ref, h).1 <= |h|
    ensures Strip(ref, h, false) == Front(ref, h).0 + Strip(ref, h[Front(ref, h).1..], false)
    ensures Strip(ref, h + t, false) == Front(ref, h).0 + Strip(ref, h[Front(ref, h).1..] + t, false)
  {
    StripOne(ref, h);
    StripOne(ref, h + t);
    DropConcat(h, t, Front(ref, h).1);
  }

  /** What ends with a closing bracket is stripped on its own. */
  lemma {:induction false} StripThrough(ref: Decoder, h: string, rest: string, inTag: bool)
    requires UndoesEscape(ref) && if h == "" then !inTag else h[|h| - 1] == '>'
    ensures Strip(ref, h + rest, inTag) == Strip(ref, h, inTag) + Strip(ref, rest, false)
    decreases |h|
  {
    if h == "" {
      assert h + rest == rest;
    } else if inTag || h[0] == '<' {
      assert (h + rest)[1..] == h[1..] + rest;
      StripThrough(ref, h[1..], rest, if inTag then h[0] != '>' else true);
    } else {
      var (c, k) := Front(ref, h);
      assert StopsAt(ref, h, rest);
      StripFront(ref, h, rest);
      StripThrough(ref, h[k..], rest, false);
      Join3(c, Strip(ref, h[k..], false), Strip(ref, rest, false));
    }
  }

  /** In a tag or not, a tag is stripped the same way. */
  lemma StripTag(ref: Decoder, t: string, rest: string, inTag: bool)
    requires UndoesEscape(ref) && Bracketed(t)
    ensures Strip(ref, t + rest, inTag) == Left(ref, t) + Strip(ref, rest, false)
  {
    StripThrough(ref, t, rest, inTag);
    assert Strip(ref, t, true) == Strip(ref, t[1..], true);
  }

  /** Raw text in front of a tag is stripped on its own, even when it leaves a `<` open. */
  lemma {:induction false} StripBeforeTag(ref: Decoder, h: string, t: string, rest: string, inTag: bool)
    requires UndoesEscape(ref) && Bracketed(t)
    ensures Strip(ref, h + (t + rest), inTag) == Strip(ref, h, inTag) + Strip(ref, t + rest, false)
    decreases |h|
  {
    var end := t + rest;
    if h == "" {
      assert h + end == end;
      StripTag(ref, t, rest, inTag);
      StripTag(ref, t, rest, false);
    } else if inTag || h[0] == '<' {
      assert (h + end)[1..] == h[1..] + end;
      StripBeforeTag(ref, h[1..], t, rest, if inTag then h[0] != '>' else true);
    } else {
      var (c, k) := Front(ref, h);
      assert StopsAt(ref, h, end);
      StripFront(ref, h, end);
      StripBeforeTag(ref, h[k..], t, rest, false);
      Join3(c, Strip(ref, h[k..], false), Strip(ref, end, false));
    }
  }

  // ----- the printed markup

  ghost predicate AllBracketed(ms: seq<Mark>) {
    forall i :: 0 <= i < |ms| ==> Bracketed(ms[i].tag)
  }

  /** What stripping makes of the marks from number `k` on and the pieces between them. */
  ghost function Between(ref: Decoder, text: string, ms: seq<Mark>, k: nat): (r: string)
    requires Bounded(ref) && k < |ms| && Nondecreasing(ms, 0, |text|)
    decreases |ms| - k
  {
    if k + 1 == |ms| then Left(ref, ms[k].tag)
    else Left(ref, ms[k].tag) + text[ms[k].offset..ms[k + 1].offset] + Between(ref, text, ms, k + 1)
  }

  lemma StripPiece(ref: Decoder, tag: string, piece: string, rest: string)
    requires UndoesEscape(ref) && Bracketed(tag)
    ensures Strip(ref, tag + Escape(piece) + rest, false) == Left(ref, tag) + (piece + Strip(ref, rest, false))
  {
    Join3(tag, Escape(piece), rest);
    StripTag(ref, tag, Escape(piece) + rest, false);
    StripEscaped(ref, piece, rest);
  }

  lemma {:induction false} StripTail(ref: Decoder, text: string, ms: seq<Mark>, k: nat)
    requires UndoesEscape(ref) && k < |ms| && Nondecreasing(ms, 0, |text|) && AllBracketed(ms)
    ensures Strip(ref, Tail(text, ms, k), false)
         == Between(ref, text, ms, k) + Strip(ref, text[ms[|ms| - 1].offset..], false)
    decreases |ms| - k
  {
    if k + 1 == |ms| {
      StripTag(ref, ms[k].tag, text[ms[k].offset..], false);
    } else {
      var piece, end := text[ms[k].offset..ms[k + 1].offset], Strip(ref, text[ms[|ms| - 1].offset..], false);
      StripTail(ref, text, ms, k + 1);
      StripPiece(ref, ms[k].tag, piece, Tail(text, ms, k + 1));
      Regroup(Left(ref, ms[k].tag), piece, Between(ref, text, ms, k + 1), end);
    }
  }

  lemma Regroup(a: string, b: string, c: string, d: string)
    ensures a + (b + (c + d)) == (a + b + c) + d
  {
  }

  lemma TailStartsWithTag(text: string, ms: seq<Mark>) returns (rest: string)
    requires ms != [] && Nondecreasing(ms, 0, |text|)
    ensures Tail(text, ms, 0) == ms[0].tag + rest
  {
    if |ms| == 1 {
      rest := text[ms[0].offset..];
    } else {
      var piece := Escape(text[ms[0].offset..ms[1].offset]);
      rest := piece + Tail(text, ms, 1);
      Join3(ms[0].tag, piece, Tail(text, ms, 1));
    }
  }

  /** Stripping the rendering strips the head and the end, which are printed raw, and what lies between on its own. */
  lemma StripRender(ref: Decoder, text: string, ms: seq<Mark>)
    requires UndoesEscape(ref) && ms != [] && Nondecreasing(ms, 0, |text|) && AllBracketed(ms)
    ensures Strip(ref, Render(text, ms), false)
         == Strip(ref, text[..ms[0].offset], false) + Between(ref, text, ms, 0) + Strip(ref, text[ms[|ms| - 1].offset..], false)
  {
    var rest := TailStartsWithTag(text, ms);
    StripTail(ref, text, ms, 0);
    StripBeforeTag(ref, text[..ms[0].offset], ms[0].tag, rest, false);
    Join3(Strip(ref, text[..ms[0].offset], false), Between(ref, text, ms, 0), Strip(ref, text[ms[|ms| - 1].offset..], false));
  }

  // ----- when the text comes back

  ghost predicate VanishesAt(ref: Decoder, ms: seq<Mark>, i: nat)
    requires Bounded(ref) && i < |ms|
  {
    Left(ref, ms[i].tag) == ""
  }

  /** Every tag from number `k` on is stripped without a trace. */
  ghost predicate VanishFrom(ref: Decoder, ms: seq<Mark>, k: nat)
    requires Bounded(ref)
  {
    forall i :: k <= i < |ms| ==> VanishesAt(ref, ms, i)
  }

  ghost predicate Vanish(ref: Decoder, ms: seq<Mark>)
    requires Bounded(ref)
  {
    VanishFrom(ref, ms, 0)
  }

  /** The text before the first tag and the text after the last one have nothing to strip. */
  ghost predicate PlainEnds(ref: Decoder, text: string, ms: seq<Mark>)
    requires Bounded(ref) && ms != [] && Nondecreasing(ms, 0, |text|)
  {
    var first, last := text[..ms[0].offset], text[ms[|ms| - 1].offset..];
    Strip(ref, first, false) == first && Strip(ref, last, false) == last
  }

  lemma VanishStep(ref: Decoder, ms: seq<Mark>, k: nat)
    requires Bounded(ref) && k < |ms|
    ensures VanishFrom(ref, ms, k) <==> Left(ref, ms[k].tag) == "" && VanishFrom(ref, ms, k + 1)
  {
    assert VanishesAt(ref, ms, k) <==> Left(ref, ms[k].tag) == "";
  }

  /** What stripping leaves of the tags only adds to the text between them. */
  lemma {:induction false} BetweenLength(ref: Decoder, text: string, ms: seq<Mark>, k: nat)
    requires Bounded(ref) && k < |ms| && Nondecreasing(ms, 0, |text|)
    ensures |Between(ref, text, ms, k)| >= ms[|ms| - 1].offset - ms[k].offset
    ensures |Between(ref, text, ms, k)| == ms[|ms| - 1].offset - ms[k].offset <==> VanishFrom(ref, ms, k)
    decreases |ms| - k
  {
    VanishStep(ref, ms, k);
    if k + 1 < |ms| {
      BetweenLength(ref, text, ms, k + 1);
    }
  }

  lemma {:induction false} BetweenText(ref: Decoder, text: string, ms: seq<Mark>, k: nat)
    requires Bounded(ref) && k < |ms| && Nondecreasing(ms, 0, |text|) && VanishFrom(ref, ms, k)
    ensures Between(ref, text, ms, k) == text[ms[k].offset..ms[|ms| - 1].offset]
    decreases |ms| - k
  {
    VanishStep(ref, ms, k);
    if k + 1 == |ms| {
      assert text[ms[k].offset..ms[k].offset] == "";
    } else {
      BetweenText(ref, text, ms, k + 1);
      TextPieces("", text, ms[k].offset, ms[k + 1].offset, ms[|ms| - 1].offset);
    }
  }

  lemma SplitText(text: string, first: nat, last: nat, head: string, end: string)
    requires first <= last <= |text| && |head| <= first && |end| <= |text| - last
    ensures head + text[first..last] + end == text <==> head == text[..first] && end == text[last..]
  {
    assert text == text[..first] + text[first..last] + text[last..];
    if head + text[first..last] + end == text {
      EqualPieces(text[..first], text[first..last], text[last..], head, end);
    }
  }

  lemma EqualPieces(a: string, b: string, c: string, a': string, c': string)
    requires |a'| <= |a| && |c'| <= |c| && a' + b + c' == a + b + c
    ensures a' == a && c' == c
  {
    var x, y := a' + b + c', a + b + c;
    assert |x| == |y|;
    assert x[..|a|] == a' && y[..|a|] == a;
    assert x[|a| + |b|..] == c' && y[|a| + |b|..] == c;
  }

  /**
   Dropping the tags and undoing the escapes gives back the text exactly when every tag vanishes and the
   text outside of the tags, which `unparse` does not escape, has nothing to strip. If both fail, what the
   tags leave can make up for what the text loses.
   */
  lemma StripGivesTextBack(ref: Decoder, text: string, ms: seq<Mark>)
    requires UndoesEscape(ref) && ms != [] && Nondecreasing(ms, 0, |text|) && AllBracketed(ms)
    requires Vanish(ref, ms) || PlainEnds(ref, text, ms)
    ensures Strip(ref, Render(text, ms), false) == text <==> Vanish(ref, ms) && PlainEnds(ref, text, ms)
  {
    var first, last := ms[0].offset, ms[|ms| - 1].offset;
    StripRender(ref, text, ms);
    BetweenLength(ref, text, ms, 0);
    if Vanish(ref, ms) {
      BetweenText(ref, text, ms, 0);
    }
    SplitText(text, first, last, Strip(ref, text[..first], false), Strip(ref, text[last..], false));
  }

  // ----- a decoder for the five references

  predicate StartsWith(s: string, p: string) {
    |p| <= |s| && s[..|p|] == p
  }

  function Reference(s: string): (r: (string, nat)) {
    if StartsWith(s, "&amp;") then ("&", 5)
    else if StartsWith(s, "&lt;") then ("<", 4)
    else if StartsWith(s, "&gt;") then (">", 4)
    else if StartsWith(s, "&quot;") then ("\"", 6)
    else if StartsWith(s, "&#x27;") then ("'", 6)
    else ("", 0)
  }

  lemma Second(s: string, p: string)
    requires StartsWith(s, p) && |p| >= 2
    ensures s[0] == p[0] && s[1] == p[1]
  {
    assert s[..|p|][0] == s[0] && s[..|p|][1] == s[1];
  }

  lemma ReferenceKnown(p: string, rest: string)
    requires p == "&amp;" || p == "&lt;" || p == "&gt;" || p == "&quot;" || p == "&#x27;"
    ensures var s := p + rest;
            && StartsWith(s, p)
            && (StartsWith(s, "&amp;") <==> p == "&amp;")
            && (StartsWith(s, "&lt;") <==> p == "&lt;")
            && (StartsWith(s, "&gt;") <==> p == "&gt;")
            && (StartsWith(s, "&quot;") <==> p == "&quot;")
            && (StartsWith(s, "&#x27;") <==> p == "&#x27;")
  {
    var s := p + rest;
    assert s[..|p|] == p;
    Second(s, p);
    if StartsWith(s, "&amp;") { Second(s, "&amp;"); }
    if StartsWith(s, "&lt;") { Second(s, "&lt;"); }
    if StartsWith(s, "&gt;") { Second(s, "&gt;"); }
    if StartsWith(s, "&quot;") { Second(s, "&quot;"); }
    if StartsWith(s, "&#x27;") { Second(s, "&#x27;"); }
  }

  lemma StartsBeforeTag(h: string, t: string, p: string)
    requires h != "" && (h[|h| - 1] == '>' || (t != "" && t[0] == '<')) && '<' !in p && '>' !in p
    ensures StartsWith(h + t, p) <==> StartsWith(h, p)
  {
    if |p| <= |h| {
      assert (h + t)[..|p|] == h[..|p|];
    } else if |p| <= |h + t| {
      assert (h + t)[..|p|][|h| - 1] == h[|h| - 1];
      assert t != "" ==> (h + t)[..|p|][|h|] == t[0];
    }
  }

  lemma ReferenceBeforeTag(h: string, t: string)
    requires h != "" && (h[|h| - 1] == '>' || (t != "" && t[0] == '<'))
    ensures Reference(h + t) == Reference(h)
  {
    StartsBeforeTag(h, t, "&amp;");
    StartsBeforeTag(h, t, "&lt;");
    StartsBeforeTag(h, t, "&gt;");
    StartsBeforeTag(h, t, "&quot;");
    StartsBeforeTag(h, t, "&#x27;");
  }

  lemma ReferenceAtAmpersand(s: string)
    requires s != "" && s[0] != '&'
    ensures Reference(s).1 == 0
  {
    if StartsWith(s, "&amp;") { Second(s, "&amp;"); }
    if StartsWith(s, "&lt;") { Second(s, "&lt;"); }
    if StartsWith(s, "&gt;") { Second(s, "&gt;"); }
    if StartsWith(s, "&quot;") { Second(s, "&quot;"); }
    if StartsWith(s, "&#x27;") { Second(s, "&#x27;"); }
  }

  lemma ReferenceOfEscape(c: char, rest: string)
    requires IsEscaped(c)
    ensures Reference(EscapeChar(c) + rest) == ([c], |EscapeChar(c)|)
  {
    ReferenceKnown(EscapeChar(c), rest);
  }

  /** The decoder of the five references that `html.escape` writes undoes it. */
  lemma ReferenceUndoesEscape()
    ensures UndoesEscape(Reference)
  {
    forall c, rest
      ensures UndoesAt(Reference, c, rest)
    {
      if IsEscaped(c) {
        ReferenceOfEscape(c, rest);
      }
    }
    forall s
      ensures PlainAt(Reference, s)
    {
      if s != "" && s[0] != '&' {
        ReferenceAtAmpersand(s);
      }
    }
    forall h, t
      ensures StopsAt(Reference, h, t)
    {
      if h != "" && (h[|h| - 1] == '>' || (t != "" && t[0] == '<')) {
        ReferenceBeforeTag(h, t);
      }
    }
  }
}
