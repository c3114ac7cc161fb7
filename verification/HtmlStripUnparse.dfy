/**
 Stripping what `unparse` prints for real entities: the tags of a forest, and the texts that do and do not come back.
 */
module HtmlStripUnparse {
  import opened HtmlMarkup
  import opened HtmlUnparse
  import opened HtmlStrip

  // ----- printed tags

  /** A tag with no closing bracket before its end. */
  predicate Single(t: string) {
    t != "" && t[|t| - 1] == '>' && forall i :: 0 <= i < |t| - 1 ==> t[i] != '>'
  }

  lemma {:induction false} SkipToEnd(ref: Decoder, t: string)
    requires Bounded(ref) && Single(t)
    ensures Strip(ref, t, true) == ""
  {
    if |t| > 1 {
      SkipToEnd(ref, t[1..]);
    }
  }

  lemma SingleVanishes(ref: Decoder, t: string)
    requires Bounded(ref) && Single(t) && |t| >= 2 && t[0] == '<'
    ensures Left(ref, t) == ""
  {
    SkipToEnd(ref, t[1..]);
  }

  lemma TagsAreBracketed(k: Kind)
    ensures Bracketed(StartTag(k)) && Bracketed(EndTag(k))
  {
  }

  lemma InnerBrackets(inner: string)
    ensures Single("<" + inner + ">") <==> '>' !in inner
  {
    var t := "<" + inner + ">";
    if '>' in inner {
      var i :| 0 <= i < |inner| && inner[i] == '>';
      assert t[i + 1] == '>';
    } else {
      forall i | 0 <= i < |t| - 1 ensures t[i] != '>' {
        if i > 0 {
          assert t[i] == inner[i - 1];
        }
      }
    }
  }

  /** The start tag of a supported kind closes at its end exactly if no attribute holds a closing bracket. */
  lemma StartTagIsSingle(k: Kind)
    requires !k.Unsupported?
    ensures Single(StartTag(k)) <==> '>' !in Attributes(k)
  {
    InnerBrackets(Name(k) + Attributes(k));
    assert '>' !in Name(k);
  }

  lemma EndTagVanishes(ref: Decoder, k: Kind)
    requires Bounded(ref) && !k.Unsupported?
    ensures Left(ref, EndTag(k)) == ""
  {
    assert '>' !in Name(k);
    InnerBrackets("/" + Name(k));
    SingleVanishes(ref, EndTag(k));
  }

  // ----- the tags of a forest

  ghost predicate TagVanishes(ref: Decoder, e: Entity)
    requires Bounded(ref)
  {
    Left(ref, StartTag(e.kind)) == ""
  }

  ghost predicate AllVanish(ref: Decoder, es: seq<Entity>)
    requires Bounded(ref)
  {
    forall e :: e in es ==> TagVanishes(ref, e)
  }

  predicate AllSupported(es: seq<Entity>) {
    forall e :: e in es ==> e.Supported()
  }

  lemma VanishConcat(ref: Decoder, a: seq<Mark>, b: seq<Mark>)
    requires Bounded(ref)
    ensures Vanish(ref, a + b) <==> Vanish(ref, a) && Vanish(ref, b)
    ensures AllBracketed(a + b) <==> AllBracketed(a) && AllBracketed(b)
  {
    assert forall i :: 0 <= i < |a| ==> (a + b)[i] == a[i];
    assert forall i :: 0 <= i < |b| ==> (a + b)[|a| + i] == b[i];
    if Vanish(ref, a + b) {
      forall i | 0 <= i < |a| ensures VanishesAt(ref, a, i) {
        assert VanishesAt(ref, a + b, i);
      }
      forall i | 0 <= i < |b| ensures VanishesAt(ref, b, i) {
        assert VanishesAt(ref, a + b, |a| + i);
      }
    }
    if Vanish(ref, a) && Vanish(ref, b) {
      forall i | 0 <= i < |a + b| ensures VanishesAt(ref, a + b, i) {
        assert if i < |a| then VanishesAt(ref, a, i) else VanishesAt(ref, b, i - |a|);
      }
    }
  }

  lemma OneVanishes(ref: Decoder, tag: string, offset: nat)
    requires Bounded(ref)
    ensures Vanish(ref, [Mark(tag, offset)]) <==> Left(ref, tag) == ""
    ensures AllBracketed([Mark(tag, offset)]) <==> Bracketed(tag)
  {
    var ms := [Mark(tag, offset)];
    assert VanishesAt(ref, ms, 0) <==> Left(ref, tag) == "";
    assert ms[0].tag == tag;
  }

  lemma AllVanishConcat(ref: Decoder, a: seq<Entity>, b: seq<Entity>)
    requires Bounded(ref)
    ensures AllVanish(ref, a + b) <==> AllVanish(ref, a) && AllVanish(ref, b)
    ensures AllSupported(a + b) <==> AllSupported(a) && AllSupported(b)
  {
    assert forall e :: e in a + b <==> e in a || e in b;
  }

  /** The tags of a forest vanish exactly if the start tags of its entities do. */
  lemma {:induction false} ForestVanishes(ref: Decoder, f: Forest)
    requires Bounded(ref) && AllSupported(Preorder(f))
    ensures AllBracketed(Marks(f))
    ensures Vanish(ref, Marks(f)) <==> AllVanish(ref, Preorder(f))
  {
    if f.Cons? {
      var e := f.entity;
      AllVanishConcat(ref, [e] + Preorder(f.inside), Preorder(f.after));
      AllVanishConcat(ref, [e], Preorder(f.inside));
      ForestVanishes(ref, f.inside);
      ForestVanishes(ref, f.after);
      var open, close := [Mark(StartTag(e.kind), e.offset)], [Mark(EndTag(e.kind), e.End())];
      VanishConcat(ref, open + Marks(f.inside) + close, Marks(f.after));
      VanishConcat(ref, open + Marks(f.inside), close);
      VanishConcat(ref, open, Marks(f.inside));
      OneVanishes(ref, StartTag(e.kind), e.offset);
      OneVanishes(ref, EndTag(e.kind), e.End());
      TagsAreBracketed(e.kind);
      assert e in [e];
      EndTagVanishes(ref, e.kind);
    }
  }

  lemma TreeVanishes(ref: Decoder, es: seq<Entity>)
    requires Bounded(ref) && AllSupported(es)
    ensures AllBracketed(Marks(Tree(es)))
    ensures Vanish(ref, Marks(Tree(es))) <==> AllVanish(ref, es)
    ensures es != [] ==> Marks(Tree(es)) != []
  {
    TreeHoldsAll(es);
    var pre := Preorder(Tree(es));
    forall e ensures e in pre <==> e in es {
      assert e in pre <==> e in multiset(pre);
    }
    ForestVanishes(ref, Tree(es));
    if es != [] {
      assert es[0] in pre;
    }
  }

  // ----- the output of `unparse`

  /** What `unparse` prints for supported, non-empty entities that are pairwise nested or disjoint. */
  function Printed(text: string, es: seq<Entity>): (out: string)
    requires Nondecreasing(Marks(Tree(es)), 0, |text|)
  {
    Render(text, Marks(Tree(es)))
  }

  /** Without entities, the text is printed as it is. */
  lemma PrintedPlain(text: string)
    ensures Marks(Tree([])) == [] && Printed(text, []) == text
  {
  }

  lemma PrintedInOrder(text: string, es: seq<Entity>)
    requires Laminar(es, |text|)
    ensures Nondecreasing(Marks(Tree(es)), 0, |text|)
  {
    TreeNests(es, |text|);
    MarksInOrder(Tree(es), 0, |text|);
  }

  /**
   Dropping the tags and undoing the escapes gives back the text that was printed, exactly when every start tag
   vanishes and the text before the first tag and after the last one has nothing to strip; for entities and texts
   of which at least one side is in order.
   */
  lemma PrintedTextBackIff(ref: Decoder, text: string, es: seq<Entity>)
    requires UndoesEscape(ref) && es != [] && AllSupported(es) && Laminar(es, |text|)
    ensures Nondecreasing(Marks(Tree(es)), 0, |text|) && Marks(Tree(es)) != []
    ensures AllVanish(ref, es) || PlainEnds(ref, text, Marks(Tree(es))) ==>
      (Strip(ref, Printed(text, es), false) == text <==> AllVanish(ref, es) && PlainEnds(ref, text, Marks(Tree(es))))
  {
    PrintedInOrder(text, es);
    TreeVanishes(ref, es);
    if AllVanish(ref, es) || PlainEnds(ref, text, Marks(Tree(es))) {
      StripGivesTextBack(ref, text, Marks(Tree(es)));
    }
  }

  /** For entities without a closing bracket in an attribute, the raw ends of the text decide. */
  lemma PlainAttributesTextBackIff(ref: Decoder, text: string, es: seq<Entity>)
    requires UndoesEscape(ref) && es != [] && AllSupported(es) && Laminar(es, |text|)
    requires forall e :: e in es ==> '>' !in Attributes(e.kind)
    ensures Nondecreasing(Marks(Tree(es)), 0, |text|) && Marks(Tree(es)) != []
    ensures Strip(ref, Printed(text, es), false) == text <==> PlainEnds(ref, text, Marks(Tree(es)))
  {
    forall e | e in es ensures TagVanishes(ref, e) {
      StartTagIsSingle(e.kind);
      SingleVanishes(ref, StartTag(e.kind));
    }
    PrintedTextBackIff(ref, text, es);
  }

  // ----- texts that do not come back

  lemma TreeOfOne(e: Entity, n: nat)
    requires e.Supported() && 0 < e.length && e.End() <= n
    ensures Laminar([e], n) && AllSupported([e])
    ensures Marks(Tree([e])) == [Mark(StartTag(e.kind), e.offset), Mark(EndTag(e.kind), e.End())]
  {
    assert [e][..0] == [] && Sort([e]) == [e];
    assert Build([e], 1, At(e.End())) == Built(Nil, 1) && Build([e], 1, NoLimit) == Built(Nil, 1);
    assert Tree([e]) == Cons(e, Nil, Nil);
  }

  /** A `<` in front of a bold letter is printed as it is, and lost. */
  method UnescapedHeadIsLost() returns (out: string)
    ensures Bounded(Reference) && Strip(Reference, out, false) != "<x"
  {
    var e := Entity(Bold, 1, 1);
    TreeOfOne(e, 2);
    out := Unparse("<x", [e]);
    ReferenceUndoesEscape();
    var head := "<x"[..1];
    assert head == "<" && head[1..] == "";
    assert Strip(Reference, head, false) == "";
    PlainAttributesTextBackIff(Reference, "<x", [e]);
  }

  lemma StripQuote(rest: string)
    ensures Bounded(Reference) && Strip(Reference, "\">" + rest, false) == "\">" + Strip(Reference, rest, false)
  {
    ReferenceUndoesEscape();
    assert "\">" + rest == ['\"'] + (['>'] + rest);
    StripPlain(Reference, '\"', ['>'] + rest);
    StripPlain(Reference, '>', rest);
  }

  /** A single tag in front is dropped. */
  lemma DropSingle(ref: Decoder, h: string, rest: string)
    requires UndoesEscape(ref) && Single(h) && |h| >= 2 && h[0] == '<'
    ensures Strip(ref, h + rest, false) == Strip(ref, rest, false)
  {
    StripThrough(ref, h, rest, false);
    SingleVanishes(ref, h);
    assert "" + Strip(ref, rest, false) == Strip(ref, rest, false);
  }

  const LINK := "<a href=\">"

  lemma LinkTag(url: string)
    ensures StartTag(TextLink(">" + url)) == LINK + (url + "\">")
  {
    var attrs := AttrList(TextLink(">" + url));
    assert attrs[1..] == [] && PrintAttrs([]) == "";
    assert PrintAttrs(attrs) == " href=\"" + (">" + url) + "\"";
  }

  /** What is left of a link whose address begins with a closing bracket. */
  lemma LeftOfLink(url: string)
    ensures Bounded(Reference)
    ensures Left(Reference, StartTag(TextLink(">" + url))) == Strip(Reference, url + "\">", false)
  {
    ReferenceUndoesEscape();
    LinkTag(url);
    DropSingle(Reference, LINK, url + "\">");
  }

  /** A closing bracket in the address of a link leaves a piece of the tag in the text. */
  method BracketInLinkIsLeft() returns (out: string)
    ensures Bounded(Reference) && Strip(Reference, out, false) != "x"
  {
    var e := Entity(TextLink(">"), 0, 1);
    TreeOfOne(e, 1);
    out := Unparse("x", [e]);
    ReferenceUndoesEscape();
    LeftOfLink("");
    StripQuote("");
    assert "" + "\">" == "\">" + "" && ">" + "" == ">";
    assert !TagVanishes(Reference, e) && e in [e];
    assert "x"[..0] == "" && "x"[1..] == "";
    PrintedTextBackIff(Reference, "x", [e]);
  }

  /** The rendering of one entity, stripped. */
  lemma StripOneEntity(ref: Decoder, text: string, e: Entity)
    requires UndoesEscape(ref) && e.Supported() && 0 < e.length && e.End() <= |text|
    ensures Nondecreasing(Marks(Tree([e])), 0, |text|)
    ensures Strip(ref, Render(text, Marks(Tree([e]))), false)
         == Strip(ref, text[..e.offset], false)
            + (Left(ref, StartTag(e.kind)) + text[e.offset..e.End()] + "")
            + Strip(ref, text[e.End()..], false)
  {
    TreeOfOne(e, |text|);
    var ms := Marks(Tree([e]));
    TagsAreBracketed(e.kind);
    EndTagVanishes(ref, e.kind);
    StripRender(ref, text, ms);
  }

  /** With both sides out of order, what the tag leaves can stand for what the text loses: the text comes back. */
  method LossesCanCancel() returns (text: string, out: string)
    ensures Bounded(Reference) && Strip(Reference, out, false) == text
    ensures var e := Entity(TextLink(">&lt;i"), 4, 1);
            var ms := Marks(Tree([e]));
            && Nondecreasing(ms, 0, |text|) && ms != [] && out == Render(text, ms)
            && !TagVanishes(Reference, e) && !PlainEnds(Reference, text, ms)
  {
    var e := Entity(TextLink(">&lt;i"), 4, 1);
    text := OPEN + "x";
    TreeOfOne(e, 5);
    out := Unparse(text, [e]);
    ReferenceUndoesEscape();
    LeftOfOpenItalic();
    OpenPieces(text);
    StripOneEntity(Reference, text, e);
  }

  const OPEN := "<i\">"

  lemma OpenPieces(text: string)
    requires text == OPEN + "x"
    ensures |text| == 5 && text[..4] == OPEN && text[4..5] == "x" && text[5..] == ""
    ensures Bounded(Reference) && Strip(Reference, OPEN, false) == "" && Strip(Reference, "", false) == ""
    ensures "" + (OPEN + "x" + "") + "" == text
  {
    ReferenceUndoesEscape();
    SingleVanishes(Reference, OPEN);
  }

  lemma LeftOfOpenItalic()
    ensures Bounded(Reference) && Left(Reference, StartTag(TextLink(">&lt;i"))) == OPEN
  {
    ReferenceUndoesEscape();
    LeftOfLink("&lt;i");
    assert ">" + "&lt;i" == ">&lt;i";
    assert "&lt;i" + "\">" == EscapeChar('<') + ("i" + ("\">" + ""));
    StripEscapedChar(Reference, '<', "i" + ("\">" + ""));
    assert "i" == ['i'];
    StripPlain(Reference, 'i', "\">" + "");
    StripQuote("");
    assert ['<'] + (['i'] + ("\">" + "")) == OPEN;
  }
}
