/**
 `HTML.unparse`: the recursion over the sorted entities and the backward splice of tags into the text.
 */
module HtmlUnparse {
  import opened Bytes
  import opened HtmlMarkup

  // ----- the recursion, as the tree it walks

  datatype Limit = NoLimit | At(end: nat) {
    predicate Admits(offset: nat) {
      NoLimit? || offset < end
    }
  }

  datatype Built = Built(forest: Forest, next: nat)

  /** The entities from index `i` on that start below the limit, and the first index not taken. */
  function Build(es: seq<Entity>, i: nat, limit: Limit): (r: Built)
    requires i <= |es|
    ensures i <= r.next <= |es|
    decreases |es| - i
  {
    if i == |es| || !limit.Admits(es[i].offset) then
      Built(Nil, i)
    else if !es[i].Supported() then
      Build(es, i + 1, limit)
    else
      var inner := Build(es, i + 1, At(es[i].End()));
      var rest := Build(es, inner.next, limit);
      Built(Cons(es[i], inner.forest, rest.forest), rest.next)
  }

  /** One call `recursive(i)`: nothing for an unsupported entity, else the entity and what is inside it. */
  function One(es: seq<Entity>, i: nat): (r: Built)
    requires i < |es|
    ensures i < r.next <= |es|
  {
    if !es[i].Supported() then
      Built(Nil, i + 1)
    else
      var inner := Build(es, i + 1, At(es[i].End()));
      Built(Cons(es[i], inner.forest, Nil), inner.next)
  }

  lemma BuildStep(es: seq<Entity>, i: nat, limit: Limit)
    requires i < |es| && limit.Admits(es[i].offset)
    ensures var one := One(es, i);
            && Build(es, i, limit).next == Build(es, one.next, limit).next
            && Marks(Build(es, i, limit).forest) == Marks(one.forest) + Marks(Build(es, one.next, limit).forest)
  {
    if es[i].Supported() {
      var inner := Build(es, i + 1, At(es[i].End()));
      var rest := Build(es, inner.next, limit);
      var open, close := [Mark(StartTag(es[i].kind), es[i].offset)], [Mark(EndTag(es[i].kind), es[i].End())];
      assert Marks(Cons(es[i], inner.forest, Nil)) == open + Marks(inner.forest) + close;
    } else {
      assert [] + Marks(Build(es, i + 1, limit).forest) == Marks(Build(es, i + 1, limit).forest);
    }
  }

  class Unparser {
    const entities: seq<Entity>
    var offsets: seq<Mark>

    constructor (es: seq<Entity>)
      ensures entities == es && offsets == []
    {
      entities := es;
      offsets := [];
    }

    /** The inner loop: take entities while they start below the limit. */
    method TakeWhile(i: nat, limit: Limit) returns (next: nat)
      requires i <= |entities|
      modifies this`offsets
      ensures next == Build(entities, i, limit).next
      ensures offsets == old(offsets) + Marks(Build(entities, i, limit).forest)
      decreases |entities| - i, 1
    {
      next := i;
      while next < |entities| && limit.Admits(entities[next].offset)
        invariant i <= next <= |entities|
        invariant Build(entities, next, limit).next == Build(entities, i, limit).next
        invariant offsets + Marks(Build(entities, next, limit).forest) == old(offsets) + Marks(Build(entities, i, limit).forest)
      {
        TakeStep(entities, next, limit, offsets);
        var n := Recursive(next);
        next := next + n;
      }
      assert offsets + [] == offsets;
    }

    /** `recursive(i)`: push the tags of entity `i` and of the entities inside it; how many were taken. */
    method Recursive(i: nat) returns (count: nat)
      requires i < |entities|
      modifies this`offsets
      ensures i + count == One(entities, i).next
      ensures offsets == old(offsets) + Marks(One(entities, i).forest)
      decreases |entities| - i, 0
    {
      var e := entities[i];
      if !e.Supported() {
        return 1;
      }
      offsets := offsets + [Mark(StartTag(e.kind), e.offset)];
      var next := TakeWhile(i + 1, At(e.End()));
      offsets := offsets + [Mark(EndTag(e.kind), e.End())];
      MarksOfOne(e, Build(entities, i + 1, At(e.End())).forest, old(offsets));
      count := next - i;
    }

    /** The main loop over the first-level entities. */
    method CollectAll()
      requires offsets == []
      modifies this`offsets
      ensures offsets == Marks(Build(entities, 0, NoLimit).forest)
    {
      var _ := TakeWhile(0, NoLimit);
    }
  }

  lemma TakeStep(es: seq<Entity>, i: nat, limit: Limit, before: seq<Mark>)
    requires i < |es| && limit.Admits(es[i].offset)
    ensures var one := One(es, i);
            && i < one.next <= |es|
            && Build(es, one.next, limit).next == Build(es, i, limit).next
            && before + Marks(one.forest) + Marks(Build(es, one.next, limit).forest) == before + Marks(Build(es, i, limit).forest)
  {
    var one := One(es, i);
    BuildStep(es, i, limit);
    Assoc(before, Marks(one.forest), Marks(Build(es, one.next, limit).forest));
  }

  lemma Assoc(a: seq<Mark>, b: seq<Mark>, c: seq<Mark>)
    ensures (a + b) + c == a + (b + c)
  {
  }

  lemma MarksOfOne(e: Entity, inside: Forest, before: seq<Mark>)
    ensures before + [Mark(StartTag(e.kind), e.offset)] + Marks(inside) + [Mark(EndTag(e.kind), e.End())]
         == before + Marks(Cons(e, inside, Nil))
  {
    assert Marks(Nil) == [];
  }

  // ----- each entity once

  /** The supported entities among those numbered `i` to `j`. */
  function Supported(es: seq<Entity>, i: nat, j: nat): (r: seq<Entity>)
    requires i <= j <= |es|
    decreases j - i
  {
    if i == j then [] else (if es[i].Supported() then [es[i]] else []) + Supported(es, i + 1, j)
  }

  lemma {:induction false} SupportedConcat(es: seq<Entity>, i: nat, k: nat, j: nat)
    requires i <= k <= j <= |es|
    ensures Supported(es, i, j) == Supported(es, i, k) + Supported(es, k, j)
    decreases k - i
  {
    if i < k {
      SupportedConcat(es, i + 1, k, j);
    }
  }

  /** The recursion visits every supported entity it passes exactly once, in order. */
  lemma {:induction false} VisitsOnce(es: seq<Entity>, i: nat, limit: Limit)
    requires i <= |es|
    ensures Preorder(Build(es, i, limit).forest) == Supported(es, i, Build(es, i, limit).next)
    ensures limit.NoLimit? ==> Build(es, i, limit).next == |es|
    decreases |es| - i
  {
    if i < |es| && limit.Admits(es[i].offset) {
      if !es[i].Supported() {
        VisitsOnce(es, i + 1, limit);
      } else {
        var inner := Build(es, i + 1, At(es[i].End()));
        VisitsOnce(es, i + 1, At(es[i].End()));
        VisitsOnce(es, inner.next, limit);
        SupportedConcat(es, i + 1, inner.next, Build(es, i, limit).next);
      }
    }
  }

  // ----- nesting

  /** Entities that start inside `e` after it in the order end inside it. */
  lemma InsideEnds(es: seq<Entity>, i: nat, j: nat, n: nat)
    requires Ordered(es) && Laminar(es, n) && i < j < |es| && es[j].offset < es[i].End()
    ensures es[j].End() <= es[i].End()
  {
    assert Before(es[i], es[j]);
    assert es[i] in es && es[j] in es;
    assert Compatible(es[i], es[j]);
  }

  ghost predicate StartFrom(es: seq<Entity>, i: nat, lo: nat) {
    forall j :: i <= j < |es| ==> lo <= es[j].offset
  }

  ghost predicate EndBy(es: seq<Entity>, i: nat, limit: Limit, hi: nat) {
    forall j :: i <= j < |es| && limit.Admits(es[j].offset) ==> es[j].End() <= hi
  }

  /** Sorted entities, pairwise nested or disjoint, make a well-nested forest. */
  lemma {:induction false} BuildNests(es: seq<Entity>, i: nat, limit: Limit, lo: nat, hi: nat, n: nat)
    requires i <= |es| && Ordered(es) && Laminar(es, n) && lo <= hi
    requires StartFrom(es, i, lo) && EndBy(es, i, limit, hi)
    ensures WellNested(Build(es, i, limit).forest, lo, hi)
    ensures forall j :: Build(es, i, limit).next <= j < |es| ==> !limit.Admits(es[j].offset)
    decreases |es| - i
  {
    if i == |es| {
    } else if !limit.Admits(es[i].offset) {
      forall j | i < j < |es|
        ensures !limit.Admits(es[j].offset)
      {
        assert Before(es[i], es[j]);
      }
    } else if !es[i].Supported() {
      BuildNests(es, i + 1, limit, lo, hi, n);
    } else {
      var e := es[i];
      assert e in es;
      var inner := Build(es, i + 1, At(e.End()));
      forall j | i + 1 <= j < |es|
        ensures e.offset <= es[j].offset
        ensures At(e.End()).Admits(es[j].offset) ==> es[j].End() <= e.End()
      {
        assert Before(e, es[j]);
        if es[j].offset < e.End() {
          InsideEnds(es, i, j, n);
        }
      }
      BuildNests(es, i + 1, At(e.End()), e.offset, e.End(), n);
      BuildNests(es, inner.next, limit, e.End(), hi, n);
    }
  }

  /** The forest of the entities of a text of length `n`. */
  function Tree(es: seq<Entity>): (f: Forest) {
    Build(Sort(es), 0, NoLimit).forest
  }

  lemma TreeNests(es: seq<Entity>, n: nat)
    requires Laminar(es, n)
    ensures WellNested(Tree(es), 0, n)
  {
    SortSorts(es);
    LaminarSort(es, n);
    var s := Sort(es);
    forall j | 0 <= j < |s|
      ensures s[j].End() <= n
    {
      assert s[j] in s;
    }
    BuildNests(s, 0, NoLimit, 0, n, n);
  }

  lemma {:induction false} SupportedAll(es: seq<Entity>, i: nat)
    requires i <= |es| && forall e :: e in es ==> e.Supported()
    ensures Supported(es, i, |es|) == es[i..]
    decreases |es| - i
  {
    if i < |es| {
      SupportedAll(es, i + 1);
      assert es[i] in es;
    }
  }

  /** The tree holds each entity once. */
  lemma TreeHoldsAll(es: seq<Entity>)
    requires forall e :: e in es ==> e.Supported()
    ensures multiset(Preorder(Tree(es))) == multiset(es)
  {
    SortSorts(es);
    var s := Sort(es);
    forall e | e in s
      ensures e.Supported()
    {
      assert e in multiset(s);
    }
    SupportedAll(s, 0);
    VisitsOnce(s, 0, NoLimit);
    assert s[0..] == s;
  }

  // ----- escaping and the splice

  function EscapeChar(c: char): (s: string) {
    match c
    case '&' => "&amp;"
    case '<' => "&lt;"
    case '>' => "&gt;"
    case '\"' => "&quot;"
    case '\'' => "&#x27;"
    case _ => [c]
  }

  /** `html.escape`. */
  function Escape(s: string): (r: string) {
    if s == "" then "" else EscapeChar(s[0]) + Escape(s[1..])
  }

  /** Exactly the five characters that markup gives a meaning are replaced. */
  lemma EscapedCharacters(c: char)
    ensures EscapeChar('&') == "&amp;" && EscapeChar('<') == "&lt;" && EscapeChar('>') == "&gt;"
    ensures EscapeChar('\"') == "&quot;" && EscapeChar('\'') == "&#x27;"
    ensures EscapeChar(c) == [c] <==> c != '&' && c != '<' && c != '>' && c != '\"' && c != '\''
  {
  }

  /** Python's `s[a:b]`. */
  function Slice(s: string, a: nat, b: nat): (r: string) {
    var b' := Min(b, |s|);
    if a <= b' then s[a..b'] else ""
  }

  /** The text from mark `k` on: every piece between two marks escaped, the last piece as it is. */
  function Tail(text: string, ms: seq<Mark>, k: nat): (r: string)
    requires k < |ms| && Nondecreasing(ms, 0, |text|)
    decreases |ms| - k
  {
    if k + 1 == |ms| then
      ms[k].tag + text[ms[k].offset..]
    else
      ms[k].tag + Escape(text[ms[k].offset..ms[k + 1].offset]) + Tail(text, ms, k + 1)
  }

  /** The forward rendering: the head of the text as it is, then the rest from the first mark on. */
  function Render(text: string, ms: seq<Mark>): (r: string)
    requires Nondecreasing(ms, 0, |text|)
  {
    if ms == [] then text else text[..ms[0].offset] + Tail(text, ms, 0)
  }

  /** Splicing one more tag in front: `rest` is what the loop has made of the text from `b` on. */
  lemma SpliceStep(text: string, a: nat, b: nat, tag: string, rest: string)
    requires a <= b <= |text|
    ensures var cur := text[..b] + rest;
            SpliceTag(cur, a, b, tag) == text[..a] + (tag + Escape(text[a..b]) + rest)
  {
    var cur := text[..b] + rest;
    assert Slice(cur, 0, a) == text[..a];
    assert Slice(cur, a, b) == text[a..b];
    assert Slice(cur, b, |cur|) == rest;
  }

  /** The loop's assignment to `text`. */
  function SpliceTag(cur: string, offset: nat, last: nat, tag: string): (r: string) {
    Slice(cur, 0, offset) + tag + Escape(Slice(cur, offset, last)) + Slice(cur, last, |cur|)
  }

  /** The last tag is spliced into the text itself. */
  lemma SpliceLast(text: string, a: nat, tag: string)
    requires a <= |text|
    ensures SpliceTag(text, a, a, tag) == text[..a] + (tag + text[a..])
  {
    assert text == text[..a] + text[a..];
    SpliceStep(text, a, a, tag, text[a..]);
    assert text[a..a] == "" && tag + "" == tag;
  }

  /** The loop has put the marks from number `k` on into the text. */
  ghost predicate SplicedTo(text: string, ms: seq<Mark>, k: nat, cur: string)
    requires k <= |ms| && Nondecreasing(ms, 0, |text|)
  {
    cur == if k == |ms| then text else text[..ms[k].offset] + Tail(text, ms, k)
  }

  /** The loop's `last_offset` before it comes to mark `k - 1`. */
  function LastOffset(ms: seq<Mark>, k: nat): (r: nat)
    requires 0 < |ms| && k <= |ms|
  {
    if k == |ms| then ms[|ms| - 1].offset else ms[k].offset
  }

  lemma SpliceMark(text: string, ms: seq<Mark>, k: nat, cur: string)
    requires k < |ms| && Nondecreasing(ms, 0, |text|) && SplicedTo(text, ms, k + 1, cur)
    ensures SplicedTo(text, ms, k, SpliceTag(cur, ms[k].offset, LastOffset(ms, k + 1), ms[k].tag))
  {
    if k + 1 == |ms| {
      SpliceLast(text, ms[k].offset, ms[k].tag);
    } else {
      SpliceStep(text, ms[k].offset, ms[k + 1].offset, ms[k].tag, Tail(text, ms, k + 1));
    }
  }

  /** The backward loop that splices the tags into the text, last tag first. */
  method Splice(text: string, ms: seq<Mark>) returns (out: string)
    ensures Nondecreasing(ms, 0, |text|) ==> out == Render(text, ms)
  {
    out := text;
    if ms == [] {
      return;
    }
    ghost var inOrder := Nondecreasing(ms, 0, |text|);
    var last := ms[|ms| - 1].offset;
    var k := |ms|;
    while k > 0
      invariant 0 <= k <= |ms| && last == LastOffset(ms, k)
      invariant inOrder ==> SplicedTo(text, ms, k, out)
    {
      k := k - 1;
      if inOrder {
        SpliceMark(text, ms, k, out);
      }
      out := SpliceTag(out, ms[k].offset, last, ms[k].tag);
      last := ms[k].offset;
    }
  }

  /** `HTML.unparse` for a text whose characters are already UTF-16 units. */
  method Unparse(text: string, es: seq<Entity>) returns (out: string)
    ensures Laminar(es, |text|) ==>
              && WellNested(Tree(es), 0, |text|)
              && Nondecreasing(Marks(Tree(es)), 0, |text|)
              && out == Render(text, Marks(Tree(es)))
  {
    var u := new Unparser(Sort(es));
    u.CollectAll();
    if Laminar(es, |text|) {
      TreeNests(es, |text|);
      MarksInOrder(Tree(es), 0, |text|);
    }
    out := Splice(text, u.offsets);
  }
}
