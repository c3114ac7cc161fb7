/**
 Message entities, the tags `unparse` prints for them, and the tree of nested entities that its
 recursion walks.
 */
module HtmlMarkup {
  import opened Bytes
  import opened Decimals

  /** A custom emoji id is the decimal of an integer; a missing date-time format is the empty string. */
  datatype Kind =
    | Bold | Italic | Underline | Strike | Code | Spoiler
    | Pre(language: string)
    | Blockquote(expandable: bool)
    | TextLink(url: string)
    | TextMention(userId: int)
    | CustomEmoji(emojiId: int)
    | DateTime(unixTime: int, format: string)
    | Unsupported(name: string)

  datatype Entity = Entity(kind: Kind, offset: nat, length: nat) {
    function End(): (r: nat) {
      offset + length
    }

    predicate Supported() {
      !kind.Unsupported?
    }
  }

  /** Neighbouring pieces of a text, after something else. */
  lemma TextPieces(t: string, text: string, a: nat, b: nat, c: nat)
    requires a <= b <= c <= |text|
    ensures t + text[a..b] + text[b..c] == t + text[a..c]
  {
    assert text[a..b] + text[b..c] == text[a..c];
  }

  // ----- tags

  function Name(k: Kind): (n: string) {
    match k
    case Bold => "b"
    case Italic => "i"
    case Underline => "u"
    case Strike => "s"
    case Code => "code"
    case Spoiler => "spoiler"
    case Pre(_) => "pre"
    case Blockquote(_) => "blockquote"
    case TextLink(_) => "a"
    case TextMention(_) => "a"
    case CustomEmoji(_) => "tg-emoji"
    case DateTime(_, _) => "tg-time"
    case Unsupported(n) => n
  }

  /** An attribute of a tag; `expandable` has no value. */
  datatype Attr = Attr(name: string, value: Option<string>)

  function AttrList(k: Kind): (attrs: seq<Attr>) {
    match k
    case Pre(language) => if language != "" then [Attr("language", Some(language))] else []
    case Blockquote(expandable) => if expandable then [Attr("expandable", None)] else []
    case TextLink(url) => [Attr("href", Some(url))]
    case TextMention(id) => [Attr("href", Some("tg://user?id=" + Decimal(id)))]
    case CustomEmoji(id) => [Attr("emoji-id", Some(Decimal(id)))]
    case DateTime(t, format) =>
      [Attr("unix", Some(Decimal(t)))] + if format != "" then [Attr("format", Some(format))] else []
    case _ => []
  }

  function PrintAttrs(attrs: seq<Attr>): (s: string) {
    if attrs == [] then ""
    else " " + attrs[0].name + (if attrs[0].value.Some? then "=\"" + attrs[0].value.value + "\"" else "") + PrintAttrs(attrs[1..])
  }

  /** What stands between the tag's name and its closing bracket. */
  function Attributes(k: Kind): (a: string) {
    PrintAttrs(AttrList(k))
  }

  function StartTag(k: Kind): (t: string) {
    "<" + (Name(k) + Attributes(k)) + ">"
  }

  function EndTag(k: Kind): (t: string) {
    "<" + ("/" + Name(k)) + ">"
  }

  // ----- order and nesting

  /** The sort key `(offset, -length)`. */
  predicate Before(a: Entity, b: Entity) {
    a.offset < b.offset || (a.offset == b.offset && a.length >= b.length)
  }

  ghost predicate Ordered(es: seq<Entity>) {
    forall i, j :: 0 <= i < j < |es| ==> Before(es[i], es[j])
  }

  predicate Nested(a: Entity, b: Entity) {
    b.offset <= a.offset && a.End() <= b.End()
  }

  predicate Disjoint(a: Entity, b: Entity) {
    a.End() <= b.offset || b.End() <= a.offset
  }

  predicate Compatible(a: Entity, b: Entity) {
    Nested(a, b) || Nested(b, a) || Disjoint(a, b)
  }

  /** Non-empty entities inside a text of length `n`, pairwise nested or disjoint. */
  ghost predicate Laminar(es: seq<Entity>, n: nat) {
    && (forall e :: e in es ==> e.length > 0 && e.End() <= n)
    && (forall a, b :: a in es && b in es ==> Compatible(a, b))
  }

  function Insert(e: Entity, es: seq<Entity>): (r: seq<Entity>) {
    if es == [] || !Before(es[0], e) then [e] + es else [es[0]] + Insert(e, es[1..])
  }

  /** `entities.sort(key=lambda e: (e.offset, -e.length))`. */
  function Sort(es: seq<Entity>): (r: seq<Entity>) {
    if es == [] then [] else Insert(es[|es| - 1], Sort(es[..|es| - 1]))
  }

  lemma OrderedCons(e: Entity, es: seq<Entity>)
    requires Ordered(es) && (es != [] ==> Before(e, es[0]))
    ensures Ordered([e] + es)
  {
  }

  lemma {:induction false} InsertSorts(e: Entity, es: seq<Entity>)
    requires Ordered(es)
    ensures Ordered(Insert(e, es))
    ensures Insert(e, es) != [] && (Insert(e, es)[0] == e || (es != [] && Insert(e, es)[0] == es[0]))
  {
    if es != [] && Before(es[0], e) {
      InsertSorts(e, es[1..]);
      OrderedCons(es[0], Insert(e, es[1..]));
    } else {
      OrderedCons(e, es);
    }
  }

  lemma {:induction false} InsertKeeps(e: Entity, es: seq<Entity>)
    ensures multiset(Insert(e, es)) == multiset{e} + multiset(es)
  {
    if es != [] && Before(es[0], e) {
      InsertKeeps(e, es[1..]);
      assert es == [es[0]] + es[1..];
    }
  }

  lemma {:induction false} SortOrders(es: seq<Entity>)
    ensures Ordered(Sort(es))
  {
    if es != [] {
      SortOrders(es[..|es| - 1]);
      InsertSorts(es[|es| - 1], Sort(es[..|es| - 1]));
    }
  }

  lemma {:induction false} SortKeeps(es: seq<Entity>)
    ensures multiset(Sort(es)) == multiset(es)
  {
    if es != [] {
      var init, last := es[..|es| - 1], es[|es| - 1];
      SortKeeps(init);
      InsertKeeps(last, Sort(init));
      assert es == init + [last];
    }
  }

  lemma SortSorts(es: seq<Entity>)
    ensures Ordered(Sort(es)) && multiset(Sort(es)) == multiset(es)
  {
    SortOrders(es);
    SortKeeps(es);
  }

  lemma LaminarSort(es: seq<Entity>, n: nat)
    requires Laminar(es, n)
    ensures Laminar(Sort(es), n)
  {
    SortSorts(es);
    forall x | x in Sort(es)
      ensures x in es
    {
      assert x in multiset(Sort(es));
    }
  }

  // ----- the tree

  /** Nested entities: `entity`, the entities `inside` it, and the siblings `after` it. */
  datatype Forest = Nil | Cons(entity: Entity, inside: Forest, after: Forest)

  function Preorder(f: Forest): (r: seq<Entity>) {
    match f
    case Nil => []
    case Cons(e, inside, after) => [e] + Preorder(inside) + Preorder(after)
  }

  function Postorder(f: Forest): (r: seq<Entity>) {
    match f
    case Nil => []
    case Cons(e, inside, after) => Postorder(inside) + [e] + Postorder(after)
  }

  lemma {:induction false} SameEntities(f: Forest)
    ensures multiset(Preorder(f)) == multiset(Postorder(f))
  {
    if f.Cons? {
      SameEntities(f.inside);
      SameEntities(f.after);
    }
  }

  /** Every entity lies in `[lo, hi)`, its children inside it, its later siblings after it. */
  predicate WellNested(f: Forest, lo: nat, hi: nat) {
    match f
    case Nil => lo <= hi
    case Cons(e, inside, after) =>
      && lo <= e.offset && e.End() <= hi
      && WellNested(inside, e.offset, e.End())
      && WellNested(after, e.End(), hi)
  }

  lemma {:induction false} WellNestedRange(f: Forest, lo: nat, hi: nat)
    requires WellNested(f, lo, hi)
    ensures lo <= hi
  {
    if f.Cons? {
      WellNestedRange(f.inside, f.entity.offset, f.entity.End());
      WellNestedRange(f.after, f.entity.End(), hi);
    }
  }

  /** One printed tag and the place in the text where it goes. */
  datatype Mark = Mark(tag: string, offset: nat)

  function Marks(f: Forest): (r: seq<Mark>) {
    match f
    case Nil => []
    case Cons(e, inside, after) =>
      [Mark(StartTag(e.kind), e.offset)] + Marks(inside) + [Mark(EndTag(e.kind), e.End())] + Marks(after)
  }

  ghost predicate Nondecreasing(ms: seq<Mark>, lo: nat, hi: nat) {
    && (forall i :: 0 <= i < |ms| ==> lo <= ms[i].offset <= hi)
    && (forall i, j :: 0 <= i < j < |ms| ==> ms[i].offset <= ms[j].offset)
  }

  lemma NondecreasingConcat(a: seq<Mark>, b: seq<Mark>, lo: nat, mid: nat, hi: nat)
    requires Nondecreasing(a, lo, mid) && Nondecreasing(b, mid, hi) && lo <= mid <= hi
    ensures Nondecreasing(a + b, lo, hi)
  {
  }

  /** The tags of a well-nested forest come in text order. */
  lemma {:induction false} MarksInOrder(f: Forest, lo: nat, hi: nat)
    requires WellNested(f, lo, hi)
    ensures Nondecreasing(Marks(f), lo, hi)
  {
    if f.Cons? {
      var e := f.entity;
      WellNestedRange(f.inside, e.offset, e.End());
      WellNestedRange(f.after, e.End(), hi);
      MarksInOrder(f.inside, e.offset, e.End());
      MarksInOrder(f.after, e.End(), hi);
      var open, close := [Mark(StartTag(e.kind), e.offset)], [Mark(EndTag(e.kind), e.End())];
      NondecreasingConcat(open, Marks(f.inside), lo, e.offset, e.End());
      NondecreasingConcat(open + Marks(f.inside), close, lo, e.End(), e.End());
      NondecreasingConcat(open + Marks(f.inside) + close, Marks(f.after), lo, e.End(), hi);
    }
  }
}
