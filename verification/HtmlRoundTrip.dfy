/**
 Feeding the parser's handlers the events that `unparse` prints.
 */
module HtmlRoundTrip {
  import opened Bytes
  import opened HtmlMarkup
  import opened HtmlDispatch
  import opened HtmlParser
  import HtmlUnparse

  // ----- the events are the printed tags

  lemma DataLengthConcat(a: seq<Event>, b: seq<Event>)
    ensures DataLength(a + b) == DataLength(a) + DataLength(b)
  {
    if a == [] {
      assert a + b == b;
    } else {
      assert (a + b)[1..] == a[1..] + b && (a + b)[0] == a[0];
      DataLengthConcat(a[1..], b);
    }
  }

  lemma OpenPositions(d: string, e: Entity, at: nat)
    ensures var es := [DataEvent(d), StartOf(e)];
            Positions(es, at) == [Mark(StartTag(e.kind), at + |d|)] && DataLength(es) == |d|
  {
    var a, b := [DataEvent(d)], [StartOf(e)];
    assert [DataEvent(d), StartOf(e)] == a + b;
    assert a[1..] == [] && b[1..] == [];
    PositionsConcat(a, b, at);
    DataLengthConcat(a, b);
  }

  lemma ClosePositions(e: Entity, at: nat)
    ensures Positions([EndOf(e)], at) == [Mark(EndTag(e.kind), at)] && DataLength([EndOf(e)]) == 0
  {
    assert [EndOf(e)][1..] == [];
  }

  lemma PositionsOfThree(a: seq<Event>, b: seq<Event>, c: seq<Event>, at: nat)
    ensures Positions(a + b + c, at)
         == Positions(a, at) + Positions(b, at + DataLength(a)) + Positions(c, at + DataLength(a) + DataLength(b))
    ensures DataLength(a + b + c) == DataLength(a) + DataLength(b) + DataLength(c)
  {
    PositionsConcat(a + b, c, at);
    PositionsConcat(a, b, at);
    DataLengthConcat(a + b, c);
    DataLengthConcat(a, b);
  }

  lemma ConsPositions(head: string, e: Entity, inside: seq<Event>, after: seq<Event>, lo: nat)
    requires lo + |head| == e.offset && DataLength(inside) == e.length
    ensures var es := [DataEvent(head), StartOf(e)] + inside + [EndOf(e)] + after;
            && Positions(es, lo) == [Mark(StartTag(e.kind), e.offset)] + Positions(inside, e.offset)
                                    + [Mark(EndTag(e.kind), e.End())] + Positions(after, e.End())
            && DataLength(es) == |head| + e.length + DataLength(after)
  {
    OpenPositions(head, e, lo);
    ClosePositions(e, e.End());
    var open, close := [DataEvent(head), StartOf(e)], [EndOf(e)];
    PositionsOfThree(open, inside, close, lo);
    PositionsConcat(open + inside + close, after, lo);
    DataLengthConcat(open + inside + close, after);
  }

  /** The tags of the event stream, with their positions, are exactly the tags `unparse` splices in. */
  lemma {:induction false} EventsAreMarks(text: string, f: Forest, lo: nat, hi: nat)
    requires WellNested(f, lo, hi) && hi <= |text|
    ensures Positions(Events(text, f, lo, hi), lo) == Marks(f) && DataLength(Events(text, f, lo, hi)) == hi - lo
  {
    match f {
      case Nil =>
        assert [DataEvent(text[lo..hi])][1..] == [];
      case Cons(e, inside, after) =>
        WellNestedRange(inside, e.offset, e.End());
        WellNestedRange(after, e.End(), hi);
        EventsAreMarks(text, inside, e.offset, e.End());
        EventsAreMarks(text, after, e.End(), hi);
        ConsPositions(text[lo..e.offset], e, Events(text, inside, e.offset, e.End()), Events(text, after, e.End(), hi), lo);
    }
  }

  // ----- the tags are balanced

  /** Runs the tags over a stack of open tag names; None if an end tag does not match the top. */
  function Match(es: seq<Event>, stack: seq<string>): (r: Option<seq<string>>)
    decreases |es|
  {
    if es == [] then Some(stack)
    else
      match es[0]
      case DataEvent(_) => Match(es[1..], stack)
      case StartTagEvent(tag, _) => Match(es[1..], stack + [tag])
      case EndTagEvent(tag) =>
        if stack != [] && stack[|stack| - 1] == tag then Match(es[1..], stack[..|stack| - 1]) else None
  }

  lemma {:induction false} MatchConcat(a: seq<Event>, b: seq<Event>, stack: seq<string>)
    requires Match(a, stack).Some?
    ensures Match(a + b, stack) == Match(b, Match(a, stack).value)
    decreases |a|
  {
    if a == [] {
      assert a + b == b;
    } else {
      assert (a + b)[1..] == a[1..] + b && (a + b)[0] == a[0];
      match a[0] {
        case DataEvent(_) => MatchConcat(a[1..], b, stack);
        case StartTagEvent(tag, _) => MatchConcat(a[1..], b, stack + [tag]);
        case EndTagEvent(_) => MatchConcat(a[1..], b, stack[..|stack| - 1]);
      }
    }
  }

  /** Every start tag is closed by its own end tag. */
  lemma {:induction false} Balanced(text: string, f: Forest, lo: nat, hi: nat, stack: seq<string>)
    requires WellNested(f, lo, hi) && hi <= |text|
    ensures Match(Events(text, f, lo, hi), stack) == Some(stack)
    decreases f
  {
    match f {
      case Nil =>
        assert [DataEvent(text[lo..hi])][1..] == [];
      case Cons(e, inside, after) =>
        WellNestedRange(inside, e.offset, e.End());
        WellNestedRange(after, e.End(), hi);
        var inner := stack + [Name(e.kind)];
        Balanced(text, inside, e.offset, e.End(), inner);
        Balanced(text, after, e.End(), hi, stack);
        var open, close := [DataEvent(text[lo..e.offset]), StartOf(e)], [EndOf(e)];
        MatchOpen(text[lo..e.offset], e, stack);
        MatchClose(e, stack);
        MatchConcat(open, Events(text, inside, e.offset, e.End()), stack);
        MatchConcat(open + Events(text, inside, e.offset, e.End()), close, stack);
        MatchConcat(open + Events(text, inside, e.offset, e.End()) + close, Events(text, after, e.End(), hi), stack);
    }
  }

  lemma MatchOpen(d: string, e: Entity, stack: seq<string>)
    ensures Match([DataEvent(d), StartOf(e)], stack) == Some(stack + [Name(e.kind)])
  {
    var a, b := [DataEvent(d)], [StartOf(e)];
    assert [DataEvent(d), StartOf(e)] == a + b;
    assert a[1..] == [] && b[1..] == [];
    MatchConcat(a, b, stack);
  }

  lemma MatchClose(e: Entity, stack: seq<string>)
    ensures Match([EndOf(e)], stack + [Name(e.kind)]) == Some(stack)
  {
    assert [EndOf(e)][1..] == [];
    assert (stack + [Name(e.kind)])[..|stack|] == stack;
  }

  // ----- the handlers undo the printing

  predicate PlainPiece(unescape: string -> string, text: string, a: nat, b: nat)
    requires a <= b <= |text|
  {
    unescape(text[a..b]) == text[a..b]
  }

  /** No piece of the text between two neighbouring tags holds a character reference. */
  predicate PlainPieces(unescape: string -> string, text: string, f: Forest, lo: nat, hi: nat)
    requires WellNested(f, lo, hi) && lo <= hi <= |text|
  {
    match f
    case Nil => PlainPiece(unescape, text, lo, hi)
    case Cons(e, inside, after) =>
      WellNestedRange(inside, e.offset, e.End());
      WellNestedRange(after, e.End(), hi);
      && PlainPiece(unescape, text, lo, e.offset)
      && PlainPieces(unescape, text, inside, e.offset, e.End())
      && PlainPieces(unescape, text, after, e.End(), hi)
  }

  /** The entity with the kind that its printed tag is read as. */
  function AsRead(e: Entity): (r: Entity) {
    if ReadBack(e.kind).Opens? then e.(kind := ReadBack(e.kind).kind) else e
  }

  function AllRead(es: seq<Entity>): (r: seq<Entity>)
    ensures |r| == |es| && forall i :: 0 <= i < |es| ==> r[i] == AsRead(es[i])
  {
    seq(|es|, i requires 0 <= i < |es| => AsRead(es[i]))
  }

  /** Every start tag of the forest opens an entity. */
  predicate AllOpen(f: Forest) {
    f.Nil? || (ReadBack(f.entity.kind).Opens? && AllOpen(f.inside) && AllOpen(f.after))
  }

  ghost predicate NoEmptyStack(open: map<string, seq<Entity>>) {
    forall tag :: tag in open ==> open[tag] != []
  }

  lemma GrowAllTwice(open: map<string, seq<Entity>>, a: nat, b: nat)
    ensures GrowAll(GrowAll(open, a), b) == GrowAll(open, a + b)
  {
    forall tag | tag in open
      ensures Grow(Grow(open[tag], a), b) == Grow(open[tag], a + b)
    {
    }
  }

  function Push(open: map<string, seq<Entity>>, tag: string, e: Entity): (r: map<string, seq<Entity>>) {
    open[tag := Stack(open, tag) + [e]]
  }

  /** Closing the tag opened last gives the entity with what came between, and the other stacks grown likewise. */
  lemma CloseAfterGrow(s: State, open: map<string, seq<Entity>>, tag: string, x: Entity)
    requires NoEmptyStack(open) && s.open == GrowAll(Push(open, tag, x.(length := 0)), x.length)
    ensures OnEnd(s, tag) == s.(entities := s.entities + [x], open := GrowAll(open, x.length))
  {
    var stack := Stack(open, tag);
    var grown := Grow(stack + [x.(length := 0)], x.length);
    assert grown[..|stack|] == Grow(stack, x.length);
    assert grown[|stack|] == x;
    assert s.open[tag] == grown;
    assert OnEnd(s, tag).open == GrowAll(open, x.length);
  }

  lemma FeedTwo(unescape: string -> string, s: State, a: Event, b: Event)
    ensures Feed(unescape, s, [a, b]) == Handle(unescape, Handle(unescape, s, a), b)
  {
    assert [a, b] == [a] + [b];
    FeedConcat(unescape, s, [a], [b]);
    FeedOne(unescape, s, a);
    FeedOne(unescape, Handle(unescape, s, a), b);
  }

  lemma FeedOne(unescape: string -> string, s: State, a: Event)
    ensures Feed(unescape, s, [a]) == Handle(unescape, s, a)
  {
    assert [a][1..] == [];
  }

  /** What a stretch of text does to the parser if the entities in it are closed as `es`. */
  ghost predicate Reads(s: State, r: State, text: string, es: seq<Entity>, lo: nat, hi: nat)
    requires lo <= hi <= |text|
  {
    r == State(s.text + text[lo..hi], s.entities + es, GrowAll(s.open, hi - lo), false)
  }

  /** The parser after the text up to an entity and its start tag. */
  function Opened(s: State, text: string, x: Entity, tag: string, lo: nat): (r: State)
    requires lo <= x.offset <= |text|
    ensures NoEmptyStack(s.open) ==> NoEmptyStack(r.open)
  {
    State(s.text + text[lo..x.offset], s.entities, Push(GrowAll(s.open, x.offset - lo), tag, x.(length := 0)), false)
  }

  /** The parser after the end tag of an entity in which the entities `es` were closed. */
  function Shut(s: State, text: string, x: Entity, es: seq<Entity>, lo: nat): (r: State)
    requires lo <= x.offset && x.End() <= |text|
    ensures NoEmptyStack(s.open) ==> NoEmptyStack(r.open)
  {
    State(s.text + text[lo..x.offset] + text[x.offset..x.End()], s.entities + es + [x],
      GrowAll(GrowAll(s.open, x.offset - lo), x.length), false)
  }

  lemma StartOpens(unescape: string -> string, s: State, tag: string, attrs: seq<Attr>, kind: Kind)
    requires !s.raised && Dispatch(tag, attrs) == Opens(kind)
    ensures Handle(unescape, s, StartTagEvent(tag, attrs)) == s.(open := Push(s.open, tag, Entity(kind, |s.text|, 0)))
  {
  }

  lemma ReadsOpen(unescape: string -> string, s: State, text: string, e: Entity, x: Entity, lo: nat)
    requires lo <= e.offset <= |text| && |s.text| == lo && PlainPiece(unescape, text, lo, e.offset)
    requires !s.raised && x.offset == e.offset && Dispatch(Name(e.kind), AttrList(e.kind)) == Opens(x.kind)
    ensures Feed(unescape, s, [DataEvent(text[lo..e.offset]), StartOf(e)]) == Opened(s, text, x, Name(e.kind), lo)
  {
    var d := text[lo..e.offset];
    FeedTwo(unescape, s, DataEvent(d), StartOf(e));
    StartOpens(unescape, OnData(s, d), Name(e.kind), AttrList(e.kind), x.kind);
  }

  lemma ReadsClose(s: State, r: State, text: string, x: Entity, tag: string, es: seq<Entity>, lo: nat)
    requires lo <= x.offset && x.End() <= |text| && NoEmptyStack(s.open)
    requires Reads(Opened(s, text, x, tag, lo), r, text, es, x.offset, x.End())
    ensures OnEnd(r, tag) == Shut(s, text, x, es, lo)
  {
    var open := GrowAll(s.open, x.offset - lo);
    assert NoEmptyStack(open);
    CloseAfterGrow(r, open, tag, x);
  }

  lemma AllReadAround(a: seq<Entity>, e: Entity, b: seq<Entity>)
    ensures AllRead(a + [e] + b) == AllRead(a) + [AsRead(e)] + AllRead(b)
  {
  }

  lemma PostorderRead(f: Forest)
    requires f.Cons?
    ensures AllRead(Postorder(f)) == AllRead(Postorder(f.inside)) + [AsRead(f.entity)] + AllRead(Postorder(f.after))
  {
    AllReadAround(Postorder(f.inside), f.entity, Postorder(f.after));
  }

  lemma FeedNil(unescape: string -> string, s: State, text: string, lo: nat, hi: nat)
    requires lo <= hi <= |text| && PlainPiece(unescape, text, lo, hi) && !s.raised
    ensures Reads(s, Feed(unescape, s, [DataEvent(text[lo..hi])]), text, [], lo, hi)
  {
    FeedOne(unescape, s, DataEvent(text[lo..hi]));
    assert s.entities + [] == s.entities;
  }

  lemma Regroup(a: seq<Entity>, b: seq<Entity>, c: seq<Entity>, d: seq<Entity>)
    ensures a + b + c + d == a + (b + c + d)
  {
  }

  /** On well-nested events each entity closes with exactly the span between its tags. */
  lemma {:induction false} FeedForest(unescape: string -> string, s: State, text: string, f: Forest, lo: nat, hi: nat)
    requires WellNested(f, lo, hi) && lo <= hi <= |text| && |s.text| == lo
    requires NoEmptyStack(s.open) && PlainPieces(unescape, text, f, lo, hi) && AllOpen(f) && !s.raised
    ensures Reads(s, Feed(unescape, s, Events(text, f, lo, hi)), text, AllRead(Postorder(f)), lo, hi)
    decreases f
  {
    match f {
      case Nil =>
        FeedNil(unescape, s, text, lo, hi);
      case Cons(e, inside, after) =>
        WellNestedRange(inside, e.offset, e.End());
        WellNestedRange(after, e.End(), hi);
        var x, es := AsRead(e), AllRead(Postorder(inside));
        var s1, s3 := Opened(s, text, x, Name(e.kind), lo), Shut(s, text, x, es, lo);
        FeedForest(unescape, s1, text, inside, e.offset, e.End());
        FeedForest(unescape, s3, text, after, e.End(), hi);
        PostorderRead(f);
        ReadsOpen(unescape, s, text, e, x, lo);
        var s2 := Feed(unescape, s1, Events(text, inside, e.offset, e.End()));
        ReadsEnd(unescape, s, s2, text, x, Name(e.kind), es, lo);
        FeedCons(unescape, s, text, f, lo, hi, s1, s2, s3);
        Assemble(s, s3, Feed(unescape, s3, Events(text, after, e.End(), hi)), text, x, es, AllRead(Postorder(after)), lo, hi);
    }
  }

  lemma ReadsEnd(unescape: string -> string, s: State, r: State, text: string, x: Entity, tag: string, es: seq<Entity>, lo: nat)
    requires lo <= x.offset && x.End() <= |text| && NoEmptyStack(s.open)
    requires Reads(Opened(s, text, x, tag, lo), r, text, es, x.offset, x.End())
    ensures Handle(unescape, r, EndTagEvent(tag)) == Shut(s, text, x, es, lo)
  {
    ReadsClose(s, r, text, x, tag, es, lo);
    EndCloses(unescape, r, tag);
  }

  lemma EndCloses(unescape: string -> string, s: State, tag: string)
    requires !s.raised
    ensures Handle(unescape, s, EndTagEvent(tag)) == OnEnd(s, tag)
  {
  }

  /** Feeding a nonempty forest, step by step. */
  lemma FeedCons(unescape: string -> string, s: State, text: string, f: Forest, lo: nat, hi: nat, s1: State, s2: State, s3: State)
    requires f.Cons? && WellNested(f, lo, hi) && hi <= |text|
    requires f.entity.offset <= f.entity.End() <= hi
    requires s1 == Feed(unescape, s, [DataEvent(text[lo..f.entity.offset]), StartOf(f.entity)])
    requires s2 == Feed(unescape, s1, Events(text, f.inside, f.entity.offset, f.entity.End()))
    requires s3 == Handle(unescape, s2, EndOf(f.entity))
    ensures Feed(unescape, s, Events(text, f, lo, hi)) == Feed(unescape, s3, Events(text, f.after, f.entity.End(), hi))
  {
    var e := f.entity;
    var open, close := [DataEvent(text[lo..e.offset]), StartOf(e)], [EndOf(e)];
    var inside, after := Events(text, f.inside, e.offset, e.End()), Events(text, f.after, e.End(), hi);
    FeedConcat(unescape, s, open + inside + close, after);
    FeedConcat(unescape, s, open + inside, close);
    FeedConcat(unescape, s, open, inside);
    FeedOne(unescape, Feed(unescape, s, open + inside), EndOf(e));
  }

  lemma Assemble(s: State, s3: State, r: State, text: string, x: Entity, es: seq<Entity>, later: seq<Entity>, lo: nat, hi: nat)
    requires lo <= x.offset && x.End() <= hi <= |text|
    requires s3 == Shut(s, text, x, es, lo) && Reads(s3, r, text, later, x.End(), hi)
    ensures Reads(s, r, text, es + [x] + later, lo, hi)
  {
    GrowThrice(s.open, x.offset - lo, x.length, hi - x.End());
    TextPieces(s.text, text, lo, x.offset, x.End());
    TextPieces(s.text, text, lo, x.End(), hi);
    Regroup(s.entities, es, [x], later);
  }

  lemma GrowThrice(open: map<string, seq<Entity>>, a: nat, b: nat, c: nat)
    ensures GrowAll(GrowAll(GrowAll(open, a), b), c) == GrowAll(open, a + b + c)
  {
    GrowAllTwice(open, a, b);
    GrowAllTwice(open, a + b, c);
  }

  lemma ParseTree(unescape: string -> string, text: string, tree: Forest)
    requires WellNested(tree, 0, |text|) && PlainPieces(unescape, text, tree, 0, |text|) && AllOpen(tree)
    ensures Feed(unescape, EMPTY, Events(text, tree, 0, |text|)) == State(text, AllRead(Postorder(tree)), map[], false)
  {
    FeedForest(unescape, EMPTY, text, tree, 0, |text|);
    assert text[0..|text|] == text && "" + text == text;
    assert [] + AllRead(Postorder(tree)) == AllRead(Postorder(tree));
    assert GrowAll(map[], |text|) == map[];
  }

  // ----- the text that comes back

  /** The data of an event stream, decoded. */
  function Decoded(unescape: string -> string, es: seq<Event>): (r: string) {
    if es == [] then ""
    else (if es[0].DataEvent? then unescape(es[0].data) else "") + Decoded(unescape, es[1..])
  }

  lemma {:induction false} RaisedStays(unescape: string -> string, s: State, es: seq<Event>)
    requires s.raised
    ensures Feed(unescape, s, es) == s
    decreases |es|
  {
    if es != [] {
      RaisedStays(unescape, s, es[1..]);
    }
  }

  predicate RaisesAt(e: Event) {
    e.StartTagEvent? && Dispatch(e.tag, e.attrs).Raises?
  }

  /** Parsing raises exactly if some start tag does. */
  lemma {:induction false} FeedRaisesIff(unescape: string -> string, s: State, es: seq<Event>)
    requires !s.raised
    ensures Feed(unescape, s, es).raised <==> exists e :: e in es && RaisesAt(e)
    decreases |es|
  {
    if es != [] {
      if RaisesAt(es[0]) {
        RaisedStays(unescape, Handle(unescape, s, es[0]), es[1..]);
      } else {
        FeedRaisesIff(unescape, Handle(unescape, s, es[0]), es[1..]);
        assert es == [es[0]] + es[1..];
      }
    }
  }

  lemma HandleText(unescape: string -> string, s: State, e: Event)
    requires !s.raised
    ensures Handle(unescape, s, e).text == s.text + if e.DataEvent? then unescape(e.data) else ""
  {
  }

  lemma {:induction false} FeedText(unescape: string -> string, s: State, es: seq<Event>)
    requires !Feed(unescape, s, es).raised
    ensures Feed(unescape, s, es).text == s.text + Decoded(unescape, es)
    decreases |es|
  {
    if s.raised {
      RaisedStays(unescape, s, es);
    }
    if es != [] {
      HandleText(unescape, s, es[0]);
      var d := if es[0].DataEvent? then unescape(es[0].data) else "";
      FeedText(unescape, Handle(unescape, s, es[0]), es[1..]);
      assert s.text + (d + Decoded(unescape, es[1..])) == (s.text + d) + Decoded(unescape, es[1..]);
    }
  }

  lemma {:induction false} DecodedConcat(unescape: string -> string, a: seq<Event>, b: seq<Event>)
    ensures Decoded(unescape, a + b) == Decoded(unescape, a) + Decoded(unescape, b)
  {
    if a == [] {
      assert a + b == b;
    } else {
      assert (a + b)[1..] == a[1..] + b && (a + b)[0] == a[0];
      DecodedConcat(unescape, a[1..], b);
    }
  }

  predicate ShortensAt(unescape: string -> string, s: string) {
    |unescape(s)| <= |s|
  }

  ghost predicate NeverLengthens(unescape: string -> string) {
    forall s :: ShortensAt(unescape, s)
  }

  lemma DecodedTags(unescape: string -> string, d: string, e: Entity)
    ensures Decoded(unescape, [DataEvent(d), StartOf(e)]) == unescape(d)
    ensures Decoded(unescape, [EndOf(e)]) == ""
  {
    var open := [DataEvent(d), StartOf(e)];
    assert open[1..] == [StartOf(e)] && [StartOf(e)][1..] == [] && [EndOf(e)][1..] == [];
    assert Decoded(unescape, [StartOf(e)]) == "" + "";
    assert unescape(d) + "" == unescape(d);
  }

  lemma DecodedFour(unescape: string -> string, a: seq<Event>, b: seq<Event>, c: seq<Event>, d: seq<Event>)
    ensures Decoded(unescape, a + b + c + d)
         == Decoded(unescape, a) + Decoded(unescape, b) + Decoded(unescape, c) + Decoded(unescape, d)
  {
    DecodedConcat(unescape, a + b + c, d);
    DecodedConcat(unescape, a + b, c);
    DecodedConcat(unescape, a, b);
  }

  lemma DecodedCons(unescape: string -> string, text: string, f: Forest, lo: nat, hi: nat)
    requires f.Cons? && WellNested(f, lo, hi) && hi <= |text| && f.entity.offset <= f.entity.End() <= hi
    ensures Decoded(unescape, Events(text, f, lo, hi))
         == unescape(text[lo..f.entity.offset]) + Decoded(unescape, Events(text, f.inside, f.entity.offset, f.entity.End())) + ""
            + Decoded(unescape, Events(text, f.after, f.entity.End(), hi))
  {
    var e := f.entity;
    DecodedTags(unescape, text[lo..e.offset], e);
    DecodedFour(unescape, [DataEvent(text[lo..e.offset]), StartOf(e)], Events(text, f.inside, e.offset, e.End()),
      [EndOf(e)], Events(text, f.after, e.End(), hi));
  }

  /** Three pieces, none longer than it was, make up the same text only if each is the same. */
  lemma PiecesMatch(text: string, lo: nat, a: nat, b: nat, hi: nat, x: string, y: string, z: string)
    requires lo <= a <= b <= hi <= |text| && |x| <= a - lo && |y| <= b - a && |z| <= hi - b
    ensures x + y + z == text[lo..hi] <==> x == text[lo..a] && y == text[a..b] && z == text[b..hi]
  {
    assert text[lo..hi] == text[lo..a] + text[a..b] + text[b..hi];
    if x + y + z == text[lo..hi] {
      assert |x + y + z| == hi - lo;
      assert x == (x + y + z)[..a - lo] && y == (x + y + z)[a - lo..b - lo] && z == (x + y + z)[b - lo..];
    }
  }

  /** The text from `lo` to `hi`, decoded piece by piece. */
  function DecodedText(unescape: string -> string, text: string, f: Forest, lo: nat, hi: nat): (r: string)
    requires WellNested(f, lo, hi) && hi <= |text|
  {
    Decoded(unescape, Events(text, f, lo, hi))
  }

  lemma DecodedNil(unescape: string -> string, text: string, lo: nat, hi: nat)
    requires lo <= hi <= |text|
    ensures DecodedText(unescape, text, Nil, lo, hi) == unescape(text[lo..hi])
  {
    var es := [DataEvent(text[lo..hi])];
    assert Events(text, Nil, lo, hi) == es && es[1..] == [] && Decoded(unescape, []) == "";
    assert Decoded(unescape, es) == unescape(text[lo..hi]) + "";
  }

  lemma DecodedIffCons(unescape: string -> string, text: string, f: Forest, lo: nat, hi: nat)
    requires f.Cons? && WellNested(f, lo, hi) && lo <= hi <= |text| && f.entity.offset <= f.entity.End() <= hi
    requires ShortensAt(unescape, text[lo..f.entity.offset])
    requires |DecodedText(unescape, text, f.inside, f.entity.offset, f.entity.End())| <= f.entity.length
    requires |DecodedText(unescape, text, f.after, f.entity.End(), hi)| <= hi - f.entity.End()
    ensures |DecodedText(unescape, text, f, lo, hi)| <= hi - lo
    ensures DecodedText(unescape, text, f, lo, hi) == text[lo..hi] <==>
      && PlainPiece(unescape, text, lo, f.entity.offset)
      && DecodedText(unescape, text, f.inside, f.entity.offset, f.entity.End()) == text[f.entity.offset..f.entity.End()]
      && DecodedText(unescape, text, f.after, f.entity.End(), hi) == text[f.entity.End()..hi]
  {
    var a, b := f.entity.offset, f.entity.End();
    var x, y := unescape(text[lo..a]), DecodedText(unescape, text, f.inside, a, b);
    DecodedCons(unescape, text, f, lo, hi);
    assert x + y + "" == x + y;
    PiecesMatch(text, lo, a, b, hi, x, y, DecodedText(unescape, text, f.after, b, hi));
  }

  lemma {:induction false} DecodedIff(unescape: string -> string, text: string, f: Forest, lo: nat, hi: nat)
    requires NeverLengthens(unescape) && WellNested(f, lo, hi) && lo <= hi <= |text|
    ensures |DecodedText(unescape, text, f, lo, hi)| <= hi - lo
    ensures DecodedText(unescape, text, f, lo, hi) == text[lo..hi] <==> PlainPieces(unescape, text, f, lo, hi)
    decreases f
  {
    if f.Nil? {
      assert ShortensAt(unescape, text[lo..hi]);
      DecodedNil(unescape, text, lo, hi);
    } else {
      var a, b := f.entity.offset, f.entity.End();
      WellNestedRange(f.inside, a, b);
      WellNestedRange(f.after, b, hi);
      DecodedIff(unescape, text, f.inside, a, b);
      DecodedIff(unescape, text, f.after, b, hi);
      assert ShortensAt(unescape, text[lo..a]);
      DecodedIffCons(unescape, text, f, lo, hi);
    }
  }

  // ----- the entities that come back

  /** The start tags in the events are those of the entities. */
  lemma {:induction false} StartsOfForest(text: string, f: Forest, lo: nat, hi: nat, ev: Event)
    requires WellNested(f, lo, hi) && hi <= |text|
    requires ev in Events(text, f, lo, hi) && ev.StartTagEvent?
    ensures exists e :: e in Preorder(f) && ev == StartOf(e)
    decreases f
  {
    if f.Cons? {
      var a, b := f.entity.offset, f.entity.End();
      WellNestedRange(f.inside, a, b);
      WellNestedRange(f.after, b, hi);
      assert f.entity in Preorder(f);
      if ev in Events(text, f.inside, a, b) {
        StartsOfForest(text, f.inside, a, b, ev);
      } else if ev in Events(text, f.after, b, hi) {
        StartsOfForest(text, f.after, b, hi, ev);
      }
    }
  }

  lemma {:induction false} ForestStarts(text: string, f: Forest, lo: nat, hi: nat, e: Entity)
    requires WellNested(f, lo, hi) && hi <= |text| && e in Preorder(f)
    ensures StartOf(e) in Events(text, f, lo, hi)
    decreases f
  {
    var a, b := f.entity.offset, f.entity.End();
    WellNestedRange(f.inside, a, b);
    WellNestedRange(f.after, b, hi);
    if e in Preorder(f.inside) {
      ForestStarts(text, f.inside, a, b, e);
    } else if e in Preorder(f.after) {
      ForestStarts(text, f.after, b, hi, e);
    } else {
      assert StartOf(e) in [DataEvent(text[lo..a]), StartOf(e)];
    }
  }

  lemma {:induction false} AllOpenIff(f: Forest)
    ensures AllOpen(f) <==> forall e :: e in Preorder(f) ==> ReadBack(e.kind).Opens?
  {
    if f.Cons? {
      AllOpenIff(f.inside);
      AllOpenIff(f.after);
      assert f.entity in Preorder(f);
      assert forall e :: e in Preorder(f) <==> e == f.entity || e in Preorder(f.inside) || e in Preorder(f.after);
    }
  }

  lemma RaisedIff(unescape: string -> string, text: string, tree: Forest)
    requires WellNested(tree, 0, |text|) && forall e :: e in Preorder(tree) ==> e.Supported()
    ensures Feed(unescape, EMPTY, Events(text, tree, 0, |text|)).raised <==> !AllOpen(tree)
  {
    var evs := Events(text, tree, 0, |text|);
    FeedRaisesIff(unescape, EMPTY, evs);
    AllOpenIff(tree);
    forall e | e in Preorder(tree)
      ensures ReadBack(e.kind) != Ignored && StartOf(e) in evs
    {
      ReadBackIff(e.kind);
      ForestStarts(text, tree, 0, |text|, e);
    }
    if e :| e in Preorder(tree) && !ReadBack(e.kind).Opens? {
      assert RaisesAt(StartOf(e));
    }
    forall ev | ev in evs && RaisesAt(ev)
      ensures exists e :: e in Preorder(tree) && ev == StartOf(e)
    {
      StartsOfForest(text, tree, 0, |text|, ev);
    }
  }

  function Highest(es: seq<Entity>): (n: int) {
    if es == [] then 0
    else
      var n := Highest(es[1..]);
      if es[0].kind.CustomEmoji? && es[0].kind.emojiId > n then es[0].kind.emojiId else n
  }

  lemma {:induction false} HighestBounds(es: seq<Entity>, e: Entity)
    requires e in es && e.kind.CustomEmoji?
    ensures e.kind.emojiId <= Highest(es)
  {
    if es[0] != e {
      HighestBounds(es[1..], e);
    }
  }

  /** An unreadable entity among those read came from an emoji id one turn higher; there is no highest such id. */
  lemma {:induction false} NoUnreadable(es: seq<Entity>, e: Entity)
    requires multiset(AllRead(es)) == multiset(es) && (forall x :: x in es ==> x.Supported() && ReadBack(x.kind).Opens?)
    requires e in es
    ensures Readable(e.kind)
    decreases if e.kind.CustomEmoji? && e.kind.emojiId <= Highest(es) then Highest(es) - e.kind.emojiId else Highest(es)
  {
    if !Readable(e.kind) {
      var x := ReadFrom(es, e);
      HighestBounds(es, x);
      NoUnreadable(es, x);
    }
  }

  lemma ReadFrom(es: seq<Entity>, e: Entity) returns (x: Entity)
    requires multiset(AllRead(es)) == multiset(es) && (forall y :: y in es ==> y.Supported() && ReadBack(y.kind).Opens?)
    requires e in es && !Readable(e.kind)
    ensures x in es && !Readable(x.kind) && x.kind.CustomEmoji? && e.kind.CustomEmoji?
    ensures e.kind.emojiId == x.kind.emojiId - 0x1_0000_0000_0000_0000
  {
    assert e in multiset(AllRead(es));
    var i :| 0 <= i < |es| && AllRead(es)[i] == e;
    x := es[i];
    ReadIsReadable(x.kind);
  }

  lemma ReadableIff(es: seq<Entity>)
    requires forall x :: x in es ==> x.Supported() && ReadBack(x.kind).Opens?
    ensures multiset(AllRead(es)) == multiset(es) <==> forall e :: e in es ==> Readable(e.kind)
  {
    if multiset(AllRead(es)) == multiset(es) {
      forall e | e in es ensures Readable(e.kind) {
        NoUnreadable(es, e);
      }
    }
    if forall e :: e in es ==> Readable(e.kind) {
      forall i | 0 <= i < |es| ensures AsRead(es[i]) == es[i] {
        ReadBackIff(es[i].kind);
      }
      assert AllRead(es) == es;
    }
  }

  /** The parse gives back the text and the entities. */
  ghost predicate GivesBack(r: State, text: string, es: seq<Entity>) {
    !r.raised && r.text == text && multiset(r.entities) == multiset(es)
  }

  lemma SameMembers(a: seq<Entity>, b: seq<Entity>)
    requires multiset(a) == multiset(b)
    ensures forall e :: e in a <==> e in b
  {
    assert forall e :: e in a <==> e in multiset(a);
    assert forall e :: e in b <==> e in multiset(b);
  }

  lemma ParseGivesBack(unescape: string -> string, text: string, tree: Forest)
    requires WellNested(tree, 0, |text|) && NeverLengthens(unescape) && forall e :: e in Preorder(tree) ==> e.Supported()
    ensures var r := Feed(unescape, EMPTY, Events(text, tree, 0, |text|));
            GivesBack(r, text, Preorder(tree)) <==>
              PlainPieces(unescape, text, tree, 0, |text|) && forall e :: e in Preorder(tree) ==> Readable(e.kind)
  {
    var evs, es := Events(text, tree, 0, |text|), Postorder(tree);
    SameEntities(tree);
    SameMembers(Preorder(tree), es);
    RaisedIff(unescape, text, tree);
    AllOpenIff(tree);
    DecodedIff(unescape, text, tree, 0, |text|);
    assert text[0..|text|] == text;
    if AllOpen(tree) {
      FeedText(unescape, EMPTY, evs);
      assert "" + Decoded(unescape, evs) == Decoded(unescape, evs);
      ReadableIff(es);
      if PlainPieces(unescape, text, tree, 0, |text|) {
        ParseTree(unescape, text, tree);
      }
    } else {
      var e :| e in Preorder(tree) && !ReadBack(e.kind).Opens?;
      ReadBackIff(e.kind);
    }
  }

  /**
   Parsing what `unparse` prints, for supported entities that are pairwise nested or disjoint and a decoder that
   never lengthens: the text and the entities come back exactly if no piece between two neighbouring tags holds a
   character reference and every kind is one that the handler reads back from its own tag. No tag is left open then.
   */
  lemma ParseOfUnparse(unescape: string -> string, text: string, es: seq<Entity>)
    requires Laminar(es, |text|) && (forall e :: e in es ==> e.Supported()) && NeverLengthens(unescape)
    ensures var tree := HtmlUnparse.Tree(es);
            && WellNested(tree, 0, |text|)
            && var r := Feed(unescape, EMPTY, Events(text, tree, 0, |text|));
               && (GivesBack(r, text, es) <==>
                   PlainPieces(unescape, text, tree, 0, |text|) && forall e :: e in es ==> Readable(e.kind))
               && (GivesBack(r, text, es) ==> r.open == map[])
  {
    var tree := HtmlUnparse.Tree(es);
    HtmlUnparse.TreeNests(es, |text|);
    HtmlUnparse.TreeHoldsAll(es);
    SameEntities(tree);
    SameMembers(Preorder(tree), es);
    ParseGivesBack(unescape, text, tree);
    if PlainPieces(unescape, text, tree, 0, |text|) && forall e :: e in es ==> Readable(e.kind) {
      AllOpenIff(tree);
      forall e | e in Preorder(tree) ensures ReadBack(e.kind).Opens? {
        ReadBackIff(e.kind);
      }
      ParseTree(unescape, text, tree);
    }
  }

  /** Parsing what `unparse` prints raises exactly if a date has a format that the handler refuses. */
  lemma ParseRaisesIff(unescape: string -> string, text: string, es: seq<Entity>)
    requires Laminar(es, |text|) && (forall e :: e in es ==> e.Supported())
    ensures var tree := HtmlUnparse.Tree(es);
            && WellNested(tree, 0, |text|)
            && (Feed(unescape, EMPTY, Events(text, tree, 0, |text|)).raised <==>
                exists e :: e in es && e.kind.DateTime? && !Readable(e.kind))
  {
    var tree := HtmlUnparse.Tree(es);
    HtmlUnparse.TreeNests(es, |text|);
    HtmlUnparse.TreeHoldsAll(es);
    SameMembers(Preorder(tree), es);
    RaisedIff(unescape, text, tree);
    AllOpenIff(tree);
    forall e | e in es
      ensures ReadBack(e.kind).Opens? <==> !(e.kind.DateTime? && !Readable(e.kind))
    {
      OpensIff(e.kind);
    }
  }

  /** The events fed above are the tags and pieces of the printed markup, and they are balanced. */
  lemma PrintedEvents(text: string, es: seq<Entity>)
    requires Laminar(es, |text|)
    ensures var tree := HtmlUnparse.Tree(es);
            && WellNested(tree, 0, |text|)
            && Positions(Events(text, tree, 0, |text|), 0) == Marks(tree)
            && Match(Events(text, tree, 0, |text|), []) == Some([])
  {
    var tree := HtmlUnparse.Tree(es);
    HtmlUnparse.TreeNests(es, |text|);
    EventsAreMarks(text, tree, 0, |text|);
    Balanced(text, tree, 0, |text|, []);
  }
}
