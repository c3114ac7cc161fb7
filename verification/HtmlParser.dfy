/**
 The tag handlers of the HTML parser: text, closed entities, and one stack of open entities per tag name.
 */
module HtmlParser {
  import opened Bytes
  import opened HtmlMarkup
  import opened HtmlDispatch

  /** What the tokenizer hands to the handlers. */
  datatype Event =
    | StartTagEvent(tag: string, attrs: seq<Attr>)
    | DataEvent(data: string)
    | EndTagEvent(tag: string)

  // ----- the handlers as functions of the parser's state

  /** `raised` tells that a handler has raised, which ends the parsing. */
  datatype State = State(text: string, entities: seq<Entity>, open: map<string, seq<Entity>>, raised: bool)

  const EMPTY := State("", [], map[], false)

  function Grow(es: seq<Entity>, n: nat): (r: seq<Entity>)
    ensures |r| == |es| && forall i :: 0 <= i < |es| ==> r[i] == es[i].(length := es[i].length + n)
  {
    seq(|es|, i requires 0 <= i < |es| => es[i].(length := es[i].length + n))
  }

  function GrowAll(open: map<string, seq<Entity>>, n: nat): (r: map<string, seq<Entity>>) {
    map tag | tag in open :: Grow(open[tag], n)
  }

  function Stack(open: map<string, seq<Entity>>, tag: string): (r: seq<Entity>) {
    if tag in open then open[tag] else []
  }

  function OnStart(s: State, tag: string, attrs: seq<Attr>): (r: State) {
    match Dispatch(tag, attrs)
    case Ignored => s
    case Raises => s.(raised := true)
    case Opens(kind) => s.(open := s.open[tag := Stack(s.open, tag) + [Entity(kind, |s.text|, 0)]])
  }

  function OnData(s: State, data: string): (r: State) {
    s.(text := s.text + data, open := GrowAll(s.open, |data|))
  }

  function OnEnd(s: State, tag: string): (r: State) {
    var stack := Stack(s.open, tag);
    if stack == [] then
      s
    else
      var rest := stack[..|stack| - 1];
      s.(entities := s.entities + [stack[|stack| - 1]],
         open := if rest == [] then s.open - {tag} else s.open[tag := rest])
  }

  function Handle(unescape: string -> string, s: State, e: Event): (r: State) {
    if s.raised then s
    else
    match e
    case StartTagEvent(tag, attrs) => OnStart(s, tag, attrs)
    case DataEvent(data) => OnData(s, unescape(data))
    case EndTagEvent(tag) => OnEnd(s, tag)
  }

  function Feed(unescape: string -> string, s: State, es: seq<Event>): (r: State)
    decreases |es|
  {
    if es == [] then s else Feed(unescape, Handle(unescape, s, es[0]), es[1..])
  }

  // ----- the parser object

  /** No empty stacks, and every open entity reaches to the end of the text so far. */
  ghost predicate Reaching(s: State) {
    forall tag :: tag in s.open ==> s.open[tag] != [] && forall i :: 0 <= i < |s.open[tag]| ==> s.open[tag][i].End() == |s.text|
  }

  class Parser {
    const unescape: string -> string
    var text: string
    var entities: seq<Entity>
    var tagEntities: map<string, seq<Entity>>

    ghost function Value(raised: bool): (s: State)
      reads this
    {
      State(text, entities, tagEntities, raised)
    }

    ghost predicate Valid()
      reads this
    {
      Reaching(Value(false))
    }

    constructor (u: string -> string)
      ensures Valid() && Value(false) == EMPTY && unescape == u
    {
      unescape := u;
      text, entities, tagEntities := "", [], map[];
    }

    method HandleStartTag(tag: string, attrs: seq<Attr>) returns (ok: bool)
      requires Valid()
      modifies this
      ensures Valid() && Value(!ok) == OnStart(old(Value(false)), tag, attrs)
    {
      var opening := Dispatch(tag, attrs);
      if !opening.Opens? {
        return opening.Ignored?;
      }
      if tag !in tagEntities {
        tagEntities := tagEntities[tag := []];
      }
      tagEntities := tagEntities[tag := tagEntities[tag] + [Entity(opening.kind, |text|, 0)]];
      ok := true;
    }

    /** The inner loop of `handle_data`: every entity of one stack grows. */
    method Lengthen(es: seq<Entity>, n: nat) returns (r: seq<Entity>)
      ensures r == Grow(es, n)
    {
      r := es;
      for i := 0 to |es|
        invariant |r| == |es|
        invariant forall k :: 0 <= k < |es| ==> r[k] == if k < i then es[k].(length := es[k].length + n) else es[k]
      {
        r := r[i := r[i].(length := r[i].length + n)];
      }
    }

    method HandleData(data: string)
      requires Valid()
      modifies this
      ensures Valid() && Value(false) == OnData(old(Value(false)), unescape(data))
    {
      var d := unescape(data);
      var todo := tagEntities.Keys;
      while todo != {}
        invariant todo <= tagEntities.Keys == old(tagEntities.Keys)
        invariant text == old(text) && entities == old(entities)
        invariant forall tag :: tag in tagEntities ==>
                    tagEntities[tag] == if tag in todo then old(tagEntities)[tag] else Grow(old(tagEntities)[tag], |d|)
        decreases |todo|
      {
        var tag :| tag in todo;
        var grown := Lengthen(tagEntities[tag], |d|);
        tagEntities := tagEntities[tag := grown];
        todo := todo - {tag};
      }
      text := text + d;
      assert tagEntities == GrowAll(old(tagEntities), |d|);
    }

    method HandleEndTag(tag: string)
      requires Valid()
      modifies this
      ensures Valid() && Value(false) == OnEnd(old(Value(false)), tag)
    {
      if tag !in tagEntities || tagEntities[tag] == [] {
        return;
      }
      var stack := tagEntities[tag];
      entities := entities + [stack[|stack| - 1]];
      tagEntities := tagEntities[tag := stack[..|stack| - 1]];
      if tagEntities[tag] == [] {
        tagEntities := tagEntities - {tag};
      }
      assert tagEntities == OnEnd(old(Value(false)), tag).open;
    }
  }

  /** Whatever the events, every open entity reaches to the end of the text. */
  lemma {:induction false} FeedReaches(unescape: string -> string, s: State, es: seq<Event>)
    requires Reaching(s)
    ensures Reaching(Feed(unescape, s, es))
    decreases |es|
  {
    if es != [] {
      HandleReaches(unescape, s, es[0]);
      FeedReaches(unescape, Handle(unescape, s, es[0]), es[1..]);
    }
  }

  lemma HandleReaches(unescape: string -> string, s: State, e: Event)
    requires Reaching(s)
    ensures Reaching(Handle(unescape, s, e))
  {
  }

  lemma {:induction false} FeedConcat(unescape: string -> string, s: State, a: seq<Event>, b: seq<Event>)
    ensures Feed(unescape, s, a + b) == Feed(unescape, Feed(unescape, s, a), b)
    decreases |a|
  {
    if a == [] {
      assert a + b == b;
    } else {
      FeedConcat(unescape, Handle(unescape, s, a[0]), a[1..], b);
      assert (a + b)[1..] == a[1..] + b;
    }
  }

  // ----- the events of a forest of entities over a text

  function StartOf(e: Entity): (r: Event) {
    StartTagEvent(Name(e.kind), AttrList(e.kind))
  }

  function EndOf(e: Entity): (r: Event) {
    EndTagEvent(Name(e.kind))
  }

  /** The text from `lo` to `hi` with the tags of the forest in place. */
  function Events(text: string, f: Forest, lo: nat, hi: nat): (r: seq<Event>)
    requires WellNested(f, lo, hi) && hi <= |text|
  {
    match f
    case Nil => [DataEvent(text[lo..hi])]
    case Cons(e, inside, after) =>
      WellNestedRange(inside, e.offset, e.End());
      WellNestedRange(after, e.End(), hi);
      [DataEvent(text[lo..e.offset]), StartOf(e)] + Events(text, inside, e.offset, e.End())
      + [EndOf(e)] + Events(text, after, e.End(), hi)
  }

  /** The tags in an event stream, with the positions in the text at which they come. */
  function Positions(es: seq<Event>, at: nat): (r: seq<Mark>) {
    if es == [] then []
    else
      match es[0]
      case DataEvent(d) => Positions(es[1..], at + |d|)
      case StartTagEvent(tag, attrs) => [Mark("<" + (tag + PrintAttrs(attrs)) + ">", at)] + Positions(es[1..], at)
      case EndTagEvent(tag) => [Mark("<" + ("/" + tag) + ">", at)] + Positions(es[1..], at)
  }

  function DataLength(es: seq<Event>): (n: nat) {
    if es == [] then 0 else (if es[0].DataEvent? then |es[0].data| else 0) + DataLength(es[1..])
  }

  lemma {:induction false} PositionsConcat(a: seq<Event>, b: seq<Event>, at: nat)
    ensures Positions(a + b, at) == Positions(a, at) + Positions(b, at + DataLength(a))
  {
    if a == [] {
      assert a + b == b;
    } else {
      assert (a + b)[1..] == a[1..] + b && (a + b)[0] == a[0];
      PositionsConcat(a[1..], b, at + if a[0].DataEvent? then |a[0].data| else 0);
    }
  }
}
