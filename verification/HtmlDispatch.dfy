/**
 The dispatch of `handle_starttag`: which entity a tag name and its attributes open.
 */
module HtmlDispatch {
  import opened Bytes
  import opened Decimals
  import opened HtmlMarkup

  /** A tag opens an entity, is passed over, or raises. */
  datatype Opening = Opens(kind: Kind) | Ignored | Raises

  /** `dict(attrs).get(name)`: None if there is no such attribute, and otherwise its value, which may be missing. */
  function Get(attrs: seq<Attr>, name: string): (v: Option<Option<string>>) {
    if attrs == [] then None
    else if attrs[|attrs| - 1].name == name then Some(attrs[|attrs| - 1].value)
    else Get(attrs[..|attrs| - 1], name)
  }

  predicate StartsWith(s: string, p: string) {
    |p| <= |s| && s[..|p|] == p
  }

  // ----- links

  /** `MENTION_RE.match(url)`: the prefix and at least one digit; what follows the digits does not matter. */
  predicate IsMention(url: string) {
    StartsWith(url, "tg://user?id=") && DigitRun(url[13..]) != ""
  }

  function Link(href: Option<Option<string>>): (r: Opening) {
    match href
    case Some(None) => Raises
    case None => Opens(TextLink(""))
    case Some(Some(url)) =>
      if IsMention(url) then Opens(TextMention(DigitsValue(DigitRun(url[13..]))))
      else if StartsWith(url, "mailto:") then Opens(Unsupported("email"))
      else Opens(TextLink(url))
  }

  // ----- custom emoji

  function NormalizeInt64(v: int): (r: int) {
    if v >= 0x8000_0000_0000_0000 then v - 0x1_0000_0000_0000_0000 else v
  }

  function Emoji(id: Option<Option<string>>): (r: Opening) {
    if id.None? || id.value.None? then Ignored
    else
      match ParseInt(id.value.value)
      case None => Ignored
      case Some(v) => Opens(CustomEmoji(NormalizeInt64(v)))
  }

  // ----- dates

  datatype DateFlags = DateFlags(
    relative: bool, dayOfWeek: bool, shortDate: bool, longDate: bool, shortTime: bool, longTime: bool)

  /** Drops the first character of `s` if it is one of `cs`. */
  function Optionally(s: string, cs: string): (r: string) {
    if s != "" && s[0] in cs then s[1..] else s
  }

  /** `re.fullmatch(r"r|w?[dD]?[tT]?", s)`. */
  predicate IsFormat(s: string) {
    s == "r" || Optionally(Optionally(Optionally(s, "w"), "dD"), "tT") == ""
  }

  function FlagsOf(format: string): (f: DateFlags) {
    if format == "r" then DateFlags(true, false, false, false, false, false)
    else
      DateFlags(false, 'w' in format, 'd' in format, 'd' !in format && 'D' in format, 't' in format, 't' !in format && 'T' in format)
  }

  /** The format that an entity with these flags shows. */
  function FormatOf(f: DateFlags): (format: string) {
    if f.relative then "r"
    else
      (if f.dayOfWeek then "w" else "")
      + (if f.shortDate then "d" else if f.longDate then "D" else "")
      + (if f.shortTime then "t" else if f.longTime then "T" else "")
  }

  function Date(unix: Option<Option<string>>, format: Option<Option<string>>): (r: Opening) {
    if unix.None? || unix.value.None? || ParseInt(unix.value.value).None? then Raises
    else
      var t := ParseInt(unix.value.value).value;
      var f := if format.Some? && format.value.Some? then format.value.value else "";
      if f != "" && !IsFormat(f) then Raises
      else Opens(DateTime(t, FormatOf(FlagsOf(f))))
  }

  // ----- all tags

  function Dispatch(tag: string, attrs: seq<Attr>): (r: Opening) {
    if tag in ["b", "strong"] then Opens(Bold)
    else if tag in ["i", "em"] then Opens(Italic)
    else if tag in ["u", "ins"] then Opens(Underline)
    else if tag in ["s", "del", "strike"] then Opens(Strike)
    else if tag == "blockquote" then Opens(Blockquote(Get(attrs, "expandable").Some?))
    else if tag == "code" then Opens(Code)
    else if tag == "pre" then
      var language := Get(attrs, "language");
      Opens(Pre(if language.Some? && language.value.Some? then language.value.value else ""))
    else if tag in ["spoiler", "tg-spoiler"] then Opens(Spoiler)
    else if tag == "a" then Link(Get(attrs, "href"))
    else if tag == "tg-emoji" then Emoji(Get(attrs, "emoji-id"))
    else if tag == "emoji" then Emoji(Get(attrs, "id"))
    else if tag == "tg-time" then Date(Get(attrs, "unix"), Get(attrs, "format"))
    else Ignored
  }

  /** What the printed start tag of a kind is read as. */
  function ReadBack(k: Kind): (r: Opening) {
    Dispatch(Name(k), AttrList(k))
  }

  // ----- what is printed comes back

  predicate PlainAddress(url: string) {
    && !(|url| >= 14 && url[..13] == "tg://user?id=" && '0' <= url[13] <= '9')
    && !(|url| >= 7 && url[..7] == "mailto:")
  }

  predicate KnownFormat(s: string) {
    s in ["", "r", "w", "d", "D", "t", "T", "wd", "wD", "wt", "wT", "dt", "dT", "Dt", "DT", "wdt", "wdT", "wDt", "wDT"]
  }

  lemma PlainAddressIff(url: string)
    ensures PlainAddress(url) <==> !IsMention(url) && !StartsWith(url, "mailto:")
  {
    if |url| >= 14 {
      assert url[13..][0] == url[13];
    }
  }

  lemma KnownFormatIff(s: string)
    ensures KnownFormat(s) <==> IsFormat(s)
  {
    if IsFormat(s) {
      IsFormatIsKnown(s);
    }
    if KnownFormat(s) {
      KnownIsFormat(s);
    }
  }

  lemma KnownIsFormat(s: string)
    requires KnownFormat(s)
    ensures IsFormat(s)
  {
    if |s| == 3 {
      ThreeParts(s);
    } else if |s| == 2 {
      TwoParts(s);
    } else {
      OnePart(s);
    }
  }

  lemma OnePart(s: string)
    requires KnownFormat(s) && |s| <= 1
    ensures IsFormat(s)
  {
    assert s != "" ==> s == [s[0]] && s[1..] == "";
  }

  lemma TwoParts(s: string)
    requires KnownFormat(s) && |s| == 2
    ensures IsFormat(s)
  {
    var rest := s[1..];
    assert rest == [s[1]] && rest[1..] == "";
  }

  lemma ThreeParts(s: string)
    requires KnownFormat(s) && |s| == 3
    ensures IsFormat(s)
  {
    assert s[0] == 'w' && s[1] in "dD" && s[2] in "tT";
    var rest := s[1..];
    var last := rest[1..];
    assert rest == [s[1], s[2]] && last == [s[2]] && last[1..] == "";
    assert Optionally(s, "w") == rest && Optionally(rest, "dD") == last;
  }

  lemma IsFormatIsKnown(s: string)
    requires IsFormat(s)
    ensures KnownFormat(s)
  {
    if s != "r" {
      var w, d, t := FormatParts(s);
      DateFormats(w, d);
      TimeFormats(w + d, t);
    }
  }

  lemma DateFormats(w: string, d: string)
    requires (w == "" || w == "w") && (d == "" || d == "d" || d == "D")
    ensures w + d in ["", "w", "d", "D", "wd", "wD"]
  {
    assert w == "" ==> w + d == d;
    assert d == "" ==> w + d == w;
    assert "w" + "d" == "wd" && "w" + "D" == "wD";
  }

  lemma TimeFormats(s: string, t: string)
    requires s in ["", "w", "d", "D", "wd", "wD"] && (t == "" || t == "t" || t == "T")
    ensures KnownFormat(s + t)
  {
    if t == "" {
      assert s + t == s;
    } else if s == "" {
      assert s + t == t;
    } else if |s| == 1 {
      assert s + t == [s[0], t[0]];
    } else {
      assert s + t == [s[0], s[1], t[0]];
    }
  }

  /**
   The kinds that the handler reads back from their own tags: a link must not look like a mention with an id or like
   a mail address, a mention needs an id that is not negative, an emoji id must fit 63 bits, and a date needs one of
   the nineteen formats.
   */
  predicate Readable(k: Kind) {
    match k
    case TextLink(url) => PlainAddress(url)
    case TextMention(id) => id >= 0
    case CustomEmoji(id) => id < 0x8000_0000_0000_0000
    case DateTime(_, format) => KnownFormat(format)
    case Unsupported(_) => false
    case _ => true
  }

  lemma GetOne(name: string, v: Option<string>, other: string)
    ensures Get([Attr(name, v)], name) == Some(v)
    ensures other != name ==> Get([Attr(name, v)], other) == None
  {
    var attrs := [Attr(name, v)];
    assert attrs[..0] == [];
  }

  lemma GetTwo(a: Attr, b: Attr)
    requires a.name != b.name
    ensures Get([a, b], a.name) == Some(a.value) && Get([a, b], b.name) == Some(b.value)
  {
    var attrs := [a, b];
    assert attrs[..1] == [a];
    GetOne(a.name, a.value, b.name);
  }

  lemma MentionBack(id: int)
    ensures Link(Some(Some("tg://user?id=" + Decimal(id))))
         == if id >= 0 then Opens(TextMention(id)) else Opens(TextLink("tg://user?id=" + Decimal(id)))
  {
    var p, url := "tg://user?id=", "tg://user?id=" + Decimal(id);
    assert url[..13] == p && url[13..] == Decimal(id);
    if id >= 0 {
      DigitsRoundTrip(id);
      DigitRunWhole(Decimal(id));
    } else {
      assert Decimal(id)[0] == '-';
      assert url[0] == 't';
    }
  }

  lemma EmojiBack(id: int)
    ensures Emoji(Some(Some(Decimal(id)))) == Opens(CustomEmoji(NormalizeInt64(id)))
  {
    ParseDecimal(id);
  }

  lemma FormatParts(s: string) returns (w: string, d: string, t: string)
    requires IsFormat(s) && s != "r"
    ensures s == w + d + t
    ensures (w == "" || w == "w") && (d == "" || d == "d" || d == "D") && (t == "" || t == "t" || t == "T")
  {
    var s1 := Optionally(s, "w");
    var s2 := Optionally(s1, "dD");
    w := if s1 == s then "" else "w";
    d := if s2 == s1 then "" else [s1[0]];
    t := s2;
    assert s == w + s1;
    assert s1 == d + s2;
    assert s2 == "" || s2 == [s2[0]];
  }

  lemma PartsBack(w: string, d: string, t: string)
    requires (w == "" || w == "w") && (d == "" || d == "d" || d == "D") && (t == "" || t == "t" || t == "T")
    ensures w + d + t != "r" && FormatOf(FlagsOf(w + d + t)) == w + d + t
  {
    var s := w + d + t;
    forall c ensures c in s <==> c in w || c in d || c in t {
    }
    assert 'r' !in s;
    assert "r"[0] == 'r';
  }

  /** Flags and format are inverse on the formats that the expression matches. */
  lemma FormatBack(format: string)
    requires IsFormat(format)
    ensures FormatOf(FlagsOf(format)) == format
  {
    if format != "r" {
      var w, d, t := FormatParts(format);
      PartsBack(w, d, t);
    }
  }

  /** The letters of a date format and the flags that they set. */
  lemma FlagsAre(format: string)
    requires KnownFormat(format)
    ensures var f := FlagsOf(format);
            && (f.relative <==> format == "r") && (f.dayOfWeek <==> 'w' in format)
            && (f.shortDate <==> 'd' in format) && (f.longDate <==> 'D' in format)
            && (f.shortTime <==> 't' in format) && (f.longTime <==> 'T' in format)
  {
  }

  lemma DateBack(t: int, format: string)
    ensures Date(Some(Some(Decimal(t))), if format != "" then Some(Some(format)) else None)
         == if IsFormat(format) then Opens(DateTime(t, format)) else Raises
  {
    ParseDecimal(t);
    if IsFormat(format) {
      FormatBack(format);
    }
  }

  lemma DispatchLink(attrs: seq<Attr>)
    ensures Dispatch("a", attrs) == Link(Get(attrs, "href"))
  {
  }

  lemma DispatchEmoji(attrs: seq<Attr>)
    ensures Dispatch("tg-emoji", attrs) == Emoji(Get(attrs, "emoji-id"))
  {
    var tag := "tg-emoji";
    assert |tag| == 8;
  }

  lemma DispatchDate(attrs: seq<Attr>)
    ensures Dispatch("tg-time", attrs) == Date(Get(attrs, "unix"), Get(attrs, "format"))
  {
    var tag := "tg-time";
    assert |tag| == 7;
  }

  lemma ReadLink(url: string)
    ensures ReadBack(TextLink(url)) == Link(Some(Some(url)))
  {
    DispatchLink(AttrList(TextLink(url)));
    GetOne("href", Some(url), "href");
  }

  lemma ReadMention(id: int)
    ensures ReadBack(TextMention(id))
         == if id >= 0 then Opens(TextMention(id)) else Opens(TextLink("tg://user?id=" + Decimal(id)))
  {
    DispatchLink(AttrList(TextMention(id)));
    GetOne("href", Some("tg://user?id=" + Decimal(id)), "href");
    MentionBack(id);
  }

  lemma ReadEmoji(id: int)
    ensures ReadBack(CustomEmoji(id)) == Opens(CustomEmoji(NormalizeInt64(id)))
  {
    DispatchEmoji(AttrList(CustomEmoji(id)));
    GetOne("emoji-id", Some(Decimal(id)), "emoji-id");
    EmojiBack(id);
  }

  lemma ReadDate(t: int, format: string)
    ensures ReadBack(DateTime(t, format)) == if IsFormat(format) then Opens(DateTime(t, format)) else Raises
  {
    DispatchDate(AttrList(DateTime(t, format)));
    DateAttrs(t, format);
    DateBack(t, format);
  }

  lemma ReadPre(language: string)
    ensures ReadBack(Pre(language)) == Opens(Pre(language))
  {
    GetOne("language", Some(language), "language");
  }

  lemma ReadQuote(expandable: bool)
    ensures ReadBack(Blockquote(expandable)) == Opens(Blockquote(expandable))
  {
    GetOne("expandable", None, "expandable");
  }

  lemma ReadPlain(k: Kind)
    requires k in {Bold, Italic, Underline, Strike, Code, Spoiler}
    ensures ReadBack(k) == Opens(k)
  {
  }

  /** What becomes of a printed tag: the same kind, another kind, or an error. */
  ghost predicate Behaves(k: Kind) {
    var r := ReadBack(k);
    && (r == Opens(k) <==> Readable(k))
    && r != Ignored
    && (r.Raises? <==> k.DateTime? && !Readable(k))
    && (r.Opens? && !r.kind.Unsupported? && !Readable(r.kind) ==>
        k.CustomEmoji? && r == Opens(CustomEmoji(k.emojiId - 0x1_0000_0000_0000_0000)) && !Readable(k))
  }

  lemma LinkBehaves(url: string)
    ensures Behaves(TextLink(url))
  {
    ReadLink(url);
    PlainAddressIff(url);
  }

  lemma MentionBehaves(id: int)
    ensures Behaves(TextMention(id))
  {
    ReadMention(id);
    if id < 0 {
      NegativeIsPlain(id);
    }
  }

  lemma EmojiBehaves(id: int)
    ensures Behaves(CustomEmoji(id))
  {
    ReadEmoji(id);
  }

  lemma DateBehaves(t: int, format: string)
    ensures Behaves(DateTime(t, format))
  {
    ReadDate(t, format);
    KnownFormatIff(format);
  }

  lemma AllBehave(k: Kind)
    requires !k.Unsupported?
    ensures Behaves(k)
  {
    match k {
      case Pre(language) => ReadPre(language);
      case Blockquote(expandable) => ReadQuote(expandable);
      case TextLink(url) => LinkBehaves(url);
      case TextMention(id) => MentionBehaves(id);
      case CustomEmoji(id) => EmojiBehaves(id);
      case DateTime(t, format) => DateBehaves(t, format);
      case _ => ReadPlain(k);
    }
  }

  /** Every supported kind is read back from its own tag exactly if it is readable, and its tag is never passed over. */
  lemma ReadBackIff(k: Kind)
    requires !k.Unsupported?
    ensures ReadBack(k) == Opens(k) <==> Readable(k)
    ensures ReadBack(k) != Ignored
  {
    AllBehave(k);
  }

  /** A kind that was read from a printed tag is readable, or an emoji id beyond 64 bits that came down by one turn. */
  lemma ReadIsReadable(k: Kind)
    requires !k.Unsupported? && ReadBack(k).Opens? && !ReadBack(k).kind.Unsupported? && !Readable(ReadBack(k).kind)
    ensures k.CustomEmoji? && ReadBack(k) == Opens(CustomEmoji(k.emojiId - 0x1_0000_0000_0000_0000)) && !Readable(k)
  {
    AllBehave(k);
  }

  /** The only printed tag that raises is a date whose format is not one of the handler's. */
  lemma OpensIff(k: Kind)
    requires !k.Unsupported?
    ensures ReadBack(k).Opens? <==> !(k.DateTime? && !Readable(k))
  {
    AllBehave(k);
  }

  lemma NegativeIsPlain(id: int)
    requires id < 0
    ensures Readable(TextLink("tg://user?id=" + Decimal(id)))
  {
    var url := "tg://user?id=" + Decimal(id);
    assert url[13..] == Decimal(id) && Decimal(id)[0] == '-' && url[0] == 't';
  }

  lemma DateAttrs(t: int, format: string)
    ensures Get(AttrList(DateTime(t, format)), "unix") == Some(Some(Decimal(t)))
    ensures Get(AttrList(DateTime(t, format)), "format") == if format != "" then Some(Some(format)) else None
  {
    if format != "" {
      GetTwo(Attr("unix", Some(Decimal(t))), Attr("format", Some(format)));
    } else {
      GetOne("unix", Some(Decimal(t)), "format");
    }
  }

  // ----- the names

  /** Exactly which tag names open which kinds, whatever their attributes. */
  lemma TagNames(tag: string, attrs: seq<Attr>)
    ensures Dispatch(tag, attrs) == Opens(Bold) <==> tag == "b" || tag == "strong"
    ensures Dispatch(tag, attrs) == Opens(Italic) <==> tag == "i" || tag == "em"
    ensures Dispatch(tag, attrs) == Opens(Underline) <==> tag == "u" || tag == "ins"
    ensures Dispatch(tag, attrs) == Opens(Strike) <==> tag == "s" || tag == "del" || tag == "strike"
    ensures Dispatch(tag, attrs) == Opens(Code) <==> tag == "code"
    ensures Dispatch(tag, attrs) == Opens(Spoiler) <==> tag == "spoiler" || tag == "tg-spoiler"
    ensures Dispatch(tag, attrs).Opens? && Dispatch(tag, attrs).kind.Blockquote? <==> tag == "blockquote"
    ensures Dispatch(tag, attrs).Opens? && Dispatch(tag, attrs).kind.Pre? <==> tag == "pre"
  {
  }

  /** The tags without attributes, as they are printed. */
  lemma PrintedTags()
    ensures StartTag(Bold) == "<b>" && StartTag(Italic) == "<i>" && StartTag(Underline) == "<u>"
    ensures StartTag(Strike) == "<s>" && StartTag(Code) == "<code>" && StartTag(Spoiler) == "<spoiler>"
    ensures EndTag(Bold) == "</b>" && EndTag(Italic) == "</i>" && EndTag(Underline) == "</u>"
    ensures EndTag(Strike) == "</s>" && EndTag(Code) == "</code>" && EndTag(Spoiler) == "</spoiler>"
  {
    assert PrintAttrs([]) == "";
  }

  /** The tags of quotes and code blocks without a language. */
  lemma PrintedBlocks()
    ensures StartTag(Pre("")) == "<" + "pre" + ">" && StartTag(Blockquote(false)) == "<" + "blockquote" + ">"
    ensures StartTag(Blockquote(true)) == "<" + "blockquote" + " " + "expandable" + ">"
  {
    assert PrintAttrs([]) == "";
    var a := Attr("expandable", None);
    assert [a][1..] == [];
    assert PrintAttrs([a]) == " " + a.name;
  }

  lemma PrintedPair(before: string, a: Attr, v: string, b: Attr, w: string)
    requires a.value == Some(v) && b.value == Some(w)
    ensures "<" + (before + PrintAttrs([a] + [b])) + ">"
         == "<" + before + " " + a.name + "=\"" + v + "\"" + " " + b.name + "=\"" + w + "\">"
  {
    assert ([a] + [b])[1..] == [b] && [b][1..] == [] && PrintAttrs([]) == "";
    assert PrintAttrs([b]) == " " + b.name + ("=\"" + w + "\"") + "";
    assert PrintAttrs([a] + [b]) == " " + a.name + ("=\"" + v + "\"") + PrintAttrs([b]);
  }

  /** The start tag of a date, with and without a format. */
  lemma PrintedDate(t: int, format: string)
    ensures StartTag(DateTime(t, "")) == "<" + "tg-time" + " " + "unix" + "=\"" + Decimal(t) + "\">"
    ensures format != "" ==>
      StartTag(DateTime(t, format))
      == "<" + "tg-time" + " " + "unix" + "=\"" + Decimal(t) + "\"" + " " + "format" + "=\"" + format + "\">"
  {
    PrintedAttr("tg-time", Attr("unix", Some(Decimal(t))), Decimal(t));
    PrintedPair("tg-time", Attr("unix", Some(Decimal(t))), Decimal(t), Attr("format", Some(format)), format);
  }

  lemma PrintedAttr(before: string, a: Attr, v: string)
    requires a.value == Some(v)
    ensures "<" + (before + PrintAttrs([a])) + ">" == "<" + before + " " + a.name + "=\"" + v + "\">"
  {
    assert [a][1..] == [] && PrintAttrs([]) == "";
    assert PrintAttrs([a]) == " " + a.name + ("=\"" + v + "\"") + "";
  }

  /** The tags with one attribute, as they are printed. */
  lemma PrintedAddress(url: string, id: int, language: string)
    ensures StartTag(TextLink(url)) == "<" + "a" + " " + "href" + "=\"" + url + "\">"
    ensures StartTag(TextMention(id)) == "<" + "a" + " " + "href" + "=\"" + ("tg://user?id=" + Decimal(id)) + "\">"
    ensures StartTag(CustomEmoji(id)) == "<" + "tg-emoji" + " " + "emoji-id" + "=\"" + Decimal(id) + "\">"
    ensures language != "" ==> StartTag(Pre(language)) == "<" + "pre" + " " + "language" + "=\"" + language + "\">"
  {
    PrintedAttr("a", Attr("href", Some(url)), url);
    PrintedAttr("a", Attr("href", Some("tg://user?id=" + Decimal(id))), "tg://user?id=" + Decimal(id));
    PrintedAttr("tg-emoji", Attr("emoji-id", Some(Decimal(id))), Decimal(id));
    PrintedAttr("pre", Attr("language", Some(language)), language);
  }
}
