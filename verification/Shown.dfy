/** A reader of pages: what stands between the tags, inside which elements, and which attribute values the
    tags carry; and what it reads in the HTML of every kind of widget. */
module Shown {
  import opened Escaping
  import opened ListItems
  import opened Parser
  import opened Tags
  import opened Transpiler

  // ---------- the reader ----------

  /** A quoted value with the tag before it, or a text with the elements around it, decoded. */
  datatype Item = Given(tag: string, value: string) | Shown(open: seq<string>, text: string)

  /** The tag reader and what it has read since the last tag or quote. */
  datatype Log = Log(reader: Reader, kept: string)

  predicate Blank(text: string) {
    forall k | 0 <= k < |text| :: text[k] == ' ' || text[k] == '\n'
  }

  /** Boxes and lists hold elements; the blanks between those are not shown. */
  predicate Holder(open: seq<string>) {
    open == [] || open[|open| - 1] == "div" || open[|open| - 1] == "ul"
  }

  /** What is read when a tag starts. */
  function Before(open: seq<string>, kept: string): seq<Item> {
    if Holder(open) && Blank(kept) then [] else [Shown(open, Decode(kept))]
  }

  function Note(l: Log, c: char): seq<Item> {
    match l.reader
    case Reader(InText, open) => if c == '<' then Before(open, l.kept) else []
    case Reader(InQuotes(tag), _) => if c == '\"' then [Given(tag, l.kept)] else []
    case _ => []
  }

  function Kept(l: Log, c: char): string {
    match l.reader
    case Reader(InText, _) => if c == '<' then "" else l.kept + [c]
    case Reader(InQuotes(_), _) => if c == '\"' then "" else l.kept + [c]
    case _ => ""
  }

  function Items(l: Log, s: string): seq<Item>
    decreases |s|
  {
    if s == "" then [] else Note(l, s[0]) + Items(Log(Feed(l.reader, s[0]), Kept(l, s[0])), s[1..])
  }

  function End(l: Log, s: string): Log
    decreases |s|
  {
    if s == "" then l else End(Log(Feed(l.reader, s[0]), Kept(l, s[0])), s[1..])
  }

  function InText(open: seq<string>, kept: string): Log {
    Log(Reader(Mode.InText, open), kept)
  }

  lemma {:induction false} EndReader(l: Log, s: string)
    ensures End(l, s).reader == Run(l.reader, s)
    decreases |s|
  {
    hide Feed, Kept;
    if s != "" {
      EndReader(Log(Feed(l.reader, s[0]), Kept(l, s[0])), s[1..]);
    }
  }

  lemma Associates<T>(a: seq<T>, b: seq<T>, c: seq<T>)
    ensures a + (b + c) == a + b + c
  {
  }

  lemma {:induction false} ItemsConcat(l: Log, a: string, b: string)
    ensures Items(l, a + b) == Items(l, a) + Items(End(l, a), b) && End(l, a + b) == End(End(l, a), b)
    decreases |a|
  {
    hide Feed, Kept, Note;
    if a == "" {
      assert a + b == b && [] + Items(l, b) == Items(l, b);
    } else {
      assert (a + b)[0] == a[0] && (a + b)[1..] == a[1..] + b;
      var next := Log(Feed(l.reader, a[0]), Kept(l, a[0]));
      ItemsConcat(next, a[1..], b);
      Associates(Note(l, a[0]), Items(next, a[1..]), Items(End(next, a[1..]), b));
    }
  }

  lemma {:induction false} TextItems(open: seq<string>, kept: string, s: string)
    requires '<' !in s
    ensures Items(InText(open, kept), s) == [] && End(InText(open, kept), s) == InText(open, kept + s)
    decreases |s|
  {
    if s == "" {
      assert kept + s == kept;
    } else {
      TextItems(open, kept + [s[0]], s[1..]);
      assert kept + s == kept + [s[0]] + s[1..];
    }
  }

  lemma {:induction false} TagItems(open: seq<string>, written: string, s: string)
    requires Plain(s)
    ensures Items(Log(Reader(InTag(written), open), ""), s) == []
    ensures End(Log(Reader(InTag(written), open), ""), s) == Log(Reader(InTag(written + s), open), "")
    decreases |s|
  {
    if s == "" {
      assert written + s == written;
    } else {
      TagItems(open, written + [s[0]], s[1..]);
      assert written + s == written + [s[0]] + s[1..];
    }
  }

  lemma {:induction false} QuotedItems(open: seq<string>, tag: string, kept: string, s: string)
    requires '\"' !in s
    ensures Items(Log(Reader(InQuotes(tag), open), kept), s) == []
    ensures End(Log(Reader(InQuotes(tag), open), kept), s) == Log(Reader(InQuotes(tag), open), kept + s)
    decreases |s|
  {
    if s == "" {
      assert kept + s == kept;
    } else {
      QuotedItems(open, tag, kept + [s[0]], s[1..]);
      assert kept + s == kept + [s[0]] + s[1..];
    }
  }

  lemma OneItem(l: Log, c: char)
    ensures Items(l, [c]) == Note(l, c) && End(l, [c]) == Log(Feed(l.reader, c), Kept(l, c))
  {
    hide Note, Feed, Kept;
    var next := Log(Feed(l.reader, c), Kept(l, c));
    assert [c][1..] == "" && Items(next, "") == [] && Note(l, c) + [] == Note(l, c);
  }

  // ---------- tags ----------

  /** A tag without values, from `<` to `>`. */
  lemma TagRead(open: seq<string>, kept: string, written: string)
    requires Plain(written)
    ensures var l := InText(open, kept);
      && Items(l, "<" + (written + ">")) == Before(open, kept)
      && End(l, "<" + (written + ">")) == Log(EndTag(written, open), "")
  {
    hide Items, End, Before, Plain, EndTag;
    var l := InText(open, kept);
    ItemsConcat(l, "<", written + ">");
    OneItem(l, '<');
    var t := Log(Reader(InTag(""), open), "");
    ItemsConcat(t, written, ">");
    TagItems(open, "", written);
    assert "" + written == written;
    OneItem(Log(Reader(InTag(written), open), ""), '>');
    assert Before(open, kept) + [] == Before(open, kept);
  }

  lemma OpenItems(open: seq<string>, kept: string, name: string)
    requires ElementName(name)
    ensures Items(InText(open, kept), Open(name)) == Before(open, kept)
    ensures End(InText(open, kept), Open(name)) == InText(open + [name], "")
  {
    hide Items, End, Before, NameIn;
    TagRead(open, kept, name);
    NameAlone(name, "");
  }

  lemma CloseItems(open: seq<string>, kept: string, name: string)
    requires ElementName(name)
    ensures Items(InText(open + [name], kept), Close(name)) == Before(open + [name], kept)
    ensures End(InText(open + [name], kept), Close(name)) == InText(open, "")
  {
    hide Items, End, Before, NameIn;
    assert Close(name) == "<" + (("/" + name) + ">");
    TagRead(open + [name], kept, "/" + name);
    assert ("/" + name)[1..] == name && (open + [name])[..|open|] == open;
  }

  /** A start tag up to its quoted value, read on to the end of the tag. */
  lemma OpenWithItems(open: seq<string>, kept: string, name: string, attribute: string, value: string)
    requires ElementName(name) && Plain(attribute)
    ensures var l, inside := InText(open, kept), Log(Reader(InQuotes(name + " " + attribute + "="), open), "");
      && Items(l, OpenWith(name, attribute, value)) == Before(open, kept) + Items(inside, value + "\">")
      && End(l, OpenWith(name, attribute, value)) == End(inside, value + "\">")
  {
    hide Items, End, Before;
    var written, rest := name + " " + attribute + "=", value + "\">";
    var l, t := InText(open, kept), Log(Reader(InTag(""), open), "");
    assert OpenWith(name, attribute, value) == "<" + (written + ("\"" + rest));
    ItemsConcat(l, "<", written + ("\"" + rest));
    OneItem(l, '<');
    ItemsConcat(t, written, "\"" + rest);
    TagItems(open, "", written);
    assert "" + written == written;
    var q := Log(Reader(InTag(written), open), "");
    ItemsConcat(q, "\"", rest);
    OneItem(q, '\"');
    var inside := Log(Reader(InQuotes(written), open), "");
    assert [] + Items(inside, rest) == Items(inside, rest);
  }

  /** A value without quotes is given as it is. */
  lemma ValueItems(open: seq<string>, name: string, attribute: string, value: string)
    requires ElementName(name) && Plain(attribute) && '\"' !in value
    ensures var tag := name + " " + attribute + "=";
      var inside := Log(Reader(InQuotes(tag), open), "");
      && Items(inside, value + "\">") == [Given(tag, value)]
      && End(inside, value + "\">") == InText(open + [name], "")
  {
    hide Items, End, NameIn, ElementName, Plain;
    var tag := name + " " + attribute + "=";
    var inside := Log(Reader(InQuotes(tag), open), "");
    ItemsConcat(inside, value, "\">");
    QuotedItems(open, tag, "", value);
    assert "" + value == value && "\">" == "\"" + ">";
    var after := Log(Reader(InQuotes(tag), open), value);
    ItemsConcat(after, "\"", ">");
    OneItem(after, '\"');
    var closing := Log(Reader(InTag(tag), open), "");
    OneItem(closing, '>');
    TagEnds(open, name, attribute);
  }

  lemma TagEnds(open: seq<string>, name: string, attribute: string)
    requires ElementName(name)
    ensures EndTag(name + " " + attribute + "=", open) == Reader(Mode.InText, open + [name])
  {
    hide NameIn;
    NameAlone(name, attribute + "=");
    assert name + " " + attribute + "=" == name + (" " + (attribute + "="));
  }

  // ---------- what a part of a page shows ----------

  /** Read inside `open`, between elements, the part shows these items, and ends between elements. */
  ghost predicate Shows(open: seq<string>, s: string, items: seq<Item>) {
    forall kept | Blank(kept) ::
      && Items(InText(open, kept), s) == items
      && Blank(End(InText(open, kept), s).kept)
      && End(InText(open, kept), s).reader == Reader(Mode.InText, open)
  }

  lemma ShowsOne(open: seq<string>, s: string, items: seq<Item>, kept: string)
    requires Shows(open, s, items) && Blank(kept)
    ensures var rest := End(InText(open, kept), s).kept;
      Items(InText(open, kept), s) == items && Blank(rest) && End(InText(open, kept), s) == InText(open, rest)
  {
  }

  lemma ShowsConcat(open: seq<string>, a: string, x: seq<Item>, b: string, y: seq<Item>)
    requires Shows(open, a, x) && Shows(open, b, y)
    ensures Shows(open, a + b, x + y)
  {
    hide Items, End, Blank;
    forall kept | Blank(kept)
      ensures Items(InText(open, kept), a + b) == x + y && Blank(End(InText(open, kept), a + b).kept)
          && End(InText(open, kept), a + b).reader == Reader(Mode.InText, open)
    {
      ItemsConcat(InText(open, kept), a, b);
      ShowsOne(open, a, x, kept);
      ShowsOne(open, b, y, End(InText(open, kept), a).kept);
    }
  }

  /** Blanks show nothing. */
  lemma ShowsBlank(open: seq<string>, s: string)
    requires Blank(s)
    ensures Shows(open, s, [])
  {
    hide Items, End;
    forall kept | Blank(kept)
      ensures Items(InText(open, kept), s) == [] && Blank(End(InText(open, kept), s).kept)
          && End(InText(open, kept), s).reader == Reader(Mode.InText, open)
    {
      TextItems(open, kept, s);
    }
  }

  lemma ShowsBehind(open: seq<string>, a: string, b: string, items: seq<Item>)
    requires Blank(a) && Shows(open, b, items)
    ensures Shows(open, a + b, items)
  {
    hide Shows;
    ShowsBlank(open, a);
    ShowsConcat(open, a, [], b, items);
    assert [] + items == items;
  }

  lemma ShowsAhead(open: seq<string>, a: string, b: string, items: seq<Item>)
    requires Shows(open, a, items) && Blank(b)
    ensures Shows(open, a + b, items)
  {
    hide Shows;
    ShowsBlank(open, b);
    ShowsConcat(open, a, items, b, []);
    assert items + [] == items;
  }

  /** What an escaped text is read as: quotes stay entities. */
  function AsRead(text: string): string {
    Substitute(text, '\"', "&quot;")
  }

  /** Texts without quotes are read as they are. */
  lemma QuoteFreeAsRead(text: string)
    ensures AsRead(text) == text <==> '\"' !in text
  {
    EscapeDecodesToQuoted(text);
    EscapeDecodesIffQuoteFree(text);
  }

  /** An element that is no box shows its text. */
  lemma ShowsElement(open: seq<string>, name: string, inner: string)
    requires Holder(open) && ElementName(name) && name != "div" && name != "ul" && '<' !in inner
    ensures Shows(open, Element(name, inner), [Shown(open + [name], Decode(inner))])
  {
    hide Items, End, ElementName, Open, Close, Decode;
    var all := Element(name, inner);
    forall kept | Blank(kept)
      ensures Items(InText(open, kept), all) == [Shown(open + [name], Decode(inner))]
          && End(InText(open, kept), all) == InText(open, "")
    {
      ItemsConcat(InText(open, kept), Open(name), inner + Close(name));
      OpenItems(open, kept, name);
      ItemsConcat(InText(open + [name], ""), inner, Close(name));
      TextItems(open + [name], "", inner);
      assert "" + inner == inner;
      CloseItems(open, inner, name);
    }
  }

  lemma ShowsEscaped(open: seq<string>, name: string, text: string)
    requires Holder(open) && ElementName(name) && name != "div" && name != "ul"
    ensures Shows(open, Element(name, Escaped(text)), [Shown(open + [name], AsRead(text))])
  {
    hide Shows, ElementName, Element, Escaped, Substitute, Decode;
    EscapedIsInert(text);
    EscapeDecodesToQuoted(text);
    ShowsElement(open, name, Escaped(text));
  }

  /** A box around a part that shows something shows its value and that. */
  lemma ShowsBox(pad: string, class_: string, inner: string, items: seq<Item>)
    requires Blank(pad) && '\"' !in class_ && Shows(["div"], inner, items)
    ensures Shows([], Boxed(pad, class_, inner), [Given("div class=", class_)] + items)
  {
    hide Items, End, Shows, ElementName, Tags.Plain, OpenWith, Close;
    NamesGood();
    BlankConcat("\n", inner, pad);
    var body := "\n" + (inner + pad);
    ShowsAhead(["div"], inner, pad, items);
    ShowsBehind(["div"], "\n", inner + pad, items);
    BoxShows(class_, body, items);
    var box := OpenWith("div", "class", class_) + (body + Close("div"));
    ShowsAhead([], box, "\n", [Given("div class=", class_)] + items);
    ShowsBehind([], pad, box + "\n", [Given("div class=", class_)] + items);
  }

  lemma BlankConcat(a: string, b: string, c: string)
    ensures Blank("\n") && Blank("  ") && Blank("    ")
    ensures Blank(a) && Blank(c) ==> Blank(a + c)
  {
  }

  lemma BoxShows(class_: string, body: string, items: seq<Item>)
    requires '\"' !in class_ && Shows(["div"], body, items)
    ensures Shows([], OpenWith("div", "class", class_) + (body + Close("div")), [Given("div class=", class_)] + items)
  {
    hide Items, End, ElementName, Tags.Plain, OpenWith, Close;
    NamesGood();
    var box := OpenWith("div", "class", class_) + (body + Close("div"));
    assert [] + ["div"] == ["div"] && "div" + " " + "class" + "=" == "div class=";
    forall kept | Blank(kept)
      ensures Items(InText([], kept), box) == [Given("div class=", class_)] + items
          && End(InText([], kept), box) == InText([], "")
    {
      ItemsConcat(InText([], kept), OpenWith("div", "class", class_), body + Close("div"));
      OpenWithItems([], kept, "div", "class", class_);
      ValueItems([], "div", "class", class_);
      ItemsConcat(InText(["div"], ""), body, Close("div"));
      ShowsOne(["div"], body, items, "");
      CloseItems([], End(InText(["div"], ""), body).kept, "div");
      assert items + [] == items && [] + [Given("div class=", class_)] == [Given("div class=", class_)];
    }
  }

  /** One row of a box. */
  lemma ShowsRow(pad: string, element: string, items: seq<Item>)
    requires Blank(pad) && Shows(["div"], element, items)
    ensures Shows(["div"], Row(pad, element), items)
  {
    hide Shows;
    BlankConcat(pad, "", "  ");
    ShowsAhead(["div"], element, "\n", items);
    ShowsBehind(["div"], pad + "  ", element + "\n", items);
  }

  lemma ShowsTextRow(pad: string, name: string, text: string)
    requires Blank(pad) && ElementName(name) && name != "div" && name != "ul"
    ensures Shows(["div"], Row(pad, Element(name, Escaped(text))), [Shown(["div", name], AsRead(text))])
  {
    hide Shows, ElementName, Element, Escaped, Row, AsRead;
    ShowsEscaped(["div"], name, text);
    assert ["div"] + [name] == ["div", name];
    ShowsRow(pad, Element(name, Escaped(text)), [Shown(["div", name], AsRead(text))]);
  }

  // ---------- the kinds of widgets ----------

  /** The attribute's text; a missing one is empty. */
  ghost predicate Says(n: Node, key: string, text: string) {
    if key in n.attributes then n.attributes[key] == text else text == ""
  }

  lemma Two<T>(a: T, b: T)
    ensures [a] + [b] == [a, b]
  {
  }

  lemma Three<T>(a: T, b: T, c: T)
    ensures [a] + ([b] + [c]) == [a, b, c]
  {
  }

  lemma HeadingShows(n: Node, pad: string, content: string)
    requires n.kind == RadiantHeading && Blank(pad) && Says(n, "content", content)
    ensures Shows([], Fragment(n, pad), [Given("div class=", "radiant-heading"), Shown(["div", "h1"], AsRead(content))])
  {
    hide Shows, ElementName, Element, Escaped, Row, AsRead, Boxed;
    NamesGood();
    ShowsTextRow(pad, "h1", content);
    Two(Given("div class=", "radiant-heading"), Shown(["div", "h1"], AsRead(content)));
    ShowsBox(pad, "radiant-heading", Row(pad, Element("h1", Escaped(content))),
             [Shown(["div", "h1"], AsRead(content))]);
  }

  lemma TextShows(n: Node, pad: string, content: string)
    requires n.kind == RadiantText && Blank(pad) && Says(n, "content", content)
    ensures Shows([], Fragment(n, pad), [Given("div class=", "radiant-text"), Shown(["div", "p"], AsRead(content))])
  {
    hide Shows, ElementName, Element, Escaped, Row, AsRead, Boxed;
    NamesGood();
    ShowsTextRow(pad, "p", content);
    Two(Given("div class=", "radiant-text"), Shown(["div", "p"], AsRead(content)));
    ShowsBox(pad, "radiant-text", Row(pad, Element("p", Escaped(content))), [Shown(["div", "p"], AsRead(content))]);
  }

  /** A quote names whom it is by, if it says so. */
  lemma QuoteShows(n: Node, pad: string, content: string, attribution: string)
    requires n.kind == RadiantQuote && Blank(pad)
    requires Says(n, "content", content) && Says(n, "attribution", attribution)
    ensures Shows([], Fragment(n, pad),
                  [Given("div class=", "radiant-quote"), Shown(["div", "blockquote"], AsRead(content))]
                  + if attribution == "" then [] else [Shown(["div", "cite"], AsRead(attribution))])
  {
    hide Shows, ElementName, Element, Escaped, Row, AsRead, Boxed;
    NamesGood();
    ShowsTextRow(pad, "blockquote", content);
    ShowsTextRow(pad, "cite", attribution);
    var quote := Row(pad, Element("blockquote", Escaped(content)));
    var cite := Row(pad, Element("cite", Escaped(attribution)));
    var said, credit := [Shown(["div", "blockquote"], AsRead(content))], [Shown(["div", "cite"], AsRead(attribution))];
    Two(Given("div class=", "radiant-quote"), Shown(["div", "blockquote"], AsRead(content)));
    if attribution == "" {
      assert quote + "" == quote;
      ShowsBox(pad, "radiant-quote", quote, said);
      assert [Given("div class=", "radiant-quote")] + said + [] == [Given("div class=", "radiant-quote")] + said;
    } else {
      ShowsConcat(["div"], quote, said, cite, credit);
      ShowsBox(pad, "radiant-quote", quote + cite, said + credit);
      Associates([Given("div class=", "radiant-quote")], said, credit);
    }
  }

  lemma GcodeShows(n: Node, pad: string, commands: string)
    requires n.kind == GcodeBlock && Blank(pad) && Says(n, "commands", commands)
    ensures Shows([], Fragment(n, pad),
                  [Given("div class=", "gcode-block"), Shown(["div", "h4"], "G-Code Block"),
                   Shown(["div", "pre"], AsRead(commands))])
  {
    hide Shows, ElementName, Element, Escaped, Row, AsRead, Boxed;
    NamesGood();
    PlainTitle();
    ShowsElement(["div"], "h4", "G-Code Block");
    Two("div", "h4");
    var first, second := [Shown(["div", "h4"], "G-Code Block")], [Shown(["div", "pre"], AsRead(commands))];
    ShowsRow(pad, Element("h4", "G-Code Block"), first);
    ShowsTextRow(pad, "pre", commands);
    var title, body := Row(pad, Element("h4", "G-Code Block")), Row(pad, Element("pre", Escaped(commands)));
    ShowsConcat(["div"], title, first, body, second);
    ShowsBox(pad, "gcode-block", title + body, first + second);
    Three(Given("div class=", "gcode-block"), first[0], second[0]);
  }

  lemma PlainTitle()
    ensures Decode("G-Code Block") == "G-Code Block"
  {
    hide Decode;
    DecodePlain("G-Code Block", "");
    NothingDecodes();
    assert "G-Code Block" + "" == "G-Code Block";
  }

  lemma NothingDecodes()
    ensures Decode("") == ""
  {
  }

  // ---------- lists ----------

  function ItemsShown(items: seq<string>): (r: seq<Item>)
    ensures |r| == |items| && forall k | 0 <= k < |r| :: r[k] == Shown(["div", "ul", "li"], AsRead(items[k]))
  {
    seq(|items|, k requires 0 <= k < |items| => Shown(["div", "ul", "li"], AsRead(items[k])))
  }

  lemma {:induction false} ShowsItems(pad: string, items: seq<string>)
    requires Blank(pad)
    ensures Shows(["div", "ul"], ItemRows(pad, items), ItemsShown(items))
  {
    hide Shows, ElementName, Element, Escaped, AsRead;
    BlankConcat(pad, "", "    ");
    if items == [] {
      ShowsBlank(["div", "ul"], "");
    } else {
      NamesGood();
      ShowsEscaped(["div", "ul"], "li", items[0]);
      assert ["div", "ul"] + ["li"] == ["div", "ul", "li"];
      var element, shown := Element("li", Escaped(items[0])), [Shown(["div", "ul", "li"], AsRead(items[0]))];
      ShowsAhead(["div", "ul"], element, "\n", shown);
      ShowsBehind(["div", "ul"], pad + "    ", element + "\n", shown);
      ShowsItems(pad, items[1..]);
      var rest := ItemsShown(items[1..]);
      ShowsConcat(["div", "ul"], (pad + "    ") + (element + "\n"), shown, ItemRows(pad, items[1..]), rest);
      assert ItemsShown(items) == shown + ItemsShown(items[1..]);
    }
  }

  lemma ListItemsShow(inner: string, items: seq<Item>)
    requires Shows(["div", "ul"], inner, items)
    ensures Shows(["div"], Open("ul") + (inner + Close("ul")), items)
  {
    hide Items, End, ElementName, Open, Close;
    NamesGood();
    var all := Open("ul") + (inner + Close("ul"));
    assert ["div"] + ["ul"] == ["div", "ul"];
    forall kept | Blank(kept)
      ensures Items(InText(["div"], kept), all) == items && End(InText(["div"], kept), all) == InText(["div"], "")
    {
      ItemsConcat(InText(["div"], kept), Open("ul"), inner + Close("ul"));
      OpenItems(["div"], kept, "ul");
      ItemsConcat(InText(["div", "ul"], ""), inner, Close("ul"));
      ShowsOne(["div", "ul"], inner, items, "");
      CloseItems(["div"], End(InText(["div", "ul"], ""), inner).kept, "ul");
      assert items + [] == items && [] + items == items;
    }
  }

  /** A list shows its title, then the pieces of its items attribute, in order. */
  lemma ListShows(n: Node, pad: string, title: string, items: string)
    requires n.kind == ConstellationList && Blank(pad) && Says(n, "title", title) && Says(n, "items", items)
    ensures Shows([], Fragment(n, pad),
                  [Given("div class=", "constellation-list"), Shown(["div", "h3"], AsRead(title))]
                  + ItemsShown(Recovered(items)))
  {
    hide Shows, ElementName, Element, Escaped, Row, AsRead, Boxed, Recovered, ItemRows, ItemsShown, Open, Close;
    NamesGood();
    BlankConcat(pad, "", "  ");
    ShowsTextRow(pad, "h3", title);
    var found := Recovered(items);
    var shown := ItemsShown(found);
    ShowsItems(pad, found);
    ShowsAhead(["div", "ul"], ItemRows(pad, found), pad + "  ", shown);
    ShowsBehind(["div", "ul"], "\n", ItemRows(pad, found) + (pad + "  "), shown);
    ListItemsShow("\n" + (ItemRows(pad, found) + (pad + "  ")), shown);
    ShowsRow(pad, Open("ul") + (("\n" + (ItemRows(pad, found) + (pad + "  "))) + Close("ul")), shown);
    var head, first := Row(pad, Element("h3", Escaped(title))), [Shown(["div", "h3"], AsRead(title))];
    ShowsConcat(["div"], head, first, ListOf(pad, found), shown);
    Two(Given("div class=", "constellation-list"), Shown(["div", "h3"], AsRead(title)));
    ShowsBox(pad, "constellation-list", head + ListOf(pad, found), first + shown);
    Associates([Given("div class=", "constellation-list")], first, shown);
  }

  // ---------- buttons ----------

  lemma ShowsButton(action: string, content: string)
    requires Nests(action, ["div"])
    ensures var l, tag := Log(Reader(InQuotes("button onclick="), ["div"]), ""), action + "\">";
      Shows(["div"], Button(action, content),
            Items(l, tag) + [Shown(["div", "button"], Decode(End(l, tag).kept + Escaped(content)))])
  {
    hide Items, End, ElementName, Tags.Plain, OpenWith, Close, Escaped, Decode, Run;
    NamesGood();
    EscapedIsInert(content);
    var l, tag := Log(Reader(InQuotes("button onclick="), ["div"]), ""), action + "\">";
    assert ["div"] + ["button"] == ["div", "button"] && "button" + " " + "onclick" + "=" == "button onclick=";
    EndReader(l, tag);
    var left, text := End(l, tag).kept, Escaped(content);
    var shown := Shown(["div", "button"], Decode(left + text));
    forall kept | Blank(kept)
      ensures Items(InText(["div"], kept), Button(action, content)) == Items(l, tag) + [shown]
          && End(InText(["div"], kept), Button(action, content)) == InText(["div"], "")
    {
      ItemsConcat(InText(["div"], kept), OpenWith("button", "onclick", action), text + Close("button"));
      OpenWithItems(["div"], kept, "button", "onclick", action);
      ItemsConcat(InText(["div", "button"], left), text, Close("button"));
      TextItems(["div", "button"], left, text);
      CloseItems(["div"], left + text, "button");
      assert [] + Items(l, tag) == Items(l, tag);
      assert [] + [shown] == [shown];
    }
  }

  /** A button whose action nests shows what its action gives, then its content behind what the action left. */
  lemma ButtonShows(n: Node, pad: string, action: string, content: string)
    requires n.kind == RadiantButton && Blank(pad) && Says(n, "action", action) && Says(n, "content", content)
    requires Nests(action, ["div"])
    ensures var l, tag := Log(Reader(InQuotes("button onclick="), ["div"]), ""), action + "\">";
      Shows([], Fragment(n, pad),
            [Given("div class=", "radiant-button")]
            + (Items(l, tag) + [Shown(["div", "button"], Decode(End(l, tag).kept + Escaped(content)))]))
  {
    hide Shows, Items, End, Button, Escaped, Row, Boxed, Decode, Nests;
    var l, tag := Log(Reader(InQuotes("button onclick="), ["div"]), ""), action + "\">";
    var items := Items(l, tag) + [Shown(["div", "button"], Decode(End(l, tag).kept + Escaped(content)))];
    ShowsButton(action, content);
    ShowsRow(pad, Button(action, content), items);
    ShowsBox(pad, "radiant-button", Row(pad, Button(action, content)), items);
  }

  /** With an action without quotes: the action as it is, then the content. */
  lemma PlainButtonShows(n: Node, pad: string, action: string, content: string)
    requires n.kind == RadiantButton && Blank(pad) && Says(n, "action", action) && Says(n, "content", content)
    requires '\"' !in action
    ensures Shows([], Fragment(n, pad),
                  [Given("div class=", "radiant-button"), Given("button onclick=", action),
                   Shown(["div", "button"], AsRead(content))])
  {
    hide Shows, Items, End, Fragment, Nests, Escaped, Decode, Substitute, ElementName, Tags.Plain;
    NamesGood();
    QuoteFreeNests(action, ["div"]);
    ButtonShows(n, pad, action, content);
    ValueItems(["div"], "button", "onclick", action);
    assert "button" + " " + "onclick" + "=" == "button onclick=";
    assert "" + Escaped(content) == Escaped(content);
    EscapeDecodesToQuoted(content);
    Three(Given("div class=", "radiant-button"), Given("button onclick=", action),
          Shown(["div", "button"], AsRead(content)));
  }

  // ---------- whole pages ----------

  /** Nothing else is shown. */
  lemma OthersShowNothing(n: Node, pad: string)
    requires n.kind in {CreateNode, BambuPrinter, SocialEmbed, Emotion3D, ReturnLight, Neural}
    ensures Shows([], Fragment(n, pad), [])
  {
    hide Shows, Escaped;
    ShowsBlank([], "");
  }

  ghost function Flat(parts: seq<seq<Item>>): seq<Item> {
    if parts == [] then [] else parts[0] + Flat(parts[1..])
  }

  lemma {:induction false} ShowsInOrder(ns: seq<Node>, pad: string, parts: seq<seq<Item>>)
    requires |ns| == |parts| && forall k | 0 <= k < |ns| :: Shows([], Fragment(ns[k], pad), parts[k])
    ensures Shows([], Fragments(ns, pad), Flat(parts))
  {
    hide Shows, Fragment;
    if ns == [] {
      ShowsBlank([], "");
    } else {
      ShowsInOrder(ns[1..], pad, parts[1..]);
      ShowsConcat([], Fragment(ns[0], pad), parts[0], Fragments(ns[1..], pad), Flat(parts[1..]));
    }
  }

  ghost predicate LeavesShow(n: Node, indent: nat, parts: seq<seq<Item>>) {
    && |Leaves(n)| == |parts|
    && forall k | 0 <= k < |parts| :: Shows([], Fragment(Leaves(n)[k], Pad(indent)), parts[k])
  }

  /** A page shows what its leaves show, one after the other. */
  lemma PageShows(n: Node, indent: nat, parts: seq<seq<Item>>)
    requires LeavesShow(n, indent, parts)
    ensures Shows([], NodeToHtml(n, indent), Flat(parts))
  {
    hide Shows, Fragment, Leaves, NodeToHtml, Pad;
    HtmlOfLeaves(n, indent);
    ShowsInOrder(Leaves(n), Pad(indent), parts);
  }
}
