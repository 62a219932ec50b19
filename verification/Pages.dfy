/** From the source text of a widget to what its page shows. */
module Pages {
  import opened Escaping
  import opened Forms
  import opened Lexer
  import opened ListItems
  import opened Parser
  import opened Pipeline
  import opened Shown
  import opened Surface
  import opened Transpiler
  import opened Trees

  /** The tokens with one blank before each. */
  function Spelled(lexemes: seq<Lexeme>): string {
    if lexemes == [] then "" else " " + (Spell(lexemes[0]) + Spelled(lexemes[1..]))
  }

  lemma {:induction false} SpelledIsPrinted(lexemes: seq<Lexeme>)
    ensures Print(Lexer.Spaced(lexemes), []) == Spelled(lexemes)
  {
    hide Spell;
    if lexemes != [] {
      SpelledIsPrinted(lexemes[1..]);
      assert Lexer.Spaced(lexemes)[1..] == Lexer.Spaced(lexemes[1..]);
      var gap := [Blank(' ')];
      assert gap[1..] == [] && GapTexts(gap) == GapText(gap[0]) + GapTexts([]);
    }
  }

  /** So spelled, the tokens are read back. */
  lemma SpelledTokens(lexemes: seq<Lexeme>)
    requires AllValid(lexemes)
    ensures Lexemes(Spelled(lexemes), 0) == lexemes + [EOF]
  {
    hide Valid, Lexemes, Spelled, Print, ValidLayout;
    SpelledIsPrinted(lexemes);
    SpacedLayout(lexemes);
    PrintedSpaced(Lexer.Spaced(lexemes), lexemes);
    PrintThenTokenize(Lexer.Spaced(lexemes), []);
  }

  /** The text of a widget with one attribute. */
  function WidgetText(widget: string, key: string, v: string): string {
    " create " + (widget + (" { " + (key + ValueText(v))))
  }

  function ValueText(v: string): string {
    " : \"" + (Escape(v) + "\" }")
  }

  function WidgetTokens(widget: string, key: string, v: string): seq<Lexeme> {
    [Lexeme(Create, "create"), Ident(widget), Lexeme(LBrace, "{"), Ident(key), Lexeme(Colon, ":"), Str(v),
     Lexeme(RBrace, "}")]
  }

  lemma SpelledFirst(l: Lexeme, rest: seq<Lexeme>)
    ensures Spelled([l] + rest) == " " + (Spell(l) + Spelled(rest))
  {
    assert ([l] + rest)[1..] == rest;
  }

  lemma WidgetSpelled(widget: string, key: string, v: string)
    ensures Spelled(WidgetTokens(widget, key, v)) == WidgetText(widget, key, v)
  {
    hide Spelled, Spell, ValueText;
    var tail := [Lexeme(Colon, ":"), Str(v), Lexeme(RBrace, "}")];
    var create, open, name, field := Lexeme(Create, "create"), Lexeme(LBrace, "{"), Ident(widget), Ident(key);
    ValueSpelled(v);
    SpelledFirst(field, tail);
    SpelledFirst(open, [field] + tail);
    SpelledFirst(name, [open] + ([field] + tail));
    SpelledFirst(create, [name] + ([open] + ([field] + tail)));
    assert WidgetTokens(widget, key, v) == [create] + ([name] + ([open] + ([field] + tail)));
    SpelledAsIs(widget, key);
    var value := ValueText(v);
    assert " " + ("create" + (" " + (widget + (" " + ("{" + (" " + (key + value))))))) ==
        " create " + (widget + (" { " + (key + value)));
  }

  lemma SpelledAsIs(widget: string, key: string)
    ensures Spell(Lexeme(Create, "create")) == "create" && Spell(Lexeme(LBrace, "{")) == "{"
    ensures Spell(Ident(widget)) == widget && Spell(Ident(key)) == key
    ensures Spell(Lexeme(Colon, ":")) == ":" && Spell(Lexeme(RBrace, "}")) == "}"
  {
  }

  lemma ValueSpelled(v: string)
    ensures Spelled([Lexeme(Colon, ":"), Str(v), Lexeme(RBrace, "}")]) == ValueText(v)
  {
    hide Spelled, Escape;
    var colon, text, close, e := Lexeme(Colon, ":"), Str(v), Lexeme(RBrace, "}"), Escape(v);
    NothingSpelled();
    SpelledFirst(close, []);
    SpelledFirst(text, [close]);
    SpelledFirst(colon, [text, close]);
    assert [close] + [] == [close] && [text] + [close] == [text, close];
    assert [colon] + [text, close] == [colon, text, close];
    SpelledAsIs("", "");
    assert Spelled([close]) == " }";
    assert Spell(text) == "\"" + (e + "\"");
    assert " " + (":" + (" " + (("\"" + (e + "\"")) + " }"))) == " : \"" + (e + "\" }");
  }

  lemma NothingSpelled()
    ensures Spelled([]) == ""
  {
  }

  /** That text is parsed to that widget. */
  lemma WidgetParsed(widget: string, key: string, v: string)
    requires Name(widget) && Name(key)
    ensures var r := ParseText(WidgetText(widget, key, v));
      r.Done? && r.value == [Node(WidgetKind(widget), "", map["widget_type" := widget][key := v], [])]
  {
    hide Spelled, WidgetText, Lexemes, Program, WidgetKind;
    var ls := WidgetTokens(widget, key, v);
    MarksValid();
    WidgetSpelled(widget, key, v);
    SpelledTokens(ls);
    NotEmpty(widget);
    PlainValueForms(widget, key, v);
    assert ls == [Lexeme(Create, "create"), Ident(widget), Lexeme(LBrace, "{"), Ident(key), Lexeme(Colon, ":")]
        + [Str(v)] + [Lexeme(RBrace, "}")];
  }

  lemma NotEmpty(name: string)
    requires Name(name)
    ensures name != ""
  {
  }

  /** A text without quotes, backslashes, tabs and line ends is written as it is. */
  lemma {:induction false} PlainEscape(v: string)
    requires forall k | 0 <= k < |v| :: v[k] !in {'\"', '\\', '\n', '\t', '\r'}
    ensures Escape(v) == v
  {
    if v != "" {
      PlainEscape(v[1..]);
      assert v == [v[0]] + v[1..];
    }
  }

  lemma KeysValid()
    ensures Name("content") && Name("commands")
  {
  }

  /** A single widget fills the page. */
  lemma OneWidget(n: Node, items: seq<Shown.Item>)
    requires n.kind != ManifestNode && n.kind != Startup && Shows([], Fragment(n, Pad(2)), items)
    ensures Shows([], NodeToHtml(Root([n]), 2), items)
  {
    hide Shows, Fragment, Pad;
    HoldersAddNothing(ManifestNode, "program", map[], [n], [], 2);
  }

  /** What the page of a text, a heading, a quote or a block of commands shows: the value written in the source,
      in the element for it. */
  lemma WidgetPages(v: string)
    ensures ShowsPage(WidgetText("RADIANT_TEXT", "content", v),
                      [Given("div class=", "radiant-text"), Shown(["div", "p"], AsRead(v))])
    ensures ShowsPage(WidgetText("RADIANT_HEADING", "content", v),
                      [Given("div class=", "radiant-heading"), Shown(["div", "h1"], AsRead(v))])
    ensures ShowsPage(WidgetText("RADIANT_QUOTE", "content", v),
                      [Given("div class=", "radiant-quote"), Shown(["div", "blockquote"], AsRead(v))])
    ensures ShowsPage(WidgetText("GCODE_BLOCK", "commands", v),
                      [Given("div class=", "gcode-block"), Shown(["div", "h4"], "G-Code Block"),
                       Shown(["div", "pre"], AsRead(v))])
  {
    hide Shows, Fragment, Pad, Name, AsRead, ParseText, WidgetText, NodeToHtml, WidgetKind;
    KeysValid();
    RadiantNamesValid();
    LongNamesValid();
    WidgetKinds("");
    PadIsBlank();
    forall widget, key | Name(widget) && Name(key)
      ensures var r := ParseText(WidgetText(widget, key, v));
        r.Done? && r.value == [Node(WidgetKind(widget), "", map["widget_type" := widget][key := v], [])]
    {
      WidgetParsed(widget, key, v);
    }
    var text := Node(RadiantText, "", map["widget_type" := "RADIANT_TEXT"]["content" := v], []);
    TextShows(text, Pad(2), v);
    OneWidget(text, [Given("div class=", "radiant-text"), Shown(["div", "p"], AsRead(v))]);
    var heading := Node(RadiantHeading, "", map["widget_type" := "RADIANT_HEADING"]["content" := v], []);
    HeadingShows(heading, Pad(2), v);
    OneWidget(heading, [Given("div class=", "radiant-heading"), Shown(["div", "h1"], AsRead(v))]);
    var quote := Node(RadiantQuote, "", map["widget_type" := "RADIANT_QUOTE"]["content" := v], []);
    QuoteShows(quote, Pad(2), v, "");
    var said := [Given("div class=", "radiant-quote"), Shown(["div", "blockquote"], AsRead(v))];
    assert said + [] == said;
    OneWidget(quote, said);
    var block := Node(GcodeBlock, "", map["widget_type" := "GCODE_BLOCK"]["commands" := v], []);
    GcodeShows(block, Pad(2), v);
    OneWidget(block, [Given("div class=", "gcode-block"), Shown(["div", "h4"], "G-Code Block"),
                      Shown(["div", "pre"], AsRead(v))]);
  }

  /** A list widget whose items are an array that can be taken apart again shows the title and then the array's
      values, each in a list item, in order. */
  lemma ArrayPage(entries: seq<Entry>, items: Entry, close: nat, pad: string, title: string)
    requires items.key == "items" && items.expr.List? && Carried(Values(items.expr.elements)) && Shown.Blank(pad)
    requires Says(StmtNode(WidgetStmt("CONSTELLATION_LIST", entries + [items], close)), "title", title)
    ensures Shows([], Fragment(StmtNode(WidgetStmt("CONSTELLATION_LIST", entries + [items], close)), pad),
                  [Given("div class=", "constellation-list"), Shown(["div", "h3"], AsRead(title))]
                  + ItemsShown(Values(items.expr.elements)))
  {
    hide Assigned, ExprValue, Recovered, Values, Carried, Shows, Fragment, AsRead, ItemsShown;
    var n := StmtNode(WidgetStmt("CONSTELLATION_LIST", entries + [items], close));
    LastAssigned(entries, items, map["widget_type" := "CONSTELLATION_LIST"]);
    ItemsRecoveredIff(items.expr.elements, items.expr.close);
    assert items.expr == List(items.expr.elements, items.expr.close);
    ListShows(n, pad, title, n.attributes["items"]);
  }

  lemma PadIsBlank()
    ensures Shown.Blank(Pad(2))
  {
  }

  /** The body of the page of this source shows these items. */
  ghost predicate ShowsPage(source: string, items: seq<Shown.Item>) {
    ParseText(source).Done? && Shows([], NodeToHtml(Root(ParseText(source).value), 2), items)
  }
}
