/** Text to tokens to tree to HTML: the three parts of `lamia_real_compiler.cpp` together. */
module Pipeline {
  import opened Escaping
  import opened Lexer
  import opened ListItems
  import opened Parser
  import opened Shown
  import opened Surface
  import opened Trees
  import opened Transpiler
  import opened Unclosed

  /** What the lexer hands to the parser: valid tokens, with the end mark last and nowhere else. */
  function TokensOf(source: string): (ts: Tokens)
    ensures ts == Lexemes(source, 0)
  {
    LexemesValid(source, 0);
    Lexemes(source, 0)
  }

  lemma TextGivesTokens(source: string)
    ensures FromText(TokensOf(source))
  {
    hide Lexemes, Valid;
    LexemesValid(source, 0);
  }

  function ParseText(source: string): Parsed<seq<Node>> {
    Program(TokensOf(source), 0, [])
  }

  /** Every forest of canonical trees, the last perhaps broken off, its tokens printed with any
      blanks and comments that keep them apart, is read back from the text as exactly that forest. */
  lemma TextReadsBack(ns: seq<Node>, items: seq<Lexer.Item>, tail: seq<Gap>)
    requires Writable(ns) && ValidLayout(items, tail) && Printed(items) + [EOF] == TreeTokens(ns)
    ensures ParseText(Print(items, tail)) == Done(ns, |items|)
  {
    hide Writable, ValidLayout, Program, Lexemes, Print, TreeTokens;
    PrintThenTokenize(items, tail);
    PrintedLength(items);
    TreesReadBack(ns);
  }

  lemma {:induction false} PrintedLength(items: seq<Lexer.Item>)
    ensures |Printed(items)| == |items|
  {
    if items != [] {
      PrintedLength(items[1..]);
    }
  }

  /** The forest as a text, one blank before each token. */
  ghost function TreeText(ns: seq<Node>): string
    requires Writable(ns)
  {
    TreesReadBack(ns);
    var ts := TreeTokens(ns);
    Print(Lexer.Spaced(ts[..|ts| - 1]), [])
  }

  lemma TreeTextReadsBack(ns: seq<Node>)
    requires Writable(ns)
    ensures var r := ParseText(TreeText(ns)); r.Done? && r.value == ns
  {
    hide Writable, TreeTokens, Program, Lexemes, Print, Valid, ValidLayout, ParseText;
    TreeTokensValid(ns);
    var ts := TreeTokens(ns);
    var most := ts[..|ts| - 1];
    SpacedLayout(most);
    PrintedSpaced(Lexer.Spaced(most), most);
    assert ts == most + [EOF];
    TextReadsBack(ns, Lexer.Spaced(most), []);
  }

  /** What is parsed can be written down. */
  lemma ParsedIsWritable(source: string)
    requires ParseText(source).Done?
    ensures Writable(ParseText(source).value)
  {
    hide Canonical, BrokenOff, Program, Lexemes, FromText, Complete;
    TextGivesTokens(source);
    ProgramShaped(TokensOf(source), 0, []);
  }

  /** For every source on which the parser returns: writing the trees down and parsing that text
      gives the same trees. */
  lemma ReparseIsStable(source: string)
    requires ParseText(source).Done?
    ensures var ns := ParseText(source).value;
      Writable(ns) && var again := ParseText(TreeText(ns)); again.Done? && again.value == ns
  {
    hide Writable, ParseText, TreeText;
    ParsedIsWritable(source);
    TreeTextReadsBack(ParseText(source).value);
  }

  ghost predicate ParsesTo(source: string, ns: seq<Node>) {
    ParseText(source).Done? && ParseText(source).value == ns
  }

  /** Exactly the forests of canonical trees, the last perhaps broken off, are parsed from texts. */
  lemma ParsedIff(ns: seq<Node>)
    ensures (exists source :: ParsesTo(source, ns)) <==> Writable(ns)
  {
    hide Writable, ParseText, TreeText;
    if Writable(ns) {
      TreeTextReadsBack(ns);
      assert ParsesTo(TreeText(ns), ns);
    }
    if source :| ParsesTo(source, ns) {
      ParsedIsWritable(source);
    }
  }

  /** The compiler never returns on a text such as `manifest a -> 5`: the loop behind the arrow
      makes turn after turn on the number. */
  lemma TextThatHangs(name: string, number: string)
    requires Name(name) && Valid(Lexeme(Number, number))
    ensures
      var source := Print(Lexer.Spaced([MANIFEST, Lexeme(Identifier, name), ARROW, Lexeme(Number, number)]), []);
      ParseText(source) == Stuck(3) && Endless(TokensOf(source), Loop(3, map[]), 3)
  {
    hide Program, Lexemes, Print, Valid, ValidLayout, Endless;
    var most := [MANIFEST, Lexeme(Identifier, name), ARROW, Lexeme(Number, number)];
    MarksValid();
    SpacedLayout(most);
    PrintedSpaced(Lexer.Spaced(most), most);
    PrintThenTokenize(Lexer.Spaced(most), []);
    NumberAfterArrowHangs(name, number, []);
    assert most + [] + [EOF] == most + [EOF];
  }

  /** On every text on which the parser does not return, the loop behind some arrow has no end. */
  lemma NoReturnIsEndless(source: string)
    requires ParseText(source).Stuck?
    ensures SomeLoopEndless(TokensOf(source), 0, ParseText(source).at)
  {
    hide Program, Lexemes, SomeLoopEndless;
    StuckIsEndless(TokensOf(source));
  }

  lemma {:induction false} LastAssigned(entries: seq<Entry>, last: Entry, before: map<string, string>)
    ensures var attributes := Assigned(entries + [last], before);
      last.key in attributes && attributes[last.key] == ExprValue(last.expr)
  {
    hide ExprValue;
    if entries == [] {
      assert [last][1..] == [] && [] + [last] == [last];
    } else {
      assert (entries + [last])[1..] == entries[1..] + [last];
      LastAssigned(entries[1..], last, before[entries[0].key := ExprValue(entries[0].expr)]);
    }
  }

  /** A list widget whose last attribute is `items: [...]` shows, behind its title, one list item
      for each element of the array, in order, if the array is one that can be taken apart again. */
  lemma ArrayIsShown(entries: seq<Entry>, items: Entry, close: nat, pad: string)
    requires items.key == "items" && items.expr.List? && Carried(Values(items.expr.elements))
    ensures
      var n := StmtNode(WidgetStmt("CONSTELLATION_LIST", entries + [items], close));
      Fragment(n, pad) ==
      Boxed(pad, "constellation-list",
            Row(pad, Transpiler.Element("h3", Escaped(Get(n.attributes, "title"))))
                + ListOf(pad, Values(items.expr.elements)))
  {
    hide Assigned, ExprValue, Recovered, Values, Carried, Escaped, Boxed, Row, ListOf, Transpiler.Element;
    var n := StmtNode(WidgetStmt("CONSTELLATION_LIST", entries + [items], close));
    LastAssigned(entries, items, map["widget_type" := "CONSTELLATION_LIST"]);
    assert n.kind == ConstellationList;
    ItemsRecoveredIff(items.expr.elements, items.expr.close);
  }

  /** The compiler's steps on one source, up to the body of the page. */
  method Compile(source: string) returns (root: Node, html: string)
    requires FateOf(TokensOf(source), 0).Returns?
    ensures ParseText(source).Done? && root == Root(ParseText(source).value)
    ensures html == NodeToHtml(root, 2)
    ensures forall parts | LeavesShow(root, 2, parts) :: Shows([], html, Flat(parts))
  {
    hide Program, Lexemes, FateOf, Lexer.Tokens, NodeToHtml, LeavesShow, Shows, Flat;
    var lexer := new LamiaLexer(source);
    var tokens := lexer.Tokenize();
    var parser := new LamiaParser(AllBare(tokens));
    assert parser.tokens == TokensOf(source);
    root := parser.Parse();
    html := NodeToHtml(root, 2);
    forall parts | LeavesShow(root, 2, parts) ensures Shows([], html, Flat(parts)) {
      PageShows(root, 2, parts);
    }
  }
}
