/** The forms of the language, one by one, in its own keywords, marks and attribute names: what each becomes,
    and what becomes of the broken ones. */
module Forms {
  import opened Lexer
  import opened Parser
  import opened Surface

  function Ident(name: string): Lexeme { Lexeme(Identifier, name) }

  function Str(value: string): Lexeme { Lexeme(String, value) }

  /** The tokens, and the end mark behind them, are parsed to these trees. */
  ghost predicate Means(ts: seq<Lexeme>, ns: seq<Node>) {
    var r := Program(ts + [Lexeme(EndOfFile, "")], 0, []);
    r.Done? && r.value == ns
  }

  /** Exactly eight names stand for kinds that have one; every other name makes a plain widget, but for one
      that no text can spell. */
  lemma {:induction false} WidgetKinds(name: string)
    ensures WidgetKind("RADIANT_HEADING") == RadiantHeading && WidgetKind("RADIANT_TEXT") == RadiantText
    ensures WidgetKind("RADIANT_BUTTON") == RadiantButton && WidgetKind("CONSTELLATION_LIST") == ConstellationList
    ensures WidgetKind("RADIANT_QUOTE") == RadiantQuote && WidgetKind("GCODE_BLOCK") == GcodeBlock
    ensures WidgetKind("BAMBU_PRINTER") == BambuPrinter && WidgetKind("SOCIAL_EMBED") == SocialEmbed
    ensures
      var named := {"RADIANT_HEADING", "RADIANT_TEXT", "RADIANT_BUTTON", "CONSTELLATION_LIST", "RADIANT_QUOTE",
                    "GCODE_BLOCK", "BAMBU_PRINTER", "SOCIAL_EMBED", "3D_EMOTION"};
      name !in named ==> WidgetKind(name) == CreateNode
  {
    assert "RADIANT_QUOTE"[0] != "BAMBU_PRINTER"[0];
    assert "RADIANT_TEXT"[0] != "SOCIAL_EMBED"[0];
  }

  lemma {:induction false} OneClause(stmt: Stmt)
    requires GoodStmt(stmt)
    ensures Means(StmtTokens(stmt), [StmtNode(stmt)])
  {
    hide StmtTokens, StmtNode, GoodStmt, Program, FateOf;
    var clauses := [Clause(stmt, [])];
    assert clauses[1..] == [] && ClauseNodes([]) == [] && ClausesTokens([]) == [];
    assert ClauseNodes(clauses) == [StmtNode(stmt)];
    assert ClausesTokens(clauses) == StmtTokens(stmt);
    assert ProgramTokens([], clauses) == StmtTokens(stmt) + [EOF];
    ProgramReads([], clauses);
  }

  /** `create W { K: V }` is a widget with its type and that attribute. */
  lemma {:induction false} WidgetForm(widget: string, key: string, e: Expr)
    requires widget != ""
    ensures Means([Lexeme(Create, "create"), Ident(widget), Lexeme(LBrace, "{"), Ident(key), Lexeme(Colon, ":")]
                  + ExprTokens(e) + [Lexeme(RBrace, "}")],
                  [Node(WidgetKind(widget), "", map["widget_type" := widget][key := ExprValue(e)], [])])
  {
    hide ExprTokens, ExprValue, WidgetKind, Means;
    var entries := [Entry(0, key, e, false)];
    var stmt := WidgetStmt(widget, entries, 0);
    OneClause(stmt);
    assert entries[1..] == [] && Lines(0) == [];
    assert EntriesTail([], 0) == [CLOSE];
    assert EntriesTail(entries, 0) == [Ident(key)] + ([COLON] + (ExprTokens(e) + [CLOSE]));
    assert Assigned(entries[1..], map["widget_type" := widget][key := ExprValue(e)]) ==
        map["widget_type" := widget][key := ExprValue(e)];
    assert StmtTokens(stmt) == [CREATE, Ident(widget), OPEN, Ident(key), COLON] + ExprTokens(e) + [CLOSE];
  }

  /** A string, a number or a name is its own text. */
  lemma {:induction false} PlainValueForms(widget: string, key: string, v: string)
    requires widget != ""
    ensures
      var before := [Lexeme(Create, "create"), Ident(widget), Lexeme(LBrace, "{"), Ident(key), Lexeme(Colon, ":")];
      var tree := Node(WidgetKind(widget), "", map["widget_type" := widget][key := v], []);
      && Means(before + [Str(v)] + [Lexeme(RBrace, "}")], [tree])
      && Means(before + [Lexeme(Number, v)] + [Lexeme(RBrace, "}")], [tree])
      && Means(before + [Ident(v)] + [Lexeme(RBrace, "}")], [tree])
  {
    hide Means, WidgetKind;
    WidgetForm(widget, key, Quoted(v));
    WidgetForm(widget, key, Numeral(v));
    WidgetForm(widget, key, Expr.Word(v));
  }

  /** `[A, B]`, with or without its comma, is its own text with a comma and a blank. */
  lemma {:induction false} ArrayForm(widget: string, key: string, a: string, b: string, comma: bool)
    requires widget != ""
    ensures
      var before := [Lexeme(Create, "create"), Ident(widget), Lexeme(LBrace, "{"), Ident(key), Lexeme(Colon, ":")];
      var list := [Lexeme(LBracket, "["), Str(a)] + (if comma then [Lexeme(Comma, ",")] else [])
          + [Str(b), Lexeme(RBracket, "]")];
      Means(before + list + [Lexeme(RBrace, "}")],
            [Node(WidgetKind(widget), "", map["widget_type" := widget][key := "[" + a + ", " + b + "]"], [])])
  {
    hide Means, WidgetKind;
    var elements := [Element(0, Quoted(a), comma), Element(0, Quoted(b), false)];
    var list := List(elements, 0);
    ListTokens(a, b, comma);
    ListValue(a, b, comma);
    hide ExprTokens, ExprValue;
    WidgetForm(widget, key, list);
  }

  lemma {:induction false} ListTokens(a: string, b: string, comma: bool)
    ensures ExprTokens(List([Element(0, Quoted(a), comma), Element(0, Quoted(b), false)], 0)) ==
      [Lexeme(LBracket, "["), Str(a)] + (if comma then [Lexeme(Comma, ",")] else []) + [Str(b), Lexeme(RBracket, "]")]
  {
    var first, second := Element(0, Quoted(a), comma), Element(0, Quoted(b), false);
    assert [first, second][1..] == [second] && [second][1..] == [];
    assert ElementTokens(first) == [Str(a)] && ElementTokens(second) == [Str(b)];
    assert ListTail([], 0) == [CLOSE_LIST] && Optional(false, COMMA) + [CLOSE_LIST] == [CLOSE_LIST];
    assert Lines(0) == [];
    assert ListTail([second], 0) == [Str(b), CLOSE_LIST];
    assert ListTail([first, second], 0) == [Str(a)] + (Optional(comma, COMMA) + [Str(b), CLOSE_LIST]);
  }

  lemma {:induction false} ListValue(a: string, b: string, comma: bool)
    ensures ExprValue(List([Element(0, Quoted(a), comma), Element(0, Quoted(b), false)], 0)) == "[" + a + ", " + b + "]"
  {
    var first, second := Element(0, Quoted(a), comma), Element(0, Quoted(b), false);
    assert [first, second][1..] == [second] && [second][1..] == [];
    assert ElementValue(first) == a && ElementValue(second) == b && Joined([], false) == "";
    assert Joined([second], false) == ", " + b + "";
    assert Joined([first, second], true) == "" + a + (", " + b);
    assert ", " + b + "" == ", " + b && "" + a + (", " + b) == a + ", " + b;
    assert "[" + (a + ", " + b) + "]" == "[" + a + ", " + b + "]";
  }

  /** `manifest M -> A @B { S }` holds the statement and remembers what it returns. */
  lemma {:induction false} ManifestForm(name: string, a: string, b: string, stmt: Stmt)
    requires name != "" && GoodStmt(stmt)
    ensures Means([Lexeme(Manifest, "manifest"), Ident(name), Lexeme(Arrow, "->"), Ident(a), Lexeme(At, b),
                   Lexeme(LBrace, "{")] + StmtTokens(stmt) + [Lexeme(RBrace, "}")],
                  [Node(ManifestNode, name, map["return_type" := a + " " + b + " "], [StmtNode(stmt)])])
  {
    hide Means, GoodStmt, StmtNode, StmtTokens;
    var clauses, types := [Clause(stmt, [])], [Ident(a), Lexeme(At, b)];
    var block := Surface.Block.Block(name, types, [], clauses);
    BlockForm(block, stmt);
    TypeTextForm(a, b);
    var start := [MANIFEST, Ident(name), ARROW, Ident(a), Lexeme(At, b), OPEN];
    assert BlockTokens(block) == start + StmtTokens(stmt) + [CLOSE];
    assert BlockNode(block) == Node(ManifestNode, name, map["return_type" := TypeText(types)], [StmtNode(stmt)]);
  }

  lemma {:induction false} TypeTextForm(a: string, b: string)
    ensures TypeText([Ident(a), Lexeme(At, b)]) == a + " " + b + " "
  {
    var types := [Ident(a), Lexeme(At, b)];
    assert types[1..] == [Lexeme(At, b)] && types[1..][1..] == [];
    assert TypeText(types[1..]) == b + " ";
    assert a + " " + (b + " ") == a + " " + b + " ";
  }

  lemma {:induction false} BlockForm(block: Surface.Block, stmt: Stmt)
    requires GoodStmt(stmt) && block.clauses == [Clause(stmt, [])]
    requires forall k | 0 <= k < |block.types| :: block.types[k].kind in {Identifier, At}
    ensures GoodBlock(block) && Means(BlockTokens(block), [BlockNode(block)])
    ensures BlockNode(block).children == [StmtNode(stmt)] && ClausesTokens(block.clauses) == StmtTokens(stmt)
  {
    hide Means, GoodStmt, StmtNode, StmtTokens;
    var clauses := block.clauses;
    assert clauses[1..] == [] && ClauseNodes([]) == [] && ClausesTokens([]) == [] && GoodClauses([]);
    assert ClauseNodes(clauses) == [StmtNode(stmt)];
    assert ClausesTokens(clauses) == StmtTokens(stmt);
    ManifestStatement(block);
    OneClause(ManifestStmt(block));
  }

  lemma {:induction false} ManifestStatement(block: Surface.Block)
    requires GoodBlock(block)
    ensures GoodStmt(ManifestStmt(block)) && StmtTokens(ManifestStmt(block)) == BlockTokens(block)
    ensures StmtNode(ManifestStmt(block)) == BlockNode(block)
    ensures GoodStmt(StartupStmt(0, block))
    ensures StmtNode(StartupStmt(0, block)) == Node(Startup, "", map[], [BlockNode(block)])
    ensures StmtTokens(StartupStmt(0, block)) == [STARTUP] + BlockTokens(block)
  {
    hide BlockTokens, BlockNode, GoodBlock;
    assert Lines(0) + BlockTokens(block) == BlockTokens(block);
  }

  /** Without a name, a widget is a plain one without a type, and a manifest or a thought just has none. */
  lemma {:induction false} NamelessForms(key: string, e: Expr, stmt: Stmt)
    requires GoodStmt(stmt)
    ensures Means([Lexeme(Create, "create"), Lexeme(LBrace, "{"), Ident(key), Lexeme(Colon, ":")] + ExprTokens(e)
                  + [Lexeme(RBrace, "}")],
                  [Node(CreateNode, "", map[key := ExprValue(e)], [])])
    ensures Means([Lexeme(Manifest, "manifest"), Lexeme(LBrace, "{")] + StmtTokens(stmt) + [Lexeme(RBrace, "}")],
                  [Node(ManifestNode, "", map[], [StmtNode(stmt)])])
    ensures Means([Ident("neural"), Lexeme(Colon, ":")] + ExprTokens(e),
                  [Node(Neural, "", map["expression" := ExprValue(e)], [])])
  {
    hide Means, GoodStmt, StmtNode, StmtTokens, ExprTokens, ExprValue;
    NamelessWidget(key, e);
    var block := Surface.Block.Block("", [], [], [Clause(stmt, [])]);
    BlockForm(block, stmt);
    assert BlockTokens(block) == [MANIFEST, OPEN] + StmtTokens(stmt) + [CLOSE];
    NamelessThought(e);
    OneClause(NeuralStmt("", e));
  }

  lemma {:induction false} NamelessThought(e: Expr)
    ensures GoodStmt(NeuralStmt("", e))
    ensures StmtNode(NeuralStmt("", e)) == Node(Neural, "", map["expression" := ExprValue(e)], [])
    ensures StmtTokens(NeuralStmt("", e)) == [Ident("neural"), Lexeme(Colon, ":")] + ExprTokens(e)
  {
    hide ExprTokens, ExprValue;
  }

  lemma {:induction false} NamelessWidget(key: string, e: Expr)
    ensures Means([Lexeme(Create, "create"), Lexeme(LBrace, "{"), Ident(key), Lexeme(Colon, ":")] + ExprTokens(e)
                  + [Lexeme(RBrace, "}")],
                  [Node(CreateNode, "", map[key := ExprValue(e)], [])])
  {
    hide ExprTokens, ExprValue, Means;
    var entries := [Entry(0, key, e, false)];
    var stmt := WidgetStmt("", entries, 0);
    OneClause(stmt);
    NoWidget();
    assert entries[1..] == [] && Lines(0) == [];
    assert EntriesTail([], 0) == [CLOSE];
    assert EntriesTail(entries, 0) == [Ident(key)] + ([COLON] + (ExprTokens(e) + [CLOSE]));
    assert Assigned(entries[1..], map[][key := ExprValue(e)]) == map[][key := ExprValue(e)];
    assert StmtTokens(stmt) == [CREATE, OPEN, Ident(key), COLON] + ExprTokens(e) + [CLOSE];
    assert StmtNode(stmt) == Node(CreateNode, "", map[key := ExprValue(e)], []);
  }

  /** `@startup manifest M { S }` holds that manifest. */
  lemma {:induction false} StartupForm(name: string, stmt: Stmt)
    requires name != "" && GoodStmt(stmt)
    ensures Means([Lexeme(At, "@startup"), Lexeme(Manifest, "manifest"), Ident(name), Lexeme(LBrace, "{")]
                  + StmtTokens(stmt) + [Lexeme(RBrace, "}")],
                  [Node(Startup, "", map[], [Node(ManifestNode, name, map[], [StmtNode(stmt)])])])
  {
    hide Means, GoodStmt, StmtNode, StmtTokens;
    var block := Surface.Block.Block(name, [], [], [Clause(stmt, [])]);
    BlockForm(block, stmt);
    ManifestStatement(block);
    OneClause(StartupStmt(0, block));
    assert [STARTUP] + BlockTokens(block) ==
        [STARTUP, MANIFEST, Ident(name), OPEN] + StmtTokens(stmt) + [CLOSE];
  }

  /** `return_light V`, `neural N : V` and `neural N`. */
  lemma {:induction false} LeafForms(name: string, e: Expr)
    requires name != ""
    ensures Means([Ident("return_light")] + ExprTokens(e), [Node(ReturnLight, "", map["value" := ExprValue(e)], [])])
    ensures Means([Ident("neural"), Ident(name), Lexeme(Colon, ":")] + ExprTokens(e),
                  [Node(Neural, name, map["expression" := ExprValue(e)], [])])
    ensures Means([Ident("neural"), Ident(name)], [Node(Neural, name, map[], [])])
  {
    hide Means, ExprTokens, ExprValue;
    OneClause(LightStmt(e));
    OneClause(NeuralStmt(name, e));
    OneClause(BareNeural(name));
    assert StmtTokens(NeuralStmt(name, e)) == [Ident("neural"), Ident(name), Lexeme(Colon, ":")] + ExprTokens(e);
    assert StmtTokens(BareNeural(name)) == [Ident("neural"), Ident(name)];
  }

  /** Statements behind one another give their trees in that order, with a semicolon, a line break or, between
      these, nothing in between. */
  lemma {:induction false} InOrder(a: Stmt, b: Stmt, gap: seq<Break>)
    requires GoodStmt(a) && GoodStmt(b) && Apart(Clause(a, gap), [Clause(b, [])])
    ensures Means(StmtTokens(a) + Breaks(gap) + StmtTokens(b), [StmtNode(a), StmtNode(b)])
  {
    hide StmtTokens, StmtNode, GoodStmt, Apart, Program, FateOf;
    var last := [Clause(b, [])];
    var clauses := [Clause(a, gap), Clause(b, [])];
    LastApart(b);
    assert last[1..] == [] && clauses[1..] == last && ClauseNodes([]) == [] && ClausesTokens([]) == [];
    assert ClauseNodes(last) == [StmtNode(b)] && ClauseNodes(clauses) == [StmtNode(a), StmtNode(b)];
    assert ClausesTokens(last) == StmtTokens(b);
    assert ClausesTokens(clauses) == StmtTokens(a) + Breaks(gap) + StmtTokens(b);
    assert GoodClauses(last) && GoodClauses(clauses);
    assert ProgramTokens([], clauses) == StmtTokens(a) + Breaks(gap) + StmtTokens(b) + [EOF];
    ProgramReads([], clauses);
  }

  lemma {:induction false} LastApart(b: Stmt)
    ensures Apart(Clause(b, []), []) && GoodClauses([])
  {
  }

  // ---------- broken forms ----------

  lemma {:induction false} OneStatement(ts: Tokens, node: Node, n: nat)
    requires ts[0].kind !in {Newline, EndOfFile} && n < |ts| && ts[n].kind == EndOfFile
    requires Statement(ts, 0) == Done([node], n)
    ensures Program(ts, 0, []) == Done([node], n)
  {
    hide Statement, Program;
    ProgramStep(ts, 0, []);
    ProgramStep(ts, n, [] + [node]);
    assert [] + [node] == [node];
  }

  lemma {:induction false} WidgetStatement(ts: Tokens, node: Node, n: nat)
    requires ts[0].kind == Create && n < |ts| && ts[n].kind == EndOfFile && Widget(ts, 0) == Read(node, n)
    ensures Program(ts, 0, []) == Done([node], n)
  {
    hide Program, Widget;
    OneStatement(ts, node, n);
  }

  /** `create W` needs no braces. */
  lemma {:induction false} BareWidget(widget: string)
    ensures Means([Lexeme(Create, "create"), Ident(widget)],
                  [Node(WidgetKind(widget), "", map["widget_type" := widget], [])])
  {
    hide Program, WidgetKind;
    var ts: Tokens := [Lexeme(Create, "create"), Ident(widget)] + [Lexeme(EndOfFile, "")];
    WidgetStatement(ts, Node(WidgetKind(widget), "", map["widget_type" := widget], []), 2);
  }

  lemma {:induction false} StrayStep(ts: Tokens, i: nat, before: map<string, string>)
    requires i + 1 < |ts| && ts[i].kind !in {Newline, RBrace, EndOfFile} && ts[i + 1].kind !in {Colon, Comma}
    ensures Attributes(ts, i, before) == Attributes(ts, i + 1, before)
  {
    hide Attributes;
    AttributesStep(ts, i, before);
    assert Attribute(ts, i, before) == Read(before, i + 1);
  }

  /** A widget by its parts. */
  lemma {:induction false} WidgetOf(ts: Tokens, widget: string, attributes: map<string, string>, end: nat)
    requires |ts| > 3 && ts[0].kind == Create && ts[1] == Ident(widget) && ts[2].kind == LBrace
    requires end < |ts| && Attributes(ts, 3, map["widget_type" := widget]) == Read(attributes, end)
    ensures Widget(ts, 0) == Read(Node(WidgetKind(widget), "", attributes, []), Match(ts, end, RBrace))
  {
    hide Attributes, WidgetKind;
  }

  /** A name without a colon, and anything that is no name, is passed over in a widget: nothing is assigned. */
  lemma {:induction false} StrayAttribute(widget: string, stray: Lexeme, key: string, v: string)
    requires stray.kind in {Identifier, String, Number, At, Colon, Semicolon, LBracket, Arrow, LBrace, Create, Manifest}
    ensures Means([Lexeme(Create, "create"), Ident(widget), Lexeme(LBrace, "{"), stray, Ident(key), Lexeme(Colon, ":"),
                   Str(v), Lexeme(RBrace, "}")],
                  [Node(WidgetKind(widget), "", map["widget_type" := widget][key := v], [])])
  {
    hide Program, WidgetKind, Attributes, Widget;
    var ts: Tokens := [Lexeme(Create, "create"), Ident(widget), Lexeme(LBrace, "{"), stray, Ident(key),
                       Lexeme(Colon, ":"), Str(v), Lexeme(RBrace, "}")] + [Lexeme(EndOfFile, "")];
    var start := map["widget_type" := widget];
    StrayStep(ts, 3, start);
    OnePair(ts, 4, key, v, start);
    AttributesStep(ts, 7, start[key := v]);
    WidgetOf(ts, widget, start[key := v], 7);
    WidgetStatement(ts, Node(WidgetKind(widget), "", start[key := v], []), 8);
  }

  lemma {:induction false} OneValue(ts: Tokens, i: nat, key: string, v: Read<string>, before: map<string, string>)
    requires i + 2 < |ts| && ts[i] == Ident(key) && ts[i + 1].kind == Colon && Value(ts, i + 2) == v
    requires ts[v.next].kind != Comma
    ensures Attributes(ts, i, before) == Attributes(ts, v.next, before[key := v.value])
  {
    hide Attributes, Value;
    AttributesStep(ts, i, before);
    assert Attribute(ts, i, before) == Read(before[key := v.value], v.next);
  }

  lemma {:induction false} OnePair(ts: Tokens, i: nat, key: string, v: string, before: map<string, string>)
    requires i + 3 < |ts| && ts[i] == Ident(key) && ts[i + 1].kind == Colon && ts[i + 2] == Str(v)
    requires ts[i + 3].kind != Comma
    ensures Attributes(ts, i, before) == Attributes(ts, i + 3, before[key := v])
  {
    hide Attributes;
    assert Value(ts, i + 2) == Read(v, i + 3);
    OneValue(ts, i, key, Read(v, i + 3), before);
  }

  /** A widget may stay open at the end, and so may a list, which then has no closing bracket in its text. */
  lemma {:induction false} OpenForms(widget: string, key: string, v: string)
    ensures Means([Lexeme(Create, "create"), Ident(widget), Lexeme(LBrace, "{"), Ident(key), Lexeme(Colon, ":"),
                   Str(v)],
                  [Node(WidgetKind(widget), "", map["widget_type" := widget][key := v], [])])
    ensures Means([Lexeme(Create, "create"), Ident(widget), Lexeme(LBrace, "{"), Ident(key), Lexeme(Colon, ":"),
                   Lexeme(LBracket, "["), Str(v)],
                  [Node(WidgetKind(widget), "", map["widget_type" := widget][key := "[" + v], [])])
  {
    OpenWidget(widget, key, v);
    OpenList(widget, key, v);
  }

  lemma {:induction false} OpenWidget(widget: string, key: string, v: string)
    ensures Means([Lexeme(Create, "create"), Ident(widget), Lexeme(LBrace, "{"), Ident(key), Lexeme(Colon, ":"),
                   Str(v)],
                  [Node(WidgetKind(widget), "", map["widget_type" := widget][key := v], [])])
  {
    hide Program, WidgetKind, Attributes, Widget;
    var ts: Tokens := [Lexeme(Create, "create"), Ident(widget), Lexeme(LBrace, "{"), Ident(key), Lexeme(Colon, ":"),
                       Str(v)] + [Lexeme(EndOfFile, "")];
    var start := map["widget_type" := widget];
    OnePair(ts, 3, key, v, start);
    AttributesStep(ts, 6, start[key := v]);
    WidgetOf(ts, widget, start[key := v], 6);
    WidgetStatement(ts, Node(WidgetKind(widget), "", start[key := v], []), 6);
  }

  lemma {:induction false} OpenArray(ts: Tokens, i: nat, v: string)
    requires i + 2 < |ts| && ts[i].kind == LBracket && ts[i + 1] == Str(v) && ts[i + 2].kind == EndOfFile
    ensures Value(ts, i) == Read("[" + v, i + 2)
  {
    hide Elements;
    ElementsStep(ts, i + 1, true, "[");
    ElementsStep(ts, i + 2, false, "[" + v);
  }

  lemma {:induction false} OpenList(widget: string, key: string, v: string)
    ensures Means([Lexeme(Create, "create"), Ident(widget), Lexeme(LBrace, "{"), Ident(key), Lexeme(Colon, ":"),
                   Lexeme(LBracket, "["), Str(v)],
                  [Node(WidgetKind(widget), "", map["widget_type" := widget][key := "[" + v], [])])
  {
    hide Program, WidgetKind, Attributes, Value, Widget;
    var ts: Tokens := [Lexeme(Create, "create"), Ident(widget), Lexeme(LBrace, "{"), Ident(key), Lexeme(Colon, ":"),
                       Lexeme(LBracket, "["), Str(v)] + [Lexeme(EndOfFile, "")];
    var start := map["widget_type" := widget];
    OpenArray(ts, 5, v);
    OneValue(ts, 3, key, Read("[" + v, 7), start);
    AttributesStep(ts, 7, start[key := "[" + v]);
    WidgetOf(ts, widget, start[key := "[" + v], 7);
    WidgetStatement(ts, Node(WidgetKind(widget), "", start[key := "[" + v], []), 7);
  }

  /** What is no value is taken for an empty one: behind a colon, and behind `return_light`. */
  lemma {:induction false} NoValue(widget: string, key: string, other: Lexeme)
    requires other.kind !in {String, Number, Identifier, LBracket, EndOfFile}
    ensures Means([Lexeme(Create, "create"), Ident(widget), Lexeme(LBrace, "{"), Ident(key), Lexeme(Colon, ":"), other],
                  [Node(WidgetKind(widget), "", map["widget_type" := widget][key := ""], [])])
    ensures Means([Ident("return_light"), other], [Node(ReturnLight, "", map["value" := ""], [])])
    ensures Means([Ident("return_light")], [Node(ReturnLight, "", map[], [])])
  {
    NoValueInWidget(widget, key, other);
    NoValueBehindLight(other);
    NothingBehindLight();
  }

  lemma {:induction false} NoValueInWidget(widget: string, key: string, other: Lexeme)
    requires other.kind !in {String, Number, Identifier, LBracket, EndOfFile}
    ensures Means([Lexeme(Create, "create"), Ident(widget), Lexeme(LBrace, "{"), Ident(key), Lexeme(Colon, ":"), other],
                  [Node(WidgetKind(widget), "", map["widget_type" := widget][key := ""], [])])
  {
    hide Program, WidgetKind, Attributes, Widget;
    var ts: Tokens := [Lexeme(Create, "create"), Ident(widget), Lexeme(LBrace, "{"), Ident(key), Lexeme(Colon, ":"),
                       other] + [Lexeme(EndOfFile, "")];
    var start := map["widget_type" := widget];
    assert Value(ts, 5) == Read("", 6);
    OneValue(ts, 3, key, Read("", 6), start);
    AttributesStep(ts, 6, start[key := ""]);
    WidgetOf(ts, widget, start[key := ""], 6);
    WidgetStatement(ts, Node(WidgetKind(widget), "", start[key := ""], []), 6);
  }

  lemma {:induction false} NoValueBehindLight(other: Lexeme)
    requires other.kind !in {String, Number, Identifier, LBracket, EndOfFile}
    ensures Means([Ident("return_light"), other], [Node(ReturnLight, "", map["value" := ""], [])])
  {
    hide Program;
    var ts: Tokens := [Ident("return_light"), other] + [Lexeme(EndOfFile, "")];
    assert Light(ts, 0) == Read(Node(ReturnLight, "", map["value" := ""], []), 2);
    OneStatement(ts, Node(ReturnLight, "", map["value" := ""], []), 2);
  }

  lemma {:induction false} NothingBehindLight()
    ensures Means([Ident("return_light")], [Node(ReturnLight, "", map[], [])])
  {
    hide Program;
    var ts: Tokens := [Ident("return_light")] + [Lexeme(EndOfFile, "")];
    assert Light(ts, 0) == Read(Node(ReturnLight, "", map[], []), 1);
    OneStatement(ts, Node(ReturnLight, "", map[], []), 1);
  }

  /** A manifest needs no body. */
  lemma {:induction false} BareManifest(name: string)
    ensures Means([Lexeme(Manifest, "manifest"), Ident(name)], [Node(ManifestNode, name, map[], [])])
  {
    hide Program;
    var ts: Tokens := [Lexeme(Manifest, "manifest"), Ident(name)] + [Lexeme(EndOfFile, "")];
    assert ManifestAt(ts, 0) == Done(Node(ManifestNode, name, map[], []), 2);
    OneStatement(ts, Node(ManifestNode, name, map[], []), 2);
  }

  /** Tokens no statement starts with. */
  predicate Stray(l: Lexeme) {
    || l.kind in {String, Number, Colon, Comma, Semicolon, LBracket, RBracket, LBrace, Arrow}
    || (l.kind == At && l.value != "@startup")
    || (l.kind == Identifier && l.value != "return_light" && l.value != "neural")
  }

  /** They are passed over, at the top and in a body; a closing brace is, at the top. */
  lemma {:induction false} StraysAreSkipped(ts: Tokens, i: nat, children: seq<Node>)
    requires i < |ts|
    ensures Stray(ts[i]) ==> Body(ts, i, children) == Body(ts, i + 1, children)
    ensures Stray(ts[i]) || ts[i].kind == RBrace ==> Program(ts, i, children) == Program(ts, i + 1, children)
  {
    hide Body, Program, ManifestAt, StartupAt, Widget, Light, Thought;
    BodyStep(ts, i, children);
    ProgramStep(ts, i, children);
    assert children + [] == children;
  }
}
