/** The texts of canonical programs, as tokens, and the proof that the parser reads every
    one of them back as the tree it stands for. */
module Surface {
  import opened Lexer
  import opened Parser
  import opened Segments

  // ---------- canonical programs ----------

  datatype Expr = Quoted(text: string) | Numeral(text: string) | Word(text: string)
                | List(elements: seq<Element>, close: nat)

  /** An array element, the line breaks before it and perhaps a comma after it. */
  datatype Element = Element(lines: nat, expr: Expr, comma: bool)

  datatype Entry = Entry(lines: nat, key: string, expr: Expr, comma: bool)

  datatype Break = Line | Semi

  /** A manifest; an empty name stands for none. */
  datatype Block = Block(name: string, types: seq<Lexeme>, lead: seq<Break>, clauses: seq<Clause>)

  datatype Stmt = ManifestStmt(block: Block)
                | WidgetStmt(widget: string, entries: seq<Entry>, close: nat)
                | StartupStmt(lines: nat, block: Block)
                | BareStartup
                | LightStmt(expr: Expr)
                | NeuralStmt(name: string, expr: Expr)
                | BareNeural(name: string)

  datatype Clause = Clause(stmt: Stmt, gap: seq<Break>)

  // ---------- their tokens ----------

  const LINE := Lexeme(Newline, "\n")
  const SEMI := Lexeme(Semicolon, ";")
  const COMMA := Lexeme(Comma, ",")
  const COLON := Lexeme(Colon, ":")
  const OPEN := Lexeme(LBrace, "{")
  const CLOSE := Lexeme(RBrace, "}")
  const OPEN_LIST := Lexeme(LBracket, "[")
  const CLOSE_LIST := Lexeme(RBracket, "]")
  const ARROW := Lexeme(Arrow, "->")
  const MANIFEST := Lexeme(Manifest, "manifest")
  const CREATE := Lexeme(Create, "create")
  const STARTUP := Lexeme(At, "@startup")
  const LIGHT := Lexeme(Identifier, "return_light")
  const NEURAL := Lexeme(Identifier, "neural")

  function Lines(n: nat): (r: seq<Lexeme>)
    ensures |r| == n && forall k | 0 <= k < n :: r[k] == LINE
  {
    seq(n, _ => LINE)
  }

  function Optional(there: bool, l: Lexeme): seq<Lexeme> {
    if there then [l] else []
  }

  function Named(name: string): seq<Lexeme> {
    Optional(name != "", Lexeme(Identifier, name))
  }

  function ExprTokens(e: Expr): seq<Lexeme> {
    match e
    case Quoted(text) => [Lexeme(String, text)]
    case Numeral(text) => [Lexeme(Number, text)]
    case Word(text) => [Lexeme(Identifier, text)]
    case List(elements, close) => [OPEN_LIST] + ListTail(elements, close)
  }

  function ListTail(elements: seq<Element>, close: nat): seq<Lexeme>
    decreases elements
  {
    if elements == [] then Lines(close) + [CLOSE_LIST]
    else
      var e := elements[0];
      Lines(e.lines) + (ElementTokens(e) + (Optional(e.comma, COMMA) + ListTail(elements[1..], close)))
  }

  function ElementTokens(e: Element): seq<Lexeme> {
    ExprTokens(e.expr)
  }

  function EntriesTail(entries: seq<Entry>, close: nat): seq<Lexeme> {
    if entries == [] then Lines(close) + [CLOSE]
    else
      var e := entries[0];
      Lines(e.lines) + ([Lexeme(Identifier, e.key)]
          + ([COLON] + (ExprTokens(e.expr) + (Optional(e.comma, COMMA) + EntriesTail(entries[1..], close)))))
  }

  function BreakToken(b: Break): Lexeme {
    if b.Line? then LINE else SEMI
  }

  function Breaks(gap: seq<Break>): (r: seq<Lexeme>)
    ensures |r| == |gap| && forall k | 0 <= k < |gap| :: r[k] == BreakToken(gap[k])
  {
    seq(|gap|, k requires 0 <= k < |gap| => BreakToken(gap[k]))
  }

  function TypeTokens(types: seq<Lexeme>): seq<Lexeme> {
    if types == [] then [] else [ARROW] + types
  }

  function BlockTokens(b: Block): seq<Lexeme> {
    [MANIFEST] + (Named(b.name) + (TypeTokens(b.types)
        + ([OPEN] + (Breaks(b.lead) + (ClausesTokens(b.clauses) + [CLOSE])))))
  }

  function StmtTokens(s: Stmt): seq<Lexeme> {
    match s
    case ManifestStmt(block) => BlockTokens(block)
    case WidgetStmt(widget, entries, close) => [CREATE] + (Named(widget) + ([OPEN] + EntriesTail(entries, close)))
    case StartupStmt(lines, block) => [STARTUP] + (Lines(lines) + BlockTokens(block))
    case BareStartup => [STARTUP]
    case LightStmt(expr) => [LIGHT] + ExprTokens(expr)
    case NeuralStmt(name, expr) => [NEURAL] + (Named(name) + ([COLON] + ExprTokens(expr)))
    case BareNeural(name) => [NEURAL] + Named(name)
  }

  function ClausesTokens(clauses: seq<Clause>): seq<Lexeme> {
    if clauses == [] then []
    else StmtTokens(clauses[0].stmt) + (Breaks(clauses[0].gap) + ClausesTokens(clauses[1..]))
  }

  // ---------- their trees ----------

  function ExprValue(e: Expr): string {
    match e
    case List(elements, _) => "[" + Joined(elements, true) + "]"
    case _ => e.text
  }

  function Joined(elements: seq<Element>, first: bool): string
    decreases elements
  {
    if elements == [] then ""
    else (if first then "" else ", ") + ElementValue(elements[0]) + Joined(elements[1..], false)
  }

  function ElementValue(e: Element): string {
    ExprValue(e.expr)
  }

  function Assigned(entries: seq<Entry>, attributes: map<string, string>): map<string, string> {
    if entries == [] then attributes
    else Assigned(entries[1..], attributes[entries[0].key := ExprValue(entries[0].expr)])
  }

  function TypeText(types: seq<Lexeme>): string {
    if types == [] then "" else types[0].value + " " + TypeText(types[1..])
  }

  function BlockNode(b: Block): Node {
    var attributes := if b.types == [] then map[] else map["return_type" := TypeText(b.types)];
    Node(ManifestNode, b.name, attributes, ClauseNodes(b.clauses))
  }

  function StmtNode(s: Stmt): Node {
    match s
    case ManifestStmt(block) => BlockNode(block)
    case WidgetStmt(widget, entries, _) =>
      Node(WidgetKind(widget), "", Assigned(entries, if widget == "" then map[] else map["widget_type" := widget]), [])
    case StartupStmt(_, block) => Node(Startup, "", map[], [BlockNode(block)])
    case BareStartup => Node(Startup, "", map[], [])
    case LightStmt(expr) => Node(ReturnLight, "", map["value" := ExprValue(expr)], [])
    case NeuralStmt(name, expr) => Node(Neural, name, map["expression" := ExprValue(expr)], [])
    case BareNeural(name) => Node(Neural, name, map[], [])
  }

  function ClauseNodes(clauses: seq<Clause>): (r: seq<Node>)
    ensures |r| == |clauses|
  {
    if clauses == [] then [] else [StmtNode(clauses[0].stmt)] + ClauseNodes(clauses[1..])
  }

  // ---------- what may stand next to what ----------

  predicate StartsWithWord(s: Stmt) {
    s.LightStmt? || s.NeuralStmt? || s.BareNeural?
  }

  /** The statement is told apart from what comes after it. */
  predicate Apart(clause: Clause, rest: seq<Clause>) {
    match clause.stmt
    case BareStartup => Semi in clause.gap || rest == [] || !rest[0].stmt.ManifestStmt?
    case BareNeural(name) => name != "" || clause.gap != [] || rest == [] || !StartsWithWord(rest[0].stmt)
    case _ => true
  }

  predicate GoodBlock(b: Block) {
    (forall k | 0 <= k < |b.types| :: b.types[k].kind in {Identifier, At}) && GoodClauses(b.clauses)
  }

  predicate GoodStmt(s: Stmt) {
    match s
    case ManifestStmt(block) => GoodBlock(block)
    case StartupStmt(_, block) => GoodBlock(block)
    case _ => true
  }

  predicate GoodClauses(clauses: seq<Clause>) {
    clauses != [] ==> GoodStmt(clauses[0].stmt) && Apart(clauses[0], clauses[1..]) && GoodClauses(clauses[1..])
  }

  // ---------- reading values back ----------

  lemma {:induction false} SkipTo(ts: Tokens, i: nat, j: nat)
    requires i <= j < |ts| && (forall k | i <= k < j :: ts[k].kind == Newline) && ts[j].kind != Newline
    ensures Skip(ts, i) == j
    decreases j - i
  {
    if i < j {
      SkipTo(ts, i + 1, j);
    }
  }

  lemma {:induction false} HereFirst(ts: Tokens, i: nat, x: Lexeme, rest: seq<Lexeme>)
    requires Here(ts, i, [x] + rest)
    ensures i < |ts| && ts[i] == x && Here(ts, i + 1, rest)
  {
    HereAt(ts, i, [x] + rest);
    HereSplit(ts, i, [x], rest);
    assert ts[i + 0] == ([x] + rest)[0];
  }

  lemma {:induction false} HereStart(ts: Tokens, i: nat, xs: seq<Lexeme>)
    requires Here(ts, i, xs) && xs != []
    ensures i < |ts| && ts[i] == xs[0]
  {
    HereAt(ts, i, xs);
    assert ts[i + 0] == xs[0];
  }

  lemma {:induction false} LinesRead(ts: Tokens, i: nat, lines: nat, rest: seq<Lexeme>)
    requires Here(ts, i, Lines(lines) + rest) && rest != [] && rest[0].kind != Newline
    ensures i + lines < |ts| && Skip(ts, i) == i + lines && Here(ts, i + lines, rest) && ts[i + lines] == rest[0]
  {
    hide Skip;
    HereSplit(ts, i, Lines(lines), rest);
    HereStart(ts, i + lines, rest);
    HereAt(ts, i, Lines(lines));
    forall k | i <= k < i + lines ensures ts[k].kind == Newline {
      assert ts[i + (k - i)] == Lines(lines)[k - i];
    }
    SkipTo(ts, i, i + lines);
  }

  lemma {:induction false} OptionalRead(ts: Tokens, i: nat, there: bool, l: Lexeme, rest: seq<Lexeme>)
    requires Here(ts, i, Optional(there, l) + rest) && rest != [] && rest[0].kind != l.kind && l.kind != EndOfFile
    ensures i < |ts| && Match(ts, i, l.kind) == i + |Optional(there, l)| && Here(ts, i + |Optional(there, l)|, rest)
    ensures if there then ts[i] == l else ts[i] == rest[0]
  {
    HereSplit(ts, i, Optional(there, l), rest);
    HereStart(ts, i + |Optional(there, l)|, rest);
    if there {
      HereStart(ts, i, [l]);
    }
  }

  lemma {:induction false} NamedRead(ts: Tokens, i: nat, name: string, rest: seq<Lexeme>)
    requires Here(ts, i, Named(name) + rest) && rest != [] && rest[0].kind != Identifier
    ensures var k := i + |Named(name)|;
      && k < |ts| && Match(ts, i, Identifier) == k && Here(ts, k, rest)
      && (if name == "" then k == i && ts[i] == rest[0] else ts[i] == Lexeme(Identifier, name))
  {
    hide Here, Match;
    OptionalRead(ts, i, name != "", Lexeme(Identifier, name), rest);
  }

  lemma ExprStart(e: Expr)
    ensures ExprTokens(e) != [] && ExprTokens(e)[0].kind in {String, Number, Identifier, LBracket}
  {
    hide ListTail;
  }

  lemma ListStart(elements: seq<Element>, close: nat)
    ensures var tail := ListTail(elements, close); tail != [] && tail[0].kind !in {Comma, EndOfFile}
  {
    hide ExprTokens;
    if elements != [] {
      ExprStart(elements[0].expr);
    }
  }

  lemma EntriesStart(entries: seq<Entry>, close: nat)
    ensures var tail := EntriesTail(entries, close); tail != [] && tail[0].kind !in {Comma, EndOfFile}
  {
    hide ExprTokens;
  }

  lemma {:induction false} ExprReads(ts: Tokens, i: nat, e: Expr)
    requires Here(ts, i, ExprTokens(e)) && i + |ExprTokens(e)| < |ts|
    ensures Value(ts, i) == Read(ExprValue(e), i + |ExprTokens(e)|)
    decreases e, 0
  {
    hide ListTail, Elements, Joined, Here;
    HereStart(ts, i, ExprTokens(e));
    if e.List? {
      HereFirst(ts, i, OPEN_LIST, ListTail(e.elements, e.close));
      ElementsRead(ts, i + 1, e.elements, e.close, true, "[");
    }
  }

  lemma {:induction false} ElementsRead(ts: Tokens, i: nat, elements: seq<Element>, close: nat, first: bool,
      text: string)
    requires Here(ts, i, ListTail(elements, close)) && i + |ListTail(elements, close)| < |ts|
    ensures var next := i + |ListTail(elements, close)| - 1;
      && i <= next && ts[next].kind == RBracket
      && Elements(ts, i, first, text) == Read(text + Joined(elements, first), next)
    decreases elements
  {
    hide ExprTokens, ExprValue, Elements, Skip, Lines, Value, Here;
    if elements == [] {
      LinesRead(ts, i, close, [CLOSE_LIST]);
      ListEnds(ts, i, i + close, first, text);
      assert text + "" == text;
    } else {
      var e, rest := elements[0], elements[1..];
      ElementReads(ts, i, e, rest, close, first, text);
      var k := i + e.lines + |ExprTokens(e.expr)| + |Optional(e.comma, COMMA)|;
      var start := if first then text else text + ", ";
      ElementsRead(ts, k, rest, close, false, start + ExprValue(e.expr));
      assert ElementValue(e) == ExprValue(e.expr) && ElementTokens(e) == ExprTokens(e.expr);
      assert start + ExprValue(e.expr) + Joined(rest, false) == text + Joined(elements, first);
    }
  }

  lemma {:induction false} ListEnds(ts: Tokens, i: nat, j: nat, first: bool, text: string)
    requires i <= j < |ts| && Skip(ts, i) == j && ts[j].kind == RBracket
    ensures Elements(ts, i, first, text) == Read(text, j)
  {
  }

  /** A value, perhaps with a comma behind it. */
  lemma {:induction false} ExprAndComma(ts: Tokens, j: nat, e: Expr, comma: bool, tail: seq<Lexeme>)
    requires Here(ts, j, ExprTokens(e) + (Optional(comma, COMMA) + tail)) && tail != [] && tail[0].kind != Comma
    ensures var m := j + |ExprTokens(e)|;
      var k := m + |Optional(comma, COMMA)|;
      m <= k < |ts| && Value(ts, j) == Read(ExprValue(e), m) && Match(ts, m, Comma) == k && Here(ts, k, tail)
    decreases e, 1
  {
    hide ExprTokens, ExprValue, Value, Here, Match, Optional;
    HereSplit(ts, j, ExprTokens(e), Optional(comma, COMMA) + tail);
    OptionalRead(ts, j + |ExprTokens(e)|, comma, COMMA, tail);
    ExprReads(ts, j, e);
  }

  /** One turn of the element loop. */
  lemma {:induction false} ElementReads(ts: Tokens, i: nat, e: Element, rest: seq<Element>, close: nat, first: bool,
      text: string)
    requires var tail := ListTail(rest, close);
      Here(ts, i, Lines(e.lines) + (ExprTokens(e.expr) + (Optional(e.comma, COMMA) + tail)))
    ensures var k := i + e.lines + |ExprTokens(e.expr)| + |Optional(e.comma, COMMA)|;
      && Here(ts, k, ListTail(rest, close)) && k < |ts|
      && Elements(ts, i, first, text) == Elements(ts, k, false,
          (if first then text else text + ", ") + ExprValue(e.expr))
    decreases e
  {
    hide ExprTokens, ExprValue, Elements, Skip, Lines, Value, Here, ListTail, Match, Optional;
    var tail := ListTail(rest, close);
    ListStart(rest, close);
    ExprStart(e.expr);
    LinesRead(ts, i, e.lines, ExprTokens(e.expr) + (Optional(e.comma, COMMA) + tail));
    ExprAndComma(ts, i + e.lines, e.expr, e.comma, tail);
    SkipKind(ts, i);
    ElementsStep(ts, i, first, text);
  }

  /** Line breaks hide nothing: what is at `i` is a line break or what is behind them. */
  lemma {:induction false} SkipKind(ts: Tokens, i: nat)
    requires i < |ts|
    ensures ts[i].kind == Newline || Skip(ts, i) == i
  {
  }

  // ---------- reading widgets and leaves back ----------

  lemma {:induction false} EntriesRead(ts: Tokens, i: nat, entries: seq<Entry>, close: nat,
                                           attributes: map<string, string>)
    requires Here(ts, i, EntriesTail(entries, close))
    ensures var next := i + |EntriesTail(entries, close)| - 1;
      && i <= next < |ts| && ts[next] == CLOSE
      && Attributes(ts, i, attributes) == Read(Assigned(entries, attributes), next)
    decreases entries
  {
    hide ExprTokens, ExprValue, Attributes, Skip, Lines, Here;
    if entries == [] {
      LinesRead(ts, i, close, [CLOSE]);
      EntriesEnd(ts, i, i + close, attributes);
    } else {
      var e, rest := entries[0], entries[1..];
      EntryReads(ts, i, e, rest, close, attributes);
      var k := i + e.lines + 2 + |ExprTokens(e.expr)| + |Optional(e.comma, COMMA)|;
      EntriesRead(ts, k, rest, close, attributes[e.key := ExprValue(e.expr)]);
    }
  }

  lemma {:induction false} EntriesEnd(ts: Tokens, i: nat, j: nat, attributes: map<string, string>)
    requires i <= j < |ts| && Skip(ts, i) == j && ts[j].kind == RBrace
    ensures Attributes(ts, i, attributes) == Read(attributes, j)
  {
  }

  lemma {:induction false} AttributeReads(ts: Tokens, j: nat, key: string, e: Expr, rest: seq<Lexeme>,
      attributes: map<string, string>)
    requires Here(ts, j, [Lexeme(Identifier, key)] + ([COLON] + (ExprTokens(e) + rest))) && rest != []
    ensures var k := j + 2 + |ExprTokens(e)|;
      k < |ts| && Here(ts, k, rest) && Attribute(ts, j, attributes) == Read(attributes[key := ExprValue(e)], k)
  {
    hide ExprTokens, ExprValue, Value, Here;
    HereFirst(ts, j, Lexeme(Identifier, key), [COLON] + (ExprTokens(e) + rest));
    HereFirst(ts, j + 1, COLON, ExprTokens(e) + rest);
    HereSplit(ts, j + 2, ExprTokens(e), rest);
    HereStart(ts, j + 2 + |ExprTokens(e)|, rest);
    ExprReads(ts, j + 2, e);
  }

  /** One turn of the attribute loop. */
  lemma {:induction false} EntryReads(ts: Tokens, i: nat, e: Entry, rest: seq<Entry>, close: nat,
      attributes: map<string, string>)
    requires var tail := EntriesTail(rest, close);
      Here(ts, i, Lines(e.lines) + ([Lexeme(Identifier, e.key)]
          + ([COLON] + (ExprTokens(e.expr) + (Optional(e.comma, COMMA) + tail)))))
    ensures var k := i + e.lines + 2 + |ExprTokens(e.expr)| + |Optional(e.comma, COMMA)|;
      && Here(ts, k, EntriesTail(rest, close)) && k < |ts|
      && Attributes(ts, i, attributes) == Attributes(ts, k, attributes[e.key := ExprValue(e.expr)])
  {
    hide ExprTokens, ExprValue, Attributes, Attribute, Skip, Lines, Here, EntriesTail;
    var tail := EntriesTail(rest, close);
    var after := Optional(e.comma, COMMA) + tail;
    EntriesStart(rest, close);
    LinesRead(ts, i, e.lines, [Lexeme(Identifier, e.key)] + ([COLON] + (ExprTokens(e.expr) + after)));
    AttributeReads(ts, i + e.lines, e.key, e.expr, after, attributes);
    OptionalRead(ts, i + e.lines + 2 + |ExprTokens(e.expr)|, e.comma, COMMA, tail);
    SkipKind(ts, i);
    AttributesStep(ts, i, attributes);
  }

  lemma NoWidget()
    ensures WidgetKind("") == CreateNode
  {
  }

  lemma {:induction false} WidgetNameRead(ts: Tokens, i: nat, widget: string, rest: seq<Lexeme>)
    requires Here(ts, i, [CREATE] + (Named(widget) + ([OPEN] + rest)))
    ensures var j := i + 1 + |Named(widget)|;
      && j < |ts| && ts[i] == CREATE && ts[j] == OPEN && Here(ts, j + 1, rest)
      && (if widget == "" then ts[i + 1].kind == LBrace else ts[i + 1] == Lexeme(Identifier, widget))
  {
    hide Here, Match;
    HereFirst(ts, i, CREATE, Named(widget) + ([OPEN] + rest));
    NamedRead(ts, i + 1, widget, [OPEN] + rest);
    HereFirst(ts, i + 1 + |Named(widget)|, OPEN, rest);
  }

  lemma {:induction false} WidgetPartsRead(ts: Tokens, i: nat, widget: string, entries: seq<Entry>, close: nat)
    requires Here(ts, i, [CREATE] + (Named(widget) + ([OPEN] + EntriesTail(entries, close))))
    ensures
      var before: map<string, string> := if widget == "" then map[] else map["widget_type" := widget];
      var next := i + 2 + |Named(widget)| + |EntriesTail(entries, close)|;
      && next <= |ts| && ts[i] == CREATE
      && (next < |ts| ==> Widget(ts, i) == Read(Node(WidgetKind(widget), "", Assigned(entries, before), []), next))
  {
    hide EntriesTail, Attributes, Assigned, Here, WidgetKind;
    NoWidget();
    WidgetNameRead(ts, i, widget, EntriesTail(entries, close));
    var before: map<string, string> := if widget == "" then map[] else map["widget_type" := widget];
    EntriesRead(ts, i + 2 + |Named(widget)|, entries, close, before);
  }

  lemma {:induction false} WidgetReads(ts: Tokens, i: nat, s: Stmt)
    requires s.WidgetStmt? && Here(ts, i, StmtTokens(s)) && i + |StmtTokens(s)| < |ts|
    ensures ts[i] == CREATE && Widget(ts, i) == Read(StmtNode(s), i + |StmtTokens(s)|)
  {
    hide EntriesTail, Named, Assigned, Here, Widget, WidgetKind;
    WidgetPartsRead(ts, i, s.widget, s.entries, s.close);
  }

  lemma {:induction false} LightReads(ts: Tokens, i: nat, s: Stmt)
    requires s.LightStmt? && Here(ts, i, StmtTokens(s)) && i + |StmtTokens(s)| < |ts|
    ensures ts[i] == LIGHT && Light(ts, i) == Read(StmtNode(s), i + |StmtTokens(s)|)
  {
    hide ExprTokens, Value, Here, ExprValue;
    HereFirst(ts, i, LIGHT, ExprTokens(s.expr));
    ExprStart(s.expr);
    HereStart(ts, i + 1, ExprTokens(s.expr));
    ExprReads(ts, i + 1, s.expr);
  }

  /** The token after the statement is not taken for a part of it. */
  ghost predicate Ends(ts: Tokens, i: nat, s: Stmt) {
    && i < |ts|
    && match s
       case BareStartup => ts[Skip(ts, i)].kind != Manifest
       case BareNeural(name) => ts[i].kind != Colon && (name == "" ==> ts[i].kind != Identifier)
       case _ => true
  }

  lemma {:induction false} NeuralReads(ts: Tokens, i: nat, name: string, e: Expr)
    requires Here(ts, i, [NEURAL] + (Named(name) + ([COLON] + ExprTokens(e))))
    ensures var k := i + 2 + |Named(name)| + |ExprTokens(e)|;
      k <= |ts| && ts[i] == NEURAL && (k < |ts| ==>
          Thought(ts, i) == Read(Node(Neural, name, map["expression" := ExprValue(e)], []), k))
  {
    hide ExprTokens, Value, Here, ExprValue, Skip, Named, Match;
    ExprStart(e);
    HereFirst(ts, i, NEURAL, Named(name) + ([COLON] + ExprTokens(e)));
    NamedRead(ts, i + 1, name, [COLON] + ExprTokens(e));
    var j := i + 1 + |Named(name)|;
    HereFirst(ts, j, COLON, ExprTokens(e));
    HereFits(ts, j + 1, ExprTokens(e));
    if j + 1 + |ExprTokens(e)| < |ts| {
      ExprReads(ts, j + 1, e);
    }
  }

  lemma {:induction false} BareNeuralReads(ts: Tokens, i: nat, name: string)
    requires Here(ts, i, [NEURAL] + Named(name)) && Ends(ts, i + 1 + |Named(name)|, BareNeural(name))
    ensures ts[i] == NEURAL && Thought(ts, i) == Read(Node(Neural, name, map[], []), i + 1 + |Named(name)|)
  {
    hide Value, Here, Skip;
    HereFirst(ts, i, NEURAL, Named(name));
    if name != "" {
      HereStart(ts, i + 1, Named(name));
    }
  }

  lemma {:induction false} ThoughtReads(ts: Tokens, i: nat, s: Stmt)
    requires (s.NeuralStmt? || s.BareNeural?) && Here(ts, i, StmtTokens(s)) && Ends(ts, i + |StmtTokens(s)|, s)
    ensures ts[i] == NEURAL && Thought(ts, i) == Read(StmtNode(s), i + |StmtTokens(s)|)
  {
    hide ExprTokens, Here, ExprValue, Named, Skip, Thought;
    if s.NeuralStmt? {
      NeuralReads(ts, i, s.name, s.expr);
    } else {
      BareNeuralReads(ts, i, s.name);
    }
  }

  // ---------- reading manifests back ----------

  function AddTypes(attributes: map<string, string>, types: seq<Lexeme>): map<string, string> {
    if types == [] then attributes else attributes["return_type" := Get(attributes, "return_type") + TypeText(types)]
  }

  lemma AddTypesMore(attributes: map<string, string>, types: seq<Lexeme>)
    requires types != []
    ensures AddTypes(AddType(attributes, types[0].value), types[1..]) == AddTypes(attributes, types)
  {
    var old0, value := Get(attributes, "return_type"), types[0].value;
    assert old0 + (value + " ") + TypeText(types[1..]) == old0 + (value + " " + TypeText(types[1..]));
    if types[1..] == [] {
      assert value + " " + "" == value + " ";
    }
  }

  lemma {:induction false} TypesRead(ts: Tokens, i: nat, types: seq<Lexeme>, attributes: map<string, string>)
    requires forall k | 0 <= k < |types| :: types[k].kind in {Identifier, At}
    requires Here(ts, i, types) && i + |types| < |ts| && ts[i + |types|].kind == LBrace
    ensures Types(ts, i, attributes) == Done(AddTypes(attributes, types), i + |types|)
    decreases types
  {
    hide AddType, Here, TypeText;
    TypesStep(ts, i, attributes);
    if types != [] {
      assert types == [types[0]] + types[1..];
      HereFirst(ts, i, types[0], types[1..]);
      AddTypesMore(attributes, types);
      TypesRead(ts, i + 1, types[1..], AddType(attributes, types[0].value));
    }
  }

  lemma {:induction false} ArrowRead(ts: Tokens, j: nat, types: seq<Lexeme>, rest: seq<Lexeme>)
    requires forall k | 0 <= k < |types| :: types[k].kind in {Identifier, At}
    requires Here(ts, j, TypeTokens(types) + rest) && rest != [] && rest[0] == OPEN
    ensures var k := j + |TypeTokens(types)|;
      && k < |ts| && Here(ts, k, rest) && ts[j].kind == (if types == [] then LBrace else Arrow)
      && (types == [] ==> k == j)
      && (types != [] ==> Types(ts, j + 1, map[]) == Done(map["return_type" := TypeText(types)], k))
  {
    hide Here, Types, TypeText;
    HereSplit(ts, j, TypeTokens(types), rest);
    HereStart(ts, j + |TypeTokens(types)|, rest);
    if types != [] {
      HereFirst(ts, j, ARROW, types);
      TypesRead(ts, j + 1, types, map[]);
      assert "" + TypeText(types) == TypeText(types);
    }
  }

  lemma {:induction false} HeaderReads(ts: Tokens, i: nat, b: Block, rest: seq<Lexeme>)
    requires forall k | 0 <= k < |b.types| :: b.types[k].kind in {Identifier, At}
    requires Here(ts, i, [MANIFEST] + (Named(b.name) + (TypeTokens(b.types) + rest))) && rest != [] && rest[0] == OPEN
    ensures var k := i + 1 + |Named(b.name)| + |TypeTokens(b.types)|;
      k < |ts| && ts[i] == MANIFEST && Here(ts, k, rest) && Header(ts, i) == Done(BlockNode(b).(children := []), k)
  {
    hide Here, Types, TypeText, ClauseNodes, TypeTokens, Named, Match;
    var after := TypeTokens(b.types) + rest;
    HereFirst(ts, i, MANIFEST, Named(b.name) + after);
    AfterName(b.types, rest);
    NamedRead(ts, i + 1, b.name, after);
    ArrowRead(ts, i + 1 + |Named(b.name)|, b.types, rest);
  }

  lemma AfterName(types: seq<Lexeme>, rest: seq<Lexeme>)
    requires rest != [] && rest[0] == OPEN
    ensures var after := TypeTokens(types) + rest; after != [] && after[0].kind != Identifier
  {
  }

  // ---------- breaks between statements ----------

  lemma {:induction false} BodySkip(ts: Tokens, i: nat, children: seq<Node>)
    requires i < |ts|
    ensures Body(ts, i, children) == Body(ts, Skip(ts, i), children)
  {
    hide ManifestAt, StartupAt, Widget, Light, Thought;
    var j := Skip(ts, i);
    if ts[j].kind == EndOfFile {
      assert children + [] == children;
    }
  }

  lemma {:induction false} SemiStep(ts: Tokens, i: nat, children: seq<Node>)
    requires i < |ts| && ts[i] == SEMI
    ensures Body(ts, i, children) == Body(ts, i + 1, children)
  {
    hide ManifestAt, StartupAt, Widget, Light, Thought, Body;
    BodyStep(ts, i, children);
    assert Statement(ts, i) == Done([], i + 1);
    assert children + [] == children;
  }

  lemma {:induction false} BodyBreaks(ts: Tokens, i: nat, gap: seq<Break>, rest: seq<Lexeme>, children: seq<Node>)
    requires Here(ts, i, Breaks(gap) + rest) && rest != []
    ensures i + |gap| < |ts| && Here(ts, i + |gap|, rest) && Body(ts, i, children) == Body(ts, i + |gap|, children)
    decreases gap
  {
    hide Here, Body, Skip;
    if gap == [] {
      assert Breaks(gap) + rest == rest;
      HereStart(ts, i, rest);
    } else {
      assert Breaks(gap) + rest == [BreakToken(gap[0])] + (Breaks(gap[1..]) + rest);
      HereFirst(ts, i, BreakToken(gap[0]), Breaks(gap[1..]) + rest);
      BodyBreaks(ts, i + 1, gap[1..], rest, children);
      if gap[0].Line? {
        BodySkip(ts, i, children);
        BodySkip(ts, i + 1, children);
        LineStep(ts, i);
      } else {
        SemiStep(ts, i, children);
      }
    }
  }

  lemma {:induction false} LineStep(ts: Tokens, i: nat)
    requires i < |ts| && ts[i].kind == Newline
    ensures Skip(ts, i) == Skip(ts, i + 1)
  {
  }

  /** Line breaks lead to the first semicolon of the gap, or past the gap. */
  lemma {:induction false} SkipGap(ts: Tokens, i: nat, gap: seq<Break>)
    requires Here(ts, i, Breaks(gap)) && i + |gap| < |ts| && ts[i + |gap|].kind != Newline
    ensures if Semi in gap then ts[Skip(ts, i)] == SEMI else Skip(ts, i) == i + |gap|
    decreases gap
  {
    hide Here, Skip, Breaks;
    SkipKind(ts, i);
    if gap != [] {
      BreaksSplit(gap);
      HereFirst(ts, i, BreakToken(gap[0]), Breaks(gap[1..]));
      assert gap == [gap[0]] + gap[1..];
      if gap[0].Line? {
        LineStep(ts, i);
        SkipGap(ts, i + 1, gap[1..]);
      }
    }
  }

  lemma BreaksSplit(gap: seq<Break>)
    requires gap != []
    ensures Breaks(gap) == [BreakToken(gap[0])] + Breaks(gap[1..])
  {
  }

  function FirstKind(s: Stmt): Kind {
    match s
    case ManifestStmt(_) => Manifest
    case WidgetStmt(_, _, _) => Create
    case StartupStmt(_, _) => At
    case BareStartup => At
    case _ => Identifier
  }

  lemma StmtStart(s: Stmt)
    ensures StmtTokens(s) != [] && StmtTokens(s)[0].kind == FirstKind(s)
  {
    hide ExprTokens, EntriesTail, ClausesTokens;
  }

  /** What may come after a list of statements: a brace, the end, or a statement that a semicolon
      keeps apart from each of them. */
  predicate Parted(clauses: seq<Clause>, after: seq<Lexeme>) {
    && after != [] && after[0].kind !in {Newline, Colon}
    && (after[0].kind in {RBrace, EndOfFile} || forall k | 0 <= k < |clauses| :: Semi in clauses[k].gap)
  }

  lemma ClausesStart(clauses: seq<Clause>, after: seq<Lexeme>)
    requires after != []
    ensures var all := ClausesTokens(clauses) + after;
      all != [] && all[0].kind == if clauses == [] then after[0].kind else FirstKind(clauses[0].stmt)
  {
    hide StmtTokens;
    if clauses != [] {
      StmtStart(clauses[0].stmt);
    }
  }

  lemma {:induction false} EndsBefore(ts: Tokens, i: nat, clause: Clause, rest: seq<Clause>, after: seq<Lexeme>)
    requires Apart(clause, rest) && Parted([clause] + rest, after)
    requires Here(ts, i, Breaks(clause.gap) + (ClausesTokens(rest) + after))
    ensures Ends(ts, i, clause.stmt)
  {
    hide Here, Skip, ClausesTokens;
    var all := ClausesTokens(rest) + after;
    ClausesStart(rest, after);
    assert ([clause] + rest)[0] == clause;
    HereSplit(ts, i, Breaks(clause.gap), all);
    HereStart(ts, i + |clause.gap|, all);
    SkipGap(ts, i, clause.gap);
    if clause.gap != [] {
      HereStart(ts, i, Breaks(clause.gap));
    }
    SkipKind(ts, i);
  }

  // ---------- reading statements back ----------

  lemma {:induction false} BlockReads(ts: Tokens, i: nat, b: Block)
    requires GoodBlock(b) && Here(ts, i, BlockTokens(b)) && i + |BlockTokens(b)| < |ts|
    ensures ts[i] == MANIFEST && ManifestAt(ts, i) == Done(BlockNode(b), i + |BlockTokens(b)|)
    decreases b, 0
  {
    hide Here, Header, Body, Skip, ClausesTokens, GoodClauses;
    var inside := ClausesTokens(b.clauses) + [CLOSE];
    HeaderReads(ts, i, b, [OPEN] + (Breaks(b.lead) + inside));
    var j := i + 1 + |Named(b.name)| + |TypeTokens(b.types)|;
    HereFirst(ts, j, OPEN, Breaks(b.lead) + inside);
    BodyBreaks(ts, j + 1, b.lead, inside, []);
    ClausesRead(ts, j + 1 + |b.lead|, b.clauses, [CLOSE], []);
    var end := j + 1 + |b.lead| + |ClausesTokens(b.clauses)|;
    HereStart(ts, end, [CLOSE]);
    BodyStep(ts, end, ClauseNodes(b.clauses));
    assert [] + ClauseNodes(b.clauses) == ClauseNodes(b.clauses);
  }

  /** The statements without blocks. */
  lemma {:induction false} PlainStmtReads(ts: Tokens, i: nat, s: Stmt)
    requires !s.ManifestStmt? && !s.StartupStmt? && Here(ts, i, StmtTokens(s)) && Ends(ts, i + |StmtTokens(s)|, s)
    ensures ts[i].kind == FirstKind(s)
    ensures var r := Statement(ts, i);
      r.Done? && r.value == [StmtNode(s)] && Skip(ts, r.next) == Skip(ts, i + |StmtTokens(s)|)
  {
    hide Here, Widget, Light, Thought, ManifestAt, StartupAt, ExprTokens, EntriesTail, StmtNode, Skip;
    match s
    case WidgetStmt(_, _, _) => WidgetReads(ts, i, s);
    case LightStmt(_) => LightReads(ts, i, s);
    case NeuralStmt(_, _) => ThoughtReads(ts, i, s);
    case BareNeural(_) => ThoughtReads(ts, i, s);
    case BareStartup =>
      HereStart(ts, i, [STARTUP]);
      BareStartupReads(ts, i);
      assert StmtNode(s) == Node(Startup, "", map[], []) by {
        BareNode();
      }
  }

  lemma BareNode()
    ensures StmtNode(BareStartup) == Node(Startup, "", map[], [])
  {
  }

  lemma {:induction false} StmtReads(ts: Tokens, i: nat, s: Stmt)
    requires GoodStmt(s) && Here(ts, i, StmtTokens(s)) && Ends(ts, i + |StmtTokens(s)|, s)
    ensures ts[i].kind == FirstKind(s)
    ensures var r := Statement(ts, i);
      r.Done? && r.value == [StmtNode(s)] && Skip(ts, r.next) == Skip(ts, i + |StmtTokens(s)|)
    decreases s
  {
    hide Here, Widget, Light, Thought, ManifestAt, StartupAt, BlockTokens, BlockNode, ExprTokens, EntriesTail,
        GoodBlock, Skip;
    match s
    case ManifestStmt(block) => BlockReads(ts, i, block);
    case StartupStmt(lines, block) => StartupReads(ts, i, lines, block);
    case _ => PlainStmtReads(ts, i, s);
  }

  lemma {:induction false} BareStartupReads(ts: Tokens, i: nat)
    requires i + 1 < |ts| && ts[i] == STARTUP && ts[Skip(ts, i + 1)].kind != Manifest
    ensures StartupAt(ts, i) == Done(Node(Startup, "", map[], []), Skip(ts, i + 1))
    ensures Skip(ts, Skip(ts, i + 1)) == Skip(ts, i + 1)
  {
  }

  lemma {:induction false} StartupReads(ts: Tokens, i: nat, lines: nat, b: Block)
    requires GoodBlock(b) && Here(ts, i, [STARTUP] + (Lines(lines) + BlockTokens(b)))
        && i + 1 + lines + |BlockTokens(b)| < |ts|
    ensures ts[i] == STARTUP && StartupAt(ts, i) ==
        Done(Node(Startup, "", map[], [BlockNode(b)]), i + 1 + lines + |BlockTokens(b)|)
    decreases b, 1
  {
    hide Here, BlockTokens, BlockNode, GoodBlock, ManifestAt, Skip;
    HereFirst(ts, i, STARTUP, Lines(lines) + BlockTokens(b));
    BlockStart(b);
    LinesRead(ts, i + 1, lines, BlockTokens(b));
    BlockReads(ts, i + 1 + lines, b);
  }

  lemma BlockStart(b: Block)
    ensures BlockTokens(b) != [] && BlockTokens(b)[0] == MANIFEST
  {
    hide ClausesTokens;
  }

  /** A list of statements is read in order, and the body goes on behind it. */
  lemma {:induction false} ClausesRead(ts: Tokens, i: nat, clauses: seq<Clause>, after: seq<Lexeme>,
      children: seq<Node>)
    requires GoodClauses(clauses) && Parted(clauses, after) && Here(ts, i, ClausesTokens(clauses) + after)
    ensures var next := i + |ClausesTokens(clauses)|;
      next < |ts| && Here(ts, next, after) && Body(ts, i, children) == Body(ts, next, children + ClauseNodes(clauses))
    decreases clauses
  {
    hide Here, Skip, Body, StmtTokens, StmtNode, GoodStmt, Apart, Ends;
    if clauses == [] {
      assert ClausesTokens(clauses) + after == after;
      HereStart(ts, i, after);
      assert children + [] == children;
    } else {
      var clause, rest := clauses[0], clauses[1..];
      assert [clause] + rest == clauses;
      ClauseReads(ts, i, clause, rest, after, children);
      var k := i + |StmtTokens(clause.stmt)| + |clause.gap|;
      ClausesRead(ts, k, rest, after, children + [StmtNode(clause.stmt)]);
      assert children + [StmtNode(clause.stmt)] + ClauseNodes(rest) == children + ClauseNodes(clauses);
    }
  }

  /** One statement and the breaks after it. */
  lemma {:induction false} ClauseReads(ts: Tokens, i: nat, clause: Clause, rest: seq<Clause>, after: seq<Lexeme>,
      children: seq<Node>)
    requires GoodStmt(clause.stmt) && Apart(clause, rest) && Parted([clause] + rest, after)
    requires Here(ts, i, ClausesTokens([clause] + rest) + after)
    ensures var k := i + |StmtTokens(clause.stmt)| + |clause.gap|;
      && k < |ts| && Here(ts, k, ClausesTokens(rest) + after)
      && Body(ts, i, children) == Body(ts, k, children + [StmtNode(clause.stmt)])
    decreases clause
  {
    hide Here, Skip, Statement, StmtTokens, StmtNode, GoodStmt, Apart, Ends, Body;
    var all := ClausesTokens(rest) + after;
    assert ([clause] + rest)[1..] == rest;
    assert ClausesTokens([clause] + rest) + after == StmtTokens(clause.stmt) + (Breaks(clause.gap) + all);
    HereSplit(ts, i, StmtTokens(clause.stmt), Breaks(clause.gap) + all);
    var e := i + |StmtTokens(clause.stmt)|;
    EndsBefore(ts, e, clause, rest, after);
    StmtReads(ts, i, clause.stmt);
    BodyGoesOn(ts, i, clause.stmt, e, children);
    BodyBreaks(ts, e, clause.gap, all, children + [StmtNode(clause.stmt)]);
  }

  /** The body loop behind a statement that was read. */
  lemma {:induction false} BodyGoesOn(ts: Tokens, i: nat, s: Stmt, e: nat, children: seq<Node>)
    requires i < |ts| && e < |ts| && ts[i].kind == FirstKind(s)
    requires var r := Statement(ts, i); r.Done? && r.value == [StmtNode(s)] && Skip(ts, r.next) == Skip(ts, e)
    ensures Body(ts, i, children) == Body(ts, e, children + [StmtNode(s)])
  {
    hide Skip, Statement, StmtNode, Body;
    SkipKind(ts, i);
    BodyStep(ts, i, children);
    BodySkip(ts, Statement(ts, i).next, children + [StmtNode(s)]);
    BodySkip(ts, e, children + [StmtNode(s)]);
  }

  // ---------- whole programs ----------

  /** A body that runs to the end of the tokens is what the top level reads. */
  lemma {:induction false} ProgramIsBody(ts: Tokens, i: nat, children: seq<Node>)
    requires i < |ts| && var r := Body(ts, i, children); r.Done? && ts[r.next].kind == EndOfFile
    ensures Program(ts, i, children) == Body(ts, i, children)
    decreases |ts| - i
  {
    hide Program, Body, Statement, Skip;
    BodyStep(ts, i, children);
    ProgramStep(ts, i, children);
    if ts[i].kind != EndOfFile {
      var j := Skip(ts, i);
      var r := Statement(ts, j);
      if ts[j].kind == EndOfFile {
        AtEnd(ts, j, children);
      } else {
        ProgramIsBody(ts, r.next, children + r.value);
      }
    }
  }

  lemma {:induction false} AtEnd(ts: Tokens, j: nat, children: seq<Node>)
    requires j < |ts| && ts[j].kind == EndOfFile
    ensures Statement(ts, j) == Done([], j) && Body(ts, j, children + []) == Done(children, j)
  {
    hide Statement, Body;
    NothingAtEnd(ts, j);
    BodyStep(ts, j, children);
    assert children + [] == children;
  }

  lemma {:induction false} NothingAtEnd(ts: Tokens, j: nat)
    requires j < |ts| && ts[j].kind == EndOfFile
    ensures Statement(ts, j) == Done([], j)
  {
    hide ManifestAt, StartupAt, Widget, Light, Thought;
  }

  function ProgramTokens(lead: seq<Break>, clauses: seq<Clause>): seq<Lexeme> {
    Breaks(lead) + (ClausesTokens(clauses) + [EOF])
  }

  lemma ProgramEnds(lead: seq<Break>, clauses: seq<Clause>)
    ensures var ts := ProgramTokens(lead, clauses); ts != [] && ts[|ts| - 1] == EOF
  {
    hide ClausesTokens;
  }

  /** Every canonical program, at any nesting and with any breaks, is read back as exactly
      the trees it stands for. */
  lemma ProgramReads(lead: seq<Break>, clauses: seq<Clause>)
    requires GoodClauses(clauses)
    ensures ProgramTokens(lead, clauses)[|ProgramTokens(lead, clauses)| - 1] == EOF
    ensures Program(ProgramTokens(lead, clauses), 0, []) ==
        Done(ClauseNodes(clauses), |ProgramTokens(lead, clauses)| - 1)
  {
    hide Here, Body, ClausesTokens, ClauseNodes, GoodClauses, Program;
    ProgramEnds(lead, clauses);
    var ts: Tokens := ProgramTokens(lead, clauses);
    Whole(ts);
    BodyBreaks(ts, 0, lead, ClausesTokens(clauses) + [EOF], []);
    ClausesRead(ts, |lead|, clauses, [EOF], []);
    HereStart(ts, |lead| + |ClausesTokens(clauses)|, [EOF]);
    BodyStep(ts, |lead| + |ClausesTokens(clauses)|, ClauseNodes(clauses));
    assert [] + ClauseNodes(clauses) == ClauseNodes(clauses);
    ProgramIsBody(ts, 0, []);
  }

  lemma Whole(ts: seq<Lexeme>)
    ensures Here(ts, 0, ts)
  {
    assert ts[0..0 + |ts|] == ts;
  }

  /** So the parser returns on all of them. */
  lemma ProgramReturns(lead: seq<Break>, clauses: seq<Clause>)
    requires GoodClauses(clauses)
    ensures ProgramTokens(lead, clauses)[|ProgramTokens(lead, clauses)| - 1] == EOF
    ensures FateOf(ProgramTokens(lead, clauses), 0).Returns?
  {
    hide ProgramTokens, FateOf, Program, GoodClauses, ClauseNodes;
    ProgramReads(lead, clauses);
    ParserReturnsIff(ProgramTokens(lead, clauses));
  }
}
