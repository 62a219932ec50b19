/** Which trees the parser builds, and how each of them is written down again. */
module Trees {
  import opened Lexer
  import opened Parser
  import opened Surface

  ghost predicate Name(name: string) {
    Valid(Lexeme(Identifier, name))
  }

  ghost predicate TypesValid(types: seq<Lexeme>) {
    forall k | 0 <= k < |types| :: types[k].kind in {Identifier, At} && Valid(types[k])
  }

  ghost predicate TypesWrite(types: seq<Lexeme>, attributes: map<string, string>) {
    TypesValid(types) && attributes == AddTypes(map[], types)
  }

  predicate IsWidget(kind: NodeType) {
    kind !in {ManifestNode, Startup, ReturnLight, Neural, Emotion3D}
  }

  /** The trees of programs. */
  ghost predicate Canonical(n: Node) {
    match n.kind
    case ManifestNode =>
      && (n.name == "" || Name(n.name))
      && (exists types :: TypesWrite(types, n.attributes))
      && forall k | 0 <= k < |n.children| :: Canonical(n.children[k])
    case Startup =>
      && n.name == "" && n.attributes == map[] && |n.children| <= 1
      && forall k | 0 <= k < |n.children| :: n.children[k].kind == ManifestNode && Canonical(n.children[k])
    case ReturnLight => n.name == "" && n.attributes.Keys == {"value"} && n.children == []
    case Neural => (n.name == "" || Name(n.name)) && n.attributes.Keys <= {"expression"} && n.children == []
    case _ =>
      && IsWidget(n.kind) && n.name == "" && n.children == []
      && (n.kind != CreateNode ==> "widget_type" in n.attributes)
      && forall key | key in n.attributes :: Name(key)
  }

  ghost predicate AllCanonical(ns: seq<Node>) {
    forall k | 0 <= k < |ns| :: Canonical(ns[k])
  }

  // ---------- writing trees down ----------

  /** The word that names a widget's kind. */
  function KindName(kind: NodeType): string {
    match kind
    case RadiantHeading => "RADIANT_HEADING"
    case RadiantText => "RADIANT_TEXT"
    case RadiantButton => "RADIANT_BUTTON"
    case ConstellationList => "CONSTELLATION_LIST"
    case RadiantQuote => "RADIANT_QUOTE"
    case GcodeBlock => "GCODE_BLOCK"
    case BambuPrinter => "BAMBU_PRINTER"
    case SocialEmbed => "SOCIAL_EMBED"
    case _ => ""
  }

  lemma KindNameNames(kind: NodeType)
    requires IsWidget(kind)
    ensures WidgetKind(KindName(kind)) == kind && (kind == CreateNode <==> KindName(kind) == "")
  {
    assert "RADIANT_QUOTE"[0] != "BAMBU_PRINTER"[0];
    assert "RADIANT_TEXT"[0] != "SOCIAL_EMBED"[0];
  }

  /** The attributes in some order, each with its comma. */
  ghost function Entries(attributes: map<string, string>): seq<Entry>
    decreases |attributes|
  {
    if attributes == map[] then []
    else
      var key :| key in attributes;
      [Entry(0, key, Quoted(attributes[key]), true)] + Entries(attributes - {key})
  }

  lemma {:induction false} EntriesAssign(attributes: map<string, string>, before: map<string, string>)
    ensures Assigned(Entries(attributes), before) == before + attributes
    decreases |attributes|
  {
    if attributes == map[] {
      assert before + attributes == before;
    } else {
      var entries := Entries(attributes);
      var key := entries[0].key;
      assert entries[1..] == Entries(attributes - {key});
      EntriesAssign(attributes - {key}, before[key := attributes[key]]);
      hide Entries;
      OneByOne(attributes, before, key);
    }
  }

  lemma OneByOne(attributes: map<string, string>, before: map<string, string>, key: string)
    requires key in attributes
    ensures before[key := attributes[key]] + (attributes - {key}) == before + attributes
  {
  }

  ghost function WriteBlock(n: Node): Block
    requires n.kind == ManifestNode && Canonical(n)
    decreases n, 0
  {
    var types :| TypesWrite(types, n.attributes);
    Surface.Block.Block(n.name, types, [], WriteChildren(n, 0))
  }

  ghost function WriteChildren(n: Node, k: nat): seq<Clause>
    requires k <= |n.children| && forall j | 0 <= j < |n.children| :: Canonical(n.children[j])
    decreases n, 0, |n.children| - k
  {
    if k == |n.children| then [] else [Clause(Write(n.children[k]), [Semi])] + WriteChildren(n, k + 1)
  }

  ghost function Write(n: Node): Stmt
    requires Canonical(n)
    decreases n, 1
  {
    match n.kind
    case ManifestNode => ManifestStmt(WriteBlock(n))
    case Startup => if n.children == [] then BareStartup else StartupStmt(0, WriteBlock(n.children[0]))
    case ReturnLight => LightStmt(Quoted(n.attributes["value"]))
    case Neural =>
      if "expression" in n.attributes
      then NeuralStmt(n.name, Quoted(n.attributes["expression"]))
      else BareNeural(n.name)
    case _ => WidgetStmt(KindName(n.kind), Entries(n.attributes), 0)
  }

  lemma WidgetWrites(n: Node)
    requires Canonical(n) && IsWidget(n.kind)
    ensures StmtNode(Write(n)) == n && GoodStmt(Write(n))
  {
    hide Assigned, Entries, WidgetKind, KindName;
    KindNameNames(n.kind);
    var word := KindName(n.kind);
    var before: map<string, string> := if word == "" then map[] else map["widget_type" := word];
    EntriesAssign(n.attributes, before);
    assert before + n.attributes == n.attributes;
  }

  lemma {:induction false} BlockWrites(n: Node)
    requires Canonical(n) && n.kind == ManifestNode
    ensures BlockNode(WriteBlock(n)) == n && GoodBlock(WriteBlock(n))
    decreases n, 0
  {
    hide GoodClauses, ClauseNodes, WriteChildren, Canonical, TypeText;
    ChildrenAt(n);
    ChildrenWrite(n, 0);
    var types := WriteBlock(n).types;
    assert "" + TypeText(types) == TypeText(types);
    assert n.children[0..] == n.children;
  }

  lemma ChildrenAt(n: Node)
    requires Canonical(n) && n.kind in {ManifestNode, Startup}
    ensures forall j | 0 <= j < |n.children| :: Canonical(n.children[j])
  {
  }

  lemma {:induction false} ChildrenWrite(n: Node, k: nat)
    requires k <= |n.children| && forall j | 0 <= j < |n.children| :: Canonical(n.children[j])
    ensures ClauseNodes(WriteChildren(n, k)) == n.children[k..] && GoodClauses(WriteChildren(n, k))
    decreases n, 0, |n.children| - k
  {
    hide StmtNode, GoodStmt, Canonical, Write;
    if k < |n.children| {
      WriteReads(n.children[k]);
      ChildrenWrite(n, k + 1);
      var clauses := WriteChildren(n, k);
      assert clauses[0] == Clause(Write(n.children[k]), [Semi]) && clauses[1..] == WriteChildren(n, k + 1);
    }
  }

  /** What a tree is written as stands for that tree. */
  lemma {:induction false} WriteReads(n: Node)
    requires Canonical(n)
    ensures StmtNode(Write(n)) == n && GoodStmt(Write(n))
    decreases n, 1
  {
    hide WriteBlock, BlockNode, GoodBlock, Assigned, Entries, WidgetKind, KindName;
    if IsWidget(n.kind) {
      WidgetWrites(n);
    } else if n.kind == ManifestNode {
      BlockWrites(n);
    } else if n.kind == Startup {
      if n.children != [] {
        BlockWrites(n.children[0]);
        assert n.children == [n.children[0]];
      }
    } else {
      LeafWrites(n);
    }
  }

  lemma LeafWrites(n: Node)
    requires Canonical(n) && n.kind in {ReturnLight, Neural}
    ensures StmtNode(Write(n)) == n && GoodStmt(Write(n))
  {
    if n.kind == ReturnLight {
      assert n.attributes == map["value" := n.attributes["value"]];
    } else if "expression" in n.attributes {
      assert n.attributes == map["expression" := n.attributes["expression"]];
    } else {
      assert n.attributes == map[];
    }
  }

  ghost function ForestTokens(ns: seq<Node>): seq<Lexeme>
    requires AllCanonical(ns)
  {
    ProgramTokens([], WriteChildren(Root(ns), 0))
  }

  /** For every forest of canonical trees, the parser reads its tokens back as exactly that forest. */
  lemma ForestReadsBack(ns: seq<Node>)
    requires AllCanonical(ns)
    ensures var ts := ForestTokens(ns);
      ts != [] && ts[|ts| - 1] == EOF && Program(ts, 0, []) == Done(ns, |ts| - 1)
  {
    hide Canonical, ProgramTokens, Program, GoodClauses, ClauseNodes, WriteChildren;
    ProgramEnds([], WriteChildren(Root(ns), 0));
    ChildrenWrite(Root(ns), 0);
    ProgramReads([], WriteChildren(Root(ns), 0));
    assert Root(ns).children[0..] == ns;
  }

  // ---------- every token written is valid ----------

  ghost predicate AllValid(ts: seq<Lexeme>) {
    forall k | 0 <= k < |ts| :: Valid(ts[k])
  }

  lemma ValidConcat(a: seq<Lexeme>, b: seq<Lexeme>)
    requires AllValid(a) && AllValid(b)
    ensures AllValid(a + b)
  {
    hide Valid;
  }

  lemma ValidNamed(name: string)
    requires name == "" || Name(name)
    ensures AllValid(Named(name))
  {
    hide Valid;
  }

  lemma WordsValid()
    ensures Valid(LIGHT) && Valid(NEURAL) && Valid(STARTUP) && Name("widget_type")
  {
    hide Valid;
    ShortWordsValid();
    LongWordsValid();
  }

  lemma ShortWordsValid()
    ensures Valid(NEURAL) && Valid(STARTUP)
  {
  }

  lemma LongWordsValid()
    ensures Valid(LIGHT) && Name("widget_type")
  {
  }

  lemma MarksValid()
    ensures Valid(MANIFEST) && Valid(CREATE) && Valid(ARROW) && Valid(OPEN) && Valid(CLOSE) && Valid(COLON)
        && Valid(COMMA) && Valid(SEMI)
  {
  }

  lemma {:induction false} EntriesValid(attributes: map<string, string>)
    requires forall key | key in attributes :: Name(key)
    ensures AllValid(EntriesTail(Entries(attributes), 0))
    decreases |attributes|
  {
    hide Valid;
    MarksValid();
    if attributes == map[] {
      assert Lines(0) == [];
    } else {
      var entries := Entries(attributes);
      var e := entries[0];
      assert entries[1..] == Entries(attributes - {e.key});
      EntriesValid(attributes - {e.key});
      EntryValid(e.key, attributes[e.key], EntriesTail(entries[1..], 0));
    }
  }

  lemma EntryValid(key: string, text: string, tail: seq<Lexeme>)
    requires Name(key) && AllValid(tail)
    ensures AllValid(Lines(0) + ([Lexeme(Identifier, key)]
        + ([COLON] + (ExprTokens(Quoted(text)) + (Optional(true, COMMA) + tail)))))
  {
    MarksValid();
    assert Valid(Lexeme(String, text));
    hide Valid;
    ValidConcat([COMMA], tail);
    ValidConcat([Lexeme(String, text)], [COMMA] + tail);
    ValidConcat([COLON], [Lexeme(String, text)] + ([COMMA] + tail));
  }

  lemma {:induction false} BlockValid(n: Node)
    requires Canonical(n) && n.kind == ManifestNode
    ensures AllValid(BlockTokens(WriteBlock(n)))
    decreases n, 0
  {
    hide Valid, Canonical, WriteChildren, ClausesTokens;
    MarksValid();
    ChildrenAt(n);
    NameOf(n);
    ChildrenValid(n, 0);
    ValidNamed(n.name);
    var b := WriteBlock(n);
    ValidConcat(ClausesTokens(b.clauses), [CLOSE]);
    assert Breaks([]) + (ClausesTokens(b.clauses) + [CLOSE]) == ClausesTokens(b.clauses) + [CLOSE];
    var inside := [OPEN] + (Breaks(b.lead) + (ClausesTokens(b.clauses) + [CLOSE]));
    ValidConcat([OPEN], ClausesTokens(b.clauses) + [CLOSE]);
    ValidConcat(TypeTokens(b.types), inside);
    ValidConcat(Named(b.name), TypeTokens(b.types) + inside);
    ValidConcat([MANIFEST], Named(b.name) + (TypeTokens(b.types) + inside));
  }

  lemma NameOf(n: Node)
    requires Canonical(n) && n.kind in {ManifestNode, Neural}
    ensures n.name == "" || Name(n.name)
  {
  }

  lemma {:induction false} ChildrenValid(n: Node, k: nat)
    requires k <= |n.children| && forall j | 0 <= j < |n.children| :: Canonical(n.children[j])
    ensures AllValid(ClausesTokens(WriteChildren(n, k)))
    decreases n, 0, |n.children| - k
  {
    hide Valid, Canonical, Write, StmtTokens;
    if k < |n.children| {
      MarksValid();
      WriteValid(n.children[k]);
      ChildrenValid(n, k + 1);
      var clauses := WriteChildren(n, k);
      assert clauses[0] == Clause(Write(n.children[k]), [Semi]) && clauses[1..] == WriteChildren(n, k + 1);
      ValidConcat(Breaks([Semi]), ClausesTokens(clauses[1..]));
      ValidConcat(StmtTokens(clauses[0].stmt), Breaks([Semi]) + ClausesTokens(clauses[1..]));
    }
  }

  lemma {:induction false} WriteValid(n: Node)
    requires Canonical(n)
    ensures AllValid(StmtTokens(Write(n)))
    decreases n, 1
  {
    hide Valid, WriteBlock, BlockTokens, EntriesTail, KindName;
    if n.kind == ManifestNode {
      BlockValid(n);
    } else if n.kind == Startup {
      WordsValid();
      if n.children != [] {
        BlockValid(n.children[0]);
        ValidConcat([STARTUP], BlockTokens(WriteBlock(n.children[0])));
        assert Lines(0) + BlockTokens(WriteBlock(n.children[0])) == BlockTokens(WriteBlock(n.children[0]));
      }
    } else if IsWidget(n.kind) {
      WidgetValid(n);
    } else {
      LeafValid(n);
    }
  }

  lemma KindNameValid(kind: NodeType)
    ensures KindName(kind) == "" || Name(KindName(kind))
  {
    hide Valid;
    RadiantNamesValid();
    LongNamesValid();
    OtherNamesValid();
  }

  lemma RadiantNamesValid()
    ensures Name("RADIANT_HEADING") && Name("RADIANT_TEXT") && Name("RADIANT_BUTTON") && Name("RADIANT_QUOTE")
  {
  }

  lemma LongNamesValid()
    ensures Name("CONSTELLATION_LIST") && Name("GCODE_BLOCK")
  {
  }

  lemma OtherNamesValid()
    ensures Name("BAMBU_PRINTER") && Name("SOCIAL_EMBED")
  {
  }

  lemma WidgetValid(n: Node)
    requires Canonical(n) && IsWidget(n.kind)
    ensures AllValid(StmtTokens(Write(n)))
  {
    hide Valid, EntriesTail, KindName;
    MarksValid();
    KindNameValid(n.kind);
    EntriesValid(n.attributes);
    ValidNamed(KindName(n.kind));
    var tail := EntriesTail(Entries(n.attributes), 0);
    ValidConcat([OPEN], tail);
    ValidConcat(Named(KindName(n.kind)), [OPEN] + tail);
    ValidConcat([CREATE], Named(KindName(n.kind)) + ([OPEN] + tail));
  }

  lemma QuotedValid(text: string)
    ensures AllValid(ExprTokens(Quoted(text)))
  {
  }

  lemma LeafValid(n: Node)
    requires Canonical(n) && n.kind in {ReturnLight, Neural}
    ensures AllValid(StmtTokens(Write(n)))
  {
    hide Valid, ExprTokens;
    WordsValid();
    MarksValid();
    if n.kind == Neural {
      ValidNamed(n.name);
      if "expression" in n.attributes {
        var e := ExprTokens(Quoted(n.attributes["expression"]));
        QuotedValid(n.attributes["expression"]);
        ValidConcat([COLON], e);
        ValidConcat(Named(n.name), [COLON] + e);
        ValidConcat([NEURAL], Named(n.name) + ([COLON] + e));
      } else {
        ValidConcat([NEURAL], Named(n.name));
      }
    } else {
      QuotedValid(n.attributes["value"]);
      ValidConcat([LIGHT], ExprTokens(Quoted(n.attributes["value"])));
    }
  }

  /** Only valid tokens are written, and one end mark. */
  lemma ForestValid(ns: seq<Node>)
    requires AllCanonical(ns)
    ensures var ts := ForestTokens(ns);
      ts != [] && ts[|ts| - 1] == EOF && AllValid(ts[..|ts| - 1])
  {
    hide Valid, Canonical, ClausesTokens, WriteChildren;
    ChildrenValid(Root(ns), 0);
    var clauses := WriteChildren(Root(ns), 0);
    assert ForestTokens(ns) == ClausesTokens(clauses) + [EOF];
  }

  // ---------- the parser builds nothing else ----------

  /** What the lexer hands over. */
  ghost predicate FromText(ts: Tokens) {
    ts[|ts| - 1] == EOF && forall k | 0 <= k < |ts| - 1 :: Valid(ts[k])
  }

  /** The text does not break off right after `return_light`. */
  predicate Complete(ts: Tokens) {
    |ts| >= 2 ==> ts[|ts| - 2] != LIGHT
  }

  ghost predicate NamesOnly(attributes: map<string, string>) {
    forall key | key in attributes :: Name(key)
  }

  lemma {:induction false} AttributeNames(ts: Tokens, i: nat, attributes: map<string, string>)
    requires FromText(ts) && i < |ts| && NamesOnly(attributes)
    ensures var r := Attribute(ts, i, attributes); NamesOnly(r.value) && attributes.Keys <= r.value.Keys
  {
    hide Value, WordText, WordLexeme;
    if ts[i].kind == Identifier {
      assert ts[i] == Lexeme(Identifier, ts[i].value);
      assert i < |ts| - 1;
    }
  }

  lemma {:induction false} AttributesNames(ts: Tokens, i: nat, attributes: map<string, string>)
    requires FromText(ts) && i < |ts| && NamesOnly(attributes)
    ensures var r := Attributes(ts, i, attributes); NamesOnly(r.value) && attributes.Keys <= r.value.Keys
    decreases |ts| - i
  {
    hide FromText, NamesOnly, Attribute, Attributes, Skip;
    AttributesStep(ts, i, attributes);
    if ts[i].kind !in {RBrace, EndOfFile} && ts[Skip(ts, i)].kind != RBrace {
      AttributeNames(ts, Skip(ts, i), attributes);
      var r := Attribute(ts, Skip(ts, i), attributes);
      SkipKind(ts, i);
      AttributesNames(ts, Match(ts, r.next, Comma), r.value);
    }
  }

  lemma {:induction false} WordName(ts: Tokens, i: nat)
    requires FromText(ts) && i < |ts| && ts[i].kind == Identifier
    ensures Name(ts[i].value) && ts[i].value != ""
  {
    assert i < |ts| - 1;
    assert ts[i] == Lexeme(Identifier, ts[i].value);
  }

  /** No word of a text names the 3D widget: words do not start with a digit. */
  lemma EmotionUnreachable(name: string)
    requires Name(name)
    ensures WidgetKind(name) != Emotion3D && IsWidget(WidgetKind(name))
  {
  }

  lemma {:induction false} WidgetCanonical(ts: Tokens, i: nat)
    requires FromText(ts) && i < |ts| && ts[i].kind == Create
    ensures Canonical(Widget(ts, i).value)
  {
    hide FromText, Attributes, WidgetKind, Name, IsWidget;
    WordsValid();
    var named := ts[i + 1].kind == Identifier;
    var attributes: map<string, string> := if named then map["widget_type" := ts[i + 1].value] else map[];
    var j := if named then i + 2 else i + 1;
    if named {
      WordName(ts, i + 1);
      EmotionUnreachable(ts[i + 1].value);
    } else {
      PlainWidget();
    }
    if ts[j].kind == LBrace {
      AttributesNames(ts, j + 1, attributes);
    }
    var n := Widget(ts, i).value;
    CanonicalWidget(n);
  }

  lemma PlainWidget()
    ensures IsWidget(CreateNode)
  {
  }

  lemma CanonicalWidget(n: Node)
    requires IsWidget(n.kind) && n.name == "" && n.children == [] && NamesOnly(n.attributes)
    requires n.kind != CreateNode ==> "widget_type" in n.attributes
    ensures Canonical(n)
  {
    hide Name;
  }

  /** A tree whose text breaks off right after `return_light`, inside blocks that stay open. */
  ghost predicate BrokenOff(n: Node) {
    match n.kind
    case ReturnLight => n.name == "" && n.attributes == map[] && n.children == []
    case ManifestNode =>
      && (n.name == "" || Name(n.name))
      && (exists types :: TypesWrite(types, n.attributes))
      && n.children != [] && BrokenOff(n.children[|n.children| - 1])
      && forall k | 0 <= k < |n.children| - 1 :: Canonical(n.children[k])
    case Startup =>
      && n.name == "" && n.attributes == map[] && |n.children| == 1
      && n.children[0].kind == ManifestNode && BrokenOff(n.children[0])
    case _ => false
  }

  /** Canonical trees, of which only the last may be broken off. */
  ghost predicate Unfinished(ns: seq<Node>) {
    ns != [] && BrokenOff(ns[|ns| - 1]) && AllCanonical(ns[..|ns| - 1])
  }

  /** What the parser builds up to `next`. */
  ghost predicate Shaped(ts: Tokens, ns: seq<Node>, next: nat) {
    && next < |ts|
    && (AllCanonical(ns) || (Unfinished(ns) && ts[next].kind == EndOfFile && !Complete(ts)))
  }

  ghost predicate NodeShaped(ts: Tokens, n: Node, next: nat) {
    && next < |ts|
    && (Canonical(n) || (BrokenOff(n) && ts[next].kind == EndOfFile && !Complete(ts)))
  }

  lemma {:induction false} OneShaped(ts: Tokens, n: Node, next: nat)
    requires NodeShaped(ts, n, next)
    ensures Shaped(ts, [n], next)
  {
    hide Canonical, BrokenOff, Complete;
    assert [n][..0] == [];
  }

  lemma {:induction false} MoreShaped(ts: Tokens, before: seq<Node>, ns: seq<Node>, next: nat)
    requires AllCanonical(before) && |ns| <= 1 && Shaped(ts, ns, next)
    ensures Shaped(ts, before + ns, next) && (AllCanonical(ns) ==> AllCanonical(before + ns))
  {
    hide Canonical, BrokenOff, Complete;
    if Unfinished(ns) {
      assert (before + ns)[..|before + ns| - 1] == before;
    }
  }

  lemma {:induction false} LightShaped(ts: Tokens, i: nat)
    requires FromText(ts) && i < |ts| && ts[i] == LIGHT
    ensures var r := Light(ts, i); NodeShaped(ts, r.value, r.next)
  {
    hide Value;
    assert ts[i + 1].kind == EndOfFile ==> i + 1 == |ts| - 1;
  }

  lemma {:induction false} ThoughtCanonical(ts: Tokens, i: nat)
    requires FromText(ts) && i < |ts| && ts[i] == NEURAL
    ensures Canonical(Thought(ts, i).value)
  {
    hide Value, FromText, Valid;
    if ts[i + 1].kind == Identifier {
      WordName(ts, i + 1);
    }
  }

  lemma {:induction false} TypeTextAppend(types: seq<Lexeme>, l: Lexeme)
    ensures TypeText(types + [l]) == TypeText(types) + (l.value + " ")
  {
    if types == [] {
      assert l.value + " " + "" == l.value + " ";
    } else {
      TypeTextAppend(types[1..], l);
      assert (types + [l])[1..] == types[1..] + [l];
    }
  }

  lemma AddTypesAppend(types: seq<Lexeme>, l: Lexeme)
    ensures AddTypes(map[], types + [l]) == AddType(AddTypes(map[], types), l.value)
  {
    TypeTextAppend(types, l);
    assert "" + TypeText(types + [l]) == "" + TypeText(types) + (l.value + " ");
  }

  lemma {:induction false} TypesCanonical(ts: Tokens, i: nat, types: seq<Lexeme>)
    requires FromText(ts) && i < |ts| && TypesValid(types)
    ensures var r := Types(ts, i, AddTypes(map[], types)); r.Done? ==> exists all :: TypesWrite(all, r.value)
    decreases |ts| - i
  {
    hide AddTypes, AddType, Valid, TypeText;
    TypesStep(ts, i, AddTypes(map[], types));
    if ts[i].kind in {LBrace, EndOfFile} {
      assert TypesWrite(types, AddTypes(map[], types));
    } else if ts[i].kind in {Identifier, At} {
      AddTypesAppend(types, ts[i]);
      TypesCanonical(ts, i + 1, types + [ts[i]]);
    }
  }

  lemma {:induction false} HeaderCanonical(ts: Tokens, i: nat)
    requires FromText(ts) && i < |ts| && ts[i].kind == Manifest
    ensures var r := Header(ts, i); r.Done? ==> r.value.kind == ManifestNode && Canonical(r.value)
  {
    hide FromText, Types, Valid;
    if ts[i + 1].kind == Identifier {
      WordName(ts, i + 1);
    }
    assert TypesWrite([], map[]);
    var j := Match(ts, i + 1, Identifier);
    if ts[j].kind == Arrow {
      TypesCanonical(ts, j + 1, []);
    }
  }

  lemma {:induction false} ManifestShaped(ts: Tokens, i: nat)
    requires FromText(ts) && i < |ts| && ts[i].kind == Manifest
    ensures var r := ManifestAt(ts, i); r.Done? ==> r.value.kind == ManifestNode && NodeShaped(ts, r.value, r.next)
    decreases |ts| - i, 0
  {
    hide FromText, Header, Body, Complete, Canonical, BrokenOff, Unfinished, AllCanonical;
    HeaderCanonical(ts, i);
    var h := Header(ts, i);
    if h.Done? && ts[h.next].kind == LBrace {
      NoneCanonical();
      BodyShaped(ts, h.next + 1, []);
      var b := Body(ts, h.next + 1, []);
      if b.Done? {
        FilledManifest(h.value, b.value);
      }
    }
  }

  lemma NoneCanonical()
    ensures AllCanonical([])
  {
  }

  lemma FilledManifest(n: Node, children: seq<Node>)
    requires n.kind == ManifestNode && Canonical(n)
    ensures AllCanonical(children) ==> Canonical(n.(children := children))
    ensures Unfinished(children) ==> BrokenOff(n.(children := children))
  {
    hide Name, TypesWrite;
  }

  lemma {:induction false} BodyShaped(ts: Tokens, i: nat, children: seq<Node>)
    requires FromText(ts) && i < |ts| && AllCanonical(children)
    ensures var r := Body(ts, i, children); r.Done? ==> Shaped(ts, r.value, r.next)
    decreases |ts| - i, 2
  {
    hide FromText, Body, AllCanonical, Unfinished, Complete, Statement, Skip;
    BodyStep(ts, i, children);
    if ts[i].kind !in {RBrace, EndOfFile} && ts[Skip(ts, i)].kind != RBrace {
      var j := Skip(ts, i);
      StatementShaped(ts, j);
      var r := Statement(ts, j);
      if r.Done? {
        SkipKind(ts, i);
        MoreShaped(ts, children, r.value, r.next);
        if AllCanonical(r.value) {
          BodyShaped(ts, r.next, children + r.value);
        } else {
          BodyStep(ts, r.next, children + r.value);
        }
      }
    }
  }

  lemma {:induction false} StartupShaped(ts: Tokens, i: nat)
    requires FromText(ts) && i < |ts| && ts[i].kind == At
    ensures var r := StartupAt(ts, i); r.Done? ==> NodeShaped(ts, r.value, r.next)
    decreases |ts| - i, 0
  {
    hide FromText, ManifestAt, Complete, Skip, Name, TypesWrite;
    var j := Skip(ts, i + 1);
    if ts[j].kind == Manifest {
      ManifestShaped(ts, j);
    }
  }

  lemma {:induction false} StatementShaped(ts: Tokens, i: nat)
    requires FromText(ts) && i < |ts|
    ensures var r := Statement(ts, i); r.Done? ==> Shaped(ts, r.value, r.next)
    decreases |ts| - i, 1
  {
    hide FromText, Canonical, BrokenOff, Complete, NodeShaped, Shaped, ManifestAt, StartupAt, Widget, Light, Thought;
    var r := Statement(ts, i);
    if ts[i].kind == Manifest {
      ManifestShaped(ts, i);
    } else if ts[i].kind == Create {
      WidgetCanonical(ts, i);
      CanonicalShaped(ts, Widget(ts, i).value, Widget(ts, i).next);
    } else if ts[i] == STARTUP {
      StartupShaped(ts, i);
    } else if ts[i] == LIGHT {
      LightShaped(ts, i);
    } else if ts[i] == NEURAL {
      ThoughtCanonical(ts, i);
      CanonicalShaped(ts, Thought(ts, i).value, Thought(ts, i).next);
    }
    if r.Done? && r.value != [] {
      OneShaped(ts, r.value[0], r.next);
      assert r.value == [r.value[0]];
    } else if r.Done? {
      NothingShaped(ts, r.next);
    }
  }

  lemma {:induction false} CanonicalShaped(ts: Tokens, n: Node, next: nat)
    requires Canonical(n) && next < |ts|
    ensures NodeShaped(ts, n, next)
  {
  }

  lemma {:induction false} NothingShaped(ts: Tokens, next: nat)
    requires next < |ts|
    ensures Shaped(ts, [], next)
  {
  }

  /** On every text the parser builds canonical trees only, except that the last one may be broken
      off if the text is. */
  lemma {:induction false} ProgramShaped(ts: Tokens, i: nat, children: seq<Node>)
    requires FromText(ts) && i < |ts| && AllCanonical(children)
    ensures var r := Program(ts, i, children); r.Done? ==> Shaped(ts, r.value, r.next)
    decreases |ts| - i
  {
    hide FromText, Program, AllCanonical, Unfinished, Complete, Statement, Skip;
    ProgramStep(ts, i, children);
    if ts[i].kind != EndOfFile && ts[Skip(ts, i)].kind != EndOfFile {
      var j := Skip(ts, i);
      StatementShaped(ts, j);
      var r := Statement(ts, j);
      if r.Done? {
        MoreShaped(ts, children, r.value, r.next);
        if AllCanonical(r.value) {
          ProgramShaped(ts, r.next, children + r.value);
        } else {
          ProgramStep(ts, r.next, children + r.value);
        }
      }
    }
  }

  /** On every complete text the parser builds canonical trees only. */
  lemma {:induction false} ProgramCanonical(ts: Tokens)
    requires FromText(ts) && Complete(ts)
    ensures var r := Program(ts, 0, []); r.Done? ==> AllCanonical(r.value)
  {
    hide FromText, Program, Canonical, Complete;
    ProgramShaped(ts, 0, []);
  }
}
