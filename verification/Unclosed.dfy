/** Programs that break off: the last statement is a `return_light` with nothing behind it,
    inside blocks that no brace closes. */
module Unclosed {
  import opened Lexer
  import opened Parser
  import opened Segments
  import opened Surface
  import opened Trees

  /** A block without its closing brace: statements, then the end of the program. */
  datatype OpenBlock = OpenBlock(name: string, types: seq<Lexeme>, clauses: seq<Clause>, tail: Tail)

  datatype Tail = LightTail | ManifestTail(block: OpenBlock) | StartupTail(block: OpenBlock)

  function OpenTokens(b: OpenBlock): seq<Lexeme> {
    [MANIFEST] + (Named(b.name) + (TypeTokens(b.types) + ([OPEN] + (ClausesTokens(b.clauses) + TailTokens(b.tail)))))
  }

  function TailTokens(t: Tail): seq<Lexeme> {
    match t
    case LightTail => [LIGHT]
    case ManifestTail(block) => OpenTokens(block)
    case StartupTail(block) => [STARTUP] + OpenTokens(block)
  }

  function OpenNode(b: OpenBlock): Node {
    var closed := BlockNode(Surface.Block.Block(b.name, b.types, [], b.clauses));
    closed.(children := ClauseNodes(b.clauses) + [TailNode(b.tail)])
  }

  function TailNode(t: Tail): Node {
    match t
    case LightTail => Node(ReturnLight, "", map[], [])
    case ManifestTail(block) => OpenNode(block)
    case StartupTail(block) => Node(Startup, "", map[], [OpenNode(block)])
  }

  predicate SemiEach(clauses: seq<Clause>) {
    forall k | 0 <= k < |clauses| :: Semi in clauses[k].gap
  }

  predicate GoodOpen(b: OpenBlock) {
    && (forall k | 0 <= k < |b.types| :: b.types[k].kind in {Identifier, At})
    && GoodClauses(b.clauses) && SemiEach(b.clauses) && GoodTail(b.tail)
  }

  predicate GoodTail(t: Tail) {
    match t
    case LightTail => true
    case ManifestTail(block) => GoodOpen(block)
    case StartupTail(block) => GoodOpen(block)
  }

  // ---------- reading them back ----------

  lemma TailStart(t: Tail)
    ensures TailTokens(t) != [] && TailTokens(t)[0].kind in {Identifier, Manifest, At}
  {
    hide ClausesTokens;
  }

  lemma TailParts(clauses: seq<Clause>, t: Tail)
    requires SemiEach(clauses)
    ensures Parted(clauses, TailTokens(t) + [EOF])
  {
    hide TailTokens;
    TailStart(t);
  }

  /** The body loop on a last statement that reaches the end. */
  lemma {:induction false} BodyEnds(ts: Tokens, p: nat, node: Node, e: nat, children: seq<Node>)
    requires p < |ts| && e < |ts| && ts[p].kind in {Identifier, Manifest, At} && ts[e].kind == EndOfFile
    requires Statement(ts, p) == Done([node], e)
    ensures Body(ts, p, children) == Done(children + [node], e)
  {
    hide Statement, Body, Skip;
    SkipKind(ts, p);
    BodyStep(ts, p, children);
    BodyStep(ts, e, children + [node]);
  }

  lemma {:induction false} OpenReads(ts: Tokens, i: nat, b: OpenBlock)
    requires GoodOpen(b) && Here(ts, i, OpenTokens(b) + [EOF])
    ensures var e := i + |OpenTokens(b)|;
      e < |ts| && ts[e] == EOF && ts[i] == MANIFEST && ManifestAt(ts, i) == Done(OpenNode(b), e)
    decreases b, 1
  {
    hide Here, Header, Body, OpenTokens, ClausesTokens, TailTokens, ClauseNodes, TailNode, Named, TypeTokens, TypeText;
    OpenHead(ts, i, b);
    OpenBody(ts, i + 2 + |Named(b.name)| + |TypeTokens(b.types)|, b);
  }

  /** The open block up to its brace. */
  lemma {:induction false} OpenHead(ts: Tokens, i: nat, b: OpenBlock)
    requires GoodOpen(b) && Here(ts, i, OpenTokens(b) + [EOF])
    ensures var j := i + 1 + |Named(b.name)| + |TypeTokens(b.types)|;
      && j < |ts| && ts[i] == MANIFEST && ts[j] == OPEN
      && Here(ts, j + 1, ClausesTokens(b.clauses) + (TailTokens(b.tail) + [EOF]))
      && Header(ts, i) == Done(BlockNode(Surface.Block.Block(b.name, b.types, [], b.clauses)).(children := []), j)
      && i + |OpenTokens(b)| == j + 1 + |ClausesTokens(b.clauses)| + |TailTokens(b.tail)|
  {
    hide Here, Header, ClausesTokens, TailTokens, ClauseNodes, Named, TypeTokens, TypeText, GoodClauses, GoodTail,
        SemiEach;
    var inside := ClausesTokens(b.clauses) + (TailTokens(b.tail) + [EOF]);
    OpenSplit(b);
    HeaderReads(ts, i, Surface.Block.Block(b.name, b.types, [], b.clauses), [OPEN] + inside);
    HereFirst(ts, i + 1 + |Named(b.name)| + |TypeTokens(b.types)|, OPEN, inside);
  }

  /** What stands in it, to the end. */
  lemma {:induction false} OpenBody(ts: Tokens, q: nat, b: OpenBlock)
    requires GoodOpen(b) && Here(ts, q, ClausesTokens(b.clauses) + (TailTokens(b.tail) + [EOF]))
    ensures var e := q + |ClausesTokens(b.clauses)| + |TailTokens(b.tail)|;
      q < |ts| && e < |ts| && ts[e] == EOF && Body(ts, q, []) == Done(ClauseNodes(b.clauses) + [TailNode(b.tail)], e)
    decreases b, 0
  {
    hide Here, Body, Statement, ClausesTokens, TailTokens, GoodClauses, ClauseNodes, TailNode, GoodTail;
    TailParts(b.clauses, b.tail);
    ClausesRead(ts, q, b.clauses, TailTokens(b.tail) + [EOF], []);
    var p := q + |ClausesTokens(b.clauses)|;
    TailReads(ts, p, b.tail);
    TailStart(b.tail);
    HereStart(ts, p, TailTokens(b.tail) + [EOF]);
    assert [] + ClauseNodes(b.clauses) == ClauseNodes(b.clauses);
    BodyEnds(ts, p, TailNode(b.tail), p + |TailTokens(b.tail)|, ClauseNodes(b.clauses));
  }

  lemma OpenSplit(b: OpenBlock)
    ensures OpenTokens(b) + [EOF] ==
            [MANIFEST] + (Named(b.name) + (TypeTokens(b.types)
                + ([OPEN] + (ClausesTokens(b.clauses) + (TailTokens(b.tail) + [EOF])))))
  {
    hide ClausesTokens, TailTokens, Named, TypeTokens;
  }

  lemma {:induction false} TailReads(ts: Tokens, i: nat, t: Tail)
    requires GoodTail(t) && Here(ts, i, TailTokens(t) + [EOF])
    ensures var e := i + |TailTokens(t)|; e < |ts| && ts[e] == EOF && Statement(ts, i) == Done([TailNode(t)], e)
    decreases t
  {
    hide Here, ManifestAt, OpenTokens, OpenNode, GoodOpen, Skip;
    match t
    case LightTail => LightEnds(ts, i);
    case ManifestTail(block) => OpenReads(ts, i, block);
    case StartupTail(block) =>
      assert TailTokens(t) + [EOF] == [STARTUP] + (OpenTokens(block) + [EOF]);
      HereFirst(ts, i, STARTUP, OpenTokens(block) + [EOF]);
      OpenReads(ts, i + 1, block);
      SkipKind(ts, i + 1);
  }

  lemma {:induction false} LightEnds(ts: Tokens, i: nat)
    requires Here(ts, i, [LIGHT] + [EOF])
    ensures i + 1 < |ts| && ts[i + 1] == EOF && Statement(ts, i) == Done([Node(ReturnLight, "", map[], [])], i + 1)
  {
    hide Here;
    HereFirst(ts, i, LIGHT, [EOF]);
    HereStart(ts, i + 1, [EOF]);
  }

  function BrokenTokens(clauses: seq<Clause>, t: Tail): seq<Lexeme> {
    ClausesTokens(clauses) + (TailTokens(t) + [EOF])
  }

  lemma BrokenEnds(clauses: seq<Clause>, t: Tail)
    ensures var ts := BrokenTokens(clauses, t); ts != [] && ts[|ts| - 1] == EOF
  {
    hide ClausesTokens, TailTokens;
  }

  /** Every program that breaks off is read back as exactly the trees it stands for. */
  lemma BrokenReads(clauses: seq<Clause>, t: Tail)
    requires GoodClauses(clauses) && SemiEach(clauses) && GoodTail(t)
    ensures var ts := BrokenTokens(clauses, t);
      ts[|ts| - 1] == EOF && Program(ts, 0, []) == Done(ClauseNodes(clauses) + [TailNode(t)], |ts| - 1)
  {
    hide Here, Body, ClausesTokens, TailTokens, ClauseNodes, TailNode, GoodClauses, GoodTail, Program, Statement;
    BrokenEnds(clauses, t);
    var ts: Tokens := BrokenTokens(clauses, t);
    Whole(ts);
    TailParts(clauses, t);
    ClausesRead(ts, 0, clauses, TailTokens(t) + [EOF], []);
    var p := |ClausesTokens(clauses)|;
    TailReads(ts, p, t);
    TailStart(t);
    HereStart(ts, p, TailTokens(t) + [EOF]);
    assert [] + ClauseNodes(clauses) == ClauseNodes(clauses);
    BodyEnds(ts, p, TailNode(t), p + |TailTokens(t)|, ClauseNodes(clauses));
    ProgramIsBody(ts, 0, []);
  }

  // ---------- writing broken-off trees down ----------

  /** The node without its last child. */
  function Shorter(n: Node): Node
    requires n.children != []
  {
    n.(children := n.children[..|n.children| - 1])
  }

  ghost function WriteOpen(n: Node): OpenBlock
    requires n.kind == ManifestNode && BrokenOff(n)
    decreases n, 0
  {
    var types :| TypesWrite(types, n.attributes);
    OpenBlock(n.name, types, WriteChildren(Shorter(n), 0), WriteTail(n.children[|n.children| - 1]))
  }

  ghost function WriteTail(n: Node): Tail
    requires BrokenOff(n)
    decreases n, 1
  {
    match n.kind
    case ReturnLight => LightTail
    case ManifestNode => ManifestTail(WriteOpen(n))
    case Startup => StartupTail(WriteOpen(n.children[0]))
  }

  lemma {:induction false} ChildrenApart(n: Node, k: nat)
    requires k <= |n.children| && forall j | 0 <= j < |n.children| :: Canonical(n.children[j])
    ensures SemiEach(WriteChildren(n, k))
    decreases |n.children| - k
  {
    hide Canonical, Write;
    if k < |n.children| {
      ChildrenApart(n, k + 1);
      assert [Semi][0] == Semi;
    }
  }

  lemma {:induction false} OpenWrites(n: Node)
    requires n.kind == ManifestNode && BrokenOff(n)
    ensures OpenNode(WriteOpen(n)) == n && GoodOpen(WriteOpen(n))
    decreases n, 0
  {
    hide GoodClauses, ClauseNodes, WriteChildren, Canonical, TypeText, SemiEach, GoodTail;
    var most := Shorter(n);
    var last := n.children[|n.children| - 1];
    ChildrenWrite(most, 0);
    ChildrenApart(most, 0);
    TailWrites(last);
    var types := WriteOpen(n).types;
    assert "" + TypeText(types) == TypeText(types);
    assert most.children[0..] + [last] == n.children;
  }

  /** What a broken-off tree is written as stands for that tree. */
  lemma {:induction false} TailWrites(n: Node)
    requires BrokenOff(n)
    ensures TailNode(WriteTail(n)) == n && GoodTail(WriteTail(n))
    decreases n, 1
  {
    hide WriteOpen, OpenNode, GoodOpen;
    if n.kind == ManifestNode {
      OpenWrites(n);
    } else if n.kind == Startup {
      OpenWrites(n.children[0]);
      assert n.children == [n.children[0]];
    }
  }

  // ---------- forests that may be broken off ----------

  ghost function UnfinishedTokens(ns: seq<Node>): seq<Lexeme>
    requires Unfinished(ns)
  {
    BrokenTokens(WriteChildren(Root(ns[..|ns| - 1]), 0), WriteTail(ns[|ns| - 1]))
  }

  /** Canonical trees, the last of them broken off or not. */
  ghost predicate Writable(ns: seq<Node>) {
    AllCanonical(ns) || Unfinished(ns)
  }

  ghost function TreeTokens(ns: seq<Node>): seq<Lexeme>
    requires Writable(ns)
  {
    if AllCanonical(ns) then ForestTokens(ns) else UnfinishedTokens(ns)
  }

  lemma UnfinishedReadsBack(ns: seq<Node>)
    requires Unfinished(ns)
    ensures var ts := UnfinishedTokens(ns); ts != [] && ts[|ts| - 1] == EOF && Program(ts, 0, []) == Done(ns, |ts| - 1)
  {
    hide Canonical, BrokenOff, BrokenTokens, Program, GoodClauses, GoodTail, ClauseNodes, TailNode, WriteChildren,
        WriteTail, SemiEach;
    var most, last := Root(ns[..|ns| - 1]), ns[|ns| - 1];
    ChildrenWrite(most, 0);
    ChildrenApart(most, 0);
    TailWrites(last);
    BrokenEnds(WriteChildren(most, 0), WriteTail(last));
    BrokenReads(WriteChildren(most, 0), WriteTail(last));
    assert most.children[0..] + [last] == ns;
  }

  /** The parser reads what a forest is written as back as exactly that forest. */
  lemma TreesReadBack(ns: seq<Node>)
    requires Writable(ns)
    ensures var ts := TreeTokens(ns); ts != [] && ts[|ts| - 1] == EOF && Program(ts, 0, []) == Done(ns, |ts| - 1)
  {
    hide Canonical, BrokenOff, ForestTokens, UnfinishedTokens, Program, AllCanonical, Unfinished;
    if AllCanonical(ns) {
      ForestReadsBack(ns);
    } else {
      UnfinishedReadsBack(ns);
    }
  }

  // ---------- their tokens are valid ----------

  lemma {:induction false} OpenValid(n: Node)
    requires n.kind == ManifestNode && BrokenOff(n)
    ensures AllValid(OpenTokens(WriteOpen(n)))
    decreases n, 0
  {
    hide Valid, Canonical, WriteChildren, ClausesTokens, TailTokens, WriteTail, Named, TypeTokens;
    MarksValid();
    var b := WriteOpen(n);
    ChildrenValid(Shorter(n), 0);
    TailValid(n.children[|n.children| - 1]);
    ValidNamed(n.name);
    TypeTokensValid(b.types);
    ValidConcat(ClausesTokens(b.clauses), TailTokens(b.tail));
    var inside := [OPEN] + (ClausesTokens(b.clauses) + TailTokens(b.tail));
    ValidConcat([OPEN], ClausesTokens(b.clauses) + TailTokens(b.tail));
    ValidConcat(TypeTokens(b.types), inside);
    ValidConcat(Named(b.name), TypeTokens(b.types) + inside);
    ValidConcat([MANIFEST], Named(b.name) + (TypeTokens(b.types) + inside));
  }

  lemma TypeTokensValid(types: seq<Lexeme>)
    requires TypesValid(types)
    ensures AllValid(TypeTokens(types))
  {
    MarksValid();
    hide Valid;
  }

  lemma {:induction false} TailValid(n: Node)
    requires BrokenOff(n)
    ensures AllValid(TailTokens(WriteTail(n)))
    decreases n, 1
  {
    hide Valid, WriteOpen, OpenTokens;
    WordsValid();
    if n.kind == ManifestNode {
      OpenValid(n);
    } else if n.kind == Startup {
      OpenValid(n.children[0]);
      ValidConcat([STARTUP], OpenTokens(WriteOpen(n.children[0])));
    }
  }

  /** Only valid tokens are written, and one end mark. */
  lemma TreeTokensValid(ns: seq<Node>)
    requires Writable(ns)
    ensures var ts := TreeTokens(ns); ts != [] && ts[|ts| - 1] == EOF && AllValid(ts[..|ts| - 1])
  {
    hide Valid, Canonical, BrokenOff, ForestTokens, ClausesTokens, TailTokens, WriteChildren, WriteTail;
    if AllCanonical(ns) {
      ForestValid(ns);
    } else {
      var most, last := Root(ns[..|ns| - 1]), ns[|ns| - 1];
      ChildrenValid(most, 0);
      TailValid(last);
      var clauses, tail := ClausesTokens(WriteChildren(most, 0)), TailTokens(WriteTail(last));
      ValidConcat(clauses, tail);
      assert TreeTokens(ns) == (clauses + tail) + [EOF];
    }
  }
}
