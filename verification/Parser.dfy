/** The recursive-descent parser of `lamia_real_compiler.cpp`: what it builds from a
    token sequence, when it returns, and the object that shares one cursor. */
module Parser {
  import opened Lexer

  datatype NodeType = ManifestNode | CreateNode | RadiantHeading | RadiantText | RadiantButton | ConstellationList
                    | RadiantQuote | GcodeBlock | BambuPrinter | SocialEmbed | Emotion3D
                    | ReturnLight | Neural | Startup

  datatype Node = Node(kind: NodeType, name: string, attributes: map<string, string>, children: seq<Node>)

  /** What a part of the parser read, and the cursor after it. */
  datatype Read<T> = Read(value: T, next: nat)

  /** The same for the parts that hold manifests, whose headers can keep the parser for ever. */
  datatype Parsed<T> = Done(value: T, next: nat) | Stuck(at: nat)

  type Tokens = ts: seq<Lexeme> | ts != [] && ts[|ts| - 1].kind == EndOfFile witness [EOF]

  function Get(attributes: map<string, string>, key: string): string {
    if key in attributes then attributes[key] else ""
  }

  /** The cursor stays on END_OF_FILE. */
  function Next(ts: Tokens, i: nat): (j: nat)
    requires i < |ts|
    ensures i <= j < |ts| && (ts[i].kind != EndOfFile ==> j == i + 1)
  {
    if ts[i].kind == EndOfFile then i else i + 1
  }

  function Match(ts: Tokens, i: nat, kind: Kind): (j: nat)
    requires i < |ts| && kind != EndOfFile
    ensures i <= j < |ts|
  {
    if ts[i].kind == kind then i + 1 else i
  }

  function Skip(ts: Tokens, i: nat): (j: nat)
    requires i < |ts|
    ensures i <= j < |ts| && ts[j].kind != Newline && (forall k | i <= k < j :: ts[k].kind == Newline)
    decreases |ts| - i
  {
    if ts[i].kind == Newline then Skip(ts, i + 1) else i
  }

  // ---------- values ----------

  function Value(ts: Tokens, i: nat): (r: Read<string>)
    requires i < |ts|
    ensures i <= r.next < |ts| && (ts[i].kind != EndOfFile ==> i < r.next)
    decreases |ts| - i, 1
  {
    match ts[i].kind
    case String => Read(ts[i].value, i + 1)
    case Number => Read(ts[i].value, i + 1)
    case Identifier => Read(ts[i].value, i + 1)
    case LBracket => Array(ts, i)
    case _ => Read("", Next(ts, i))
  }

  function Array(ts: Tokens, i: nat): (r: Read<string>)
    requires i < |ts| && ts[i].kind == LBracket
    ensures i < r.next < |ts|
    decreases |ts| - i, 0
  {
    var r := Elements(ts, i + 1, true, "[");
    if ts[r.next].kind == RBracket then Read(r.value + "]", r.next + 1) else r
  }

  function Elements(ts: Tokens, i: nat, first: bool, text: string): (r: Read<string>)
    requires i < |ts|
    ensures i <= r.next < |ts| && ts[r.next].kind in {RBracket, EndOfFile}
    decreases |ts| - i, 2
  {
    if ts[i].kind in {RBracket, EndOfFile} then Read(text, i)
    else
      var j := Skip(ts, i);
      if ts[j].kind == RBracket then Read(text, j)
      else
        var v := Value(ts, j);
        Elements(ts, Match(ts, v.next, Comma), false, (if first then text else text + ", ") + v.value)
  }

  // ---------- widgets ----------

  function WidgetKind(name: string): NodeType {
    if name == "RADIANT_HEADING" then RadiantHeading
    else if name == "RADIANT_TEXT" then RadiantText
    else if name == "RADIANT_BUTTON" then RadiantButton
    else if name == "CONSTELLATION_LIST" then ConstellationList
    else if name == "RADIANT_QUOTE" then RadiantQuote
    else if name == "GCODE_BLOCK" then GcodeBlock
    else if name == "BAMBU_PRINTER" then BambuPrinter
    else if name == "SOCIAL_EMBED" then SocialEmbed
    else if name == "3D_EMOTION" then Emotion3D
    else CreateNode
  }

  /** One turn of the attribute loop. */
  function Attribute(ts: Tokens, i: nat, attributes: map<string, string>): (r: Read<map<string, string>>)
    requires i < |ts|
    ensures i <= r.next < |ts| && (ts[i].kind != EndOfFile ==> i < r.next)
  {
    if ts[i].kind != Identifier then Read(attributes, Next(ts, i))
    else if ts[i + 1].kind != Colon then Read(attributes, i + 1)
    else
      var v := Value(ts, i + 2);
      Read(attributes[ts[i].value := v.value], v.next)
  }

  function Attributes(ts: Tokens, i: nat, attributes: map<string, string>): (r: Read<map<string, string>>)
    requires i < |ts|
    ensures i <= r.next < |ts| && ts[r.next].kind in {RBrace, EndOfFile}
    decreases |ts| - i
  {
    if ts[i].kind in {RBrace, EndOfFile} then Read(attributes, i)
    else
      var j := Skip(ts, i);
      if ts[j].kind == RBrace then Read(attributes, j)
      else
        var r := Attribute(ts, j, attributes);
        Attributes(ts, Match(ts, r.next, Comma), r.value)
  }

  function Widget(ts: Tokens, i: nat): (r: Read<Node>)
    requires i < |ts| && ts[i].kind == Create
    ensures i < r.next < |ts|
  {
    var named := ts[i + 1].kind == Identifier;
    var kind := if named then WidgetKind(ts[i + 1].value) else CreateNode;
    var attributes := if named then map["widget_type" := ts[i + 1].value] else map[];
    var j := if named then i + 2 else i + 1;
    if ts[j].kind != LBrace then Read(Node(kind, "", attributes, []), j)
    else
      var r := Attributes(ts, j + 1, attributes);
      Read(Node(kind, "", r.value, []), Match(ts, r.next, RBrace))
  }

  // ---------- return_light and neural ----------

  predicate IsWord(l: Lexeme, word: string) {
    l.kind == Identifier && l.value == word
  }

  function Light(ts: Tokens, i: nat): (r: Read<Node>)
    requires i < |ts| && IsWord(ts[i], "return_light")
    ensures i < r.next < |ts|
  {
    if ts[i + 1].kind == EndOfFile then Read(Node(ReturnLight, "", map[], []), i + 1)
    else
      var v := Value(ts, i + 1);
      Read(Node(ReturnLight, "", map["value" := v.value], []), v.next)
  }

  function Thought(ts: Tokens, i: nat): (r: Read<Node>)
    requires i < |ts| && IsWord(ts[i], "neural")
    ensures i < r.next < |ts|
  {
    var j := Match(ts, i + 1, Identifier);
    var name := if ts[i + 1].kind == Identifier then ts[i + 1].value else "";
    if ts[j].kind != Colon then Read(Node(Neural, name, map[], []), j)
    else
      var v := Value(ts, j + 1);
      Read(Node(Neural, name, map["expression" := v.value], []), v.next)
  }

  // ---------- manifests ----------

  function AddType(attributes: map<string, string>, value: string): map<string, string> {
    attributes["return_type" := Get(attributes, "return_type") + (value + " ")]
  }

  /** The tokens after `->`: the loop leaves one that is neither IDENTIFIER nor AT where it is. */
  function Types(ts: Tokens, i: nat, attributes: map<string, string>): (r: Parsed<map<string, string>>)
    requires i < |ts|
    ensures r.Done? ==> i <= r.next < |ts| && ts[r.next].kind in {LBrace, EndOfFile}
    ensures r.Stuck? ==> i <= r.at < |ts| && ts[r.at].kind !in {LBrace, EndOfFile, Identifier, At}
    decreases |ts| - i
  {
    if ts[i].kind in {LBrace, EndOfFile} then Done(attributes, i)
    else if ts[i].kind in {Identifier, At} then Types(ts, i + 1, AddType(attributes, ts[i].value))
    else Stuck(i)
  }

  /** A manifest up to its body. */
  function Header(ts: Tokens, i: nat): (r: Parsed<Node>)
    requires i < |ts| && ts[i].kind == Manifest
    ensures r.Done? ==> i < r.next < |ts| && r.value.children == []
    ensures r.Stuck? ==> i < r.at < |ts| && ts[r.at].kind !in {LBrace, EndOfFile, Identifier, At}
  {
    var j := Match(ts, i + 1, Identifier);
    var node := Node(ManifestNode, if ts[i + 1].kind == Identifier then ts[i + 1].value else "", map[], []);
    if ts[j].kind != Arrow then Done(node, j)
    else match Types(ts, j + 1, map[])
      case Stuck(at) => Stuck(at)
      case Done(attributes, next) => Done(node.(attributes := attributes), next)
  }

  function ManifestAt(ts: Tokens, i: nat): (r: Parsed<Node>)
    requires i < |ts| && ts[i].kind == Manifest
    ensures r.Done? ==> i < r.next < |ts|
    decreases |ts| - i, 0
  {
    match Header(ts, i)
    case Stuck(at) => Stuck(at)
    case Done(node, j) =>
      if ts[j].kind != LBrace then Done(node, j)
      else match Body(ts, j + 1, [])
        case Stuck(at) => Stuck(at)
        case Done(children, next) => Done(node.(children := children), Match(ts, next, RBrace))
  }

  function Body(ts: Tokens, i: nat, children: seq<Node>): (r: Parsed<seq<Node>>)
    requires i < |ts|
    ensures r.Done? ==> i <= r.next < |ts| && ts[r.next].kind in {RBrace, EndOfFile}
    decreases |ts| - i, 2
  {
    if ts[i].kind in {RBrace, EndOfFile} then Done(children, i)
    else
      var j := Skip(ts, i);
      if ts[j].kind == RBrace then Done(children, j)
      else match Statement(ts, j)
        case Stuck(at) => Stuck(at)
        case Done(nodes, next) => Body(ts, next, children + nodes)
  }

  function StartupAt(ts: Tokens, i: nat): (r: Parsed<Node>)
    requires i < |ts| && ts[i].kind == At
    ensures r.Done? ==> i < r.next < |ts|
    decreases |ts| - i, 0
  {
    var j := Skip(ts, i + 1);
    if ts[j].kind != Manifest then Done(Node(Startup, "", map[], []), j)
    else match ManifestAt(ts, j)
      case Stuck(at) => Stuck(at)
      case Done(manifest, next) => Done(Node(Startup, "", map[], [manifest]), next)
  }

  /** One node, or none for a token no statement starts with. */
  function Statement(ts: Tokens, i: nat): (r: Parsed<seq<Node>>)
    requires i < |ts|
    ensures r.Done? ==> |r.value| <= 1 && i <= r.next < |ts| && (ts[i].kind != EndOfFile ==> i < r.next)
    decreases |ts| - i, 1
  {
    if ts[i].kind == Manifest then
      match ManifestAt(ts, i)
      case Stuck(at) => Stuck(at)
      case Done(node, next) => Done([node], next)
    else if ts[i].kind == Create then var r := Widget(ts, i); Done([r.value], r.next)
    else if ts[i] == Lexeme(At, "@startup") then
      match StartupAt(ts, i)
      case Stuck(at) => Stuck(at)
      case Done(node, next) => Done([node], next)
    else if IsWord(ts[i], "return_light") then var r := Light(ts, i); Done([r.value], r.next)
    else if IsWord(ts[i], "neural") then var r := Thought(ts, i); Done([r.value], r.next)
    else Done([], Next(ts, i))
  }

  function Program(ts: Tokens, i: nat, children: seq<Node>): (r: Parsed<seq<Node>>)
    requires i < |ts|
    ensures r.Done? ==> i <= r.next < |ts| && ts[r.next].kind == EndOfFile
    decreases |ts| - i
  {
    if ts[i].kind == EndOfFile then Done(children, i)
    else
      var j := Skip(ts, i);
      if ts[j].kind == EndOfFile then Done(children, j)
      else match Statement(ts, j)
        case Stuck(at) => Stuck(at)
        case Done(nodes, next) => Program(ts, next, children + nodes)
  }

  function Root(children: seq<Node>): Node {
    Node(ManifestNode, "program", map[], children)
  }

  // ---------- when the parser returns ----------

  datatype Fate = Returns | Hangs(at: nat)

  /** One pass over the tokens, without nesting: braces are stepped over like any other
      token, and only the headers of manifests outside widgets and values are looked at. */
  function FateOf(ts: Tokens, i: nat): (f: Fate)
    requires i < |ts|
    ensures f.Hangs? ==> i <= f.at < |ts| && ts[f.at].kind !in {LBrace, EndOfFile, Identifier, At}
    decreases |ts| - i
  {
    if ts[i].kind == EndOfFile then Returns
    else if ts[i].kind == Manifest then
      match Header(ts, i)
      case Stuck(at) => Hangs(at)
      case Done(_, next) => FateOf(ts, Match(ts, next, LBrace))
    else if ts[i].kind == Create then FateOf(ts, Widget(ts, i).next)
    else if IsWord(ts[i], "return_light") then FateOf(ts, Light(ts, i).next)
    else if IsWord(ts[i], "neural") then FateOf(ts, Thought(ts, i).next)
    else FateOf(ts, i + 1)
  }

  /** Reading from `i` has the fate of the rest of the tokens, or meets its own. */
  ghost predicate Follows<T>(ts: Tokens, i: nat, r: Parsed<T>) {
    && i < |ts|
    && match r
       case Stuck(at) => FateOf(ts, i) == Hangs(at)
       case Done(_, next) => next < |ts| && FateOf(ts, i) == FateOf(ts, next)
  }

  lemma {:induction false} SkipFollows(ts: Tokens, i: nat)
    requires i < |ts|
    ensures FateOf(ts, i) == FateOf(ts, Skip(ts, i))
    decreases |ts| - i
  {
    if ts[i].kind == Newline {
      SkipFollows(ts, i + 1);
    }
  }

  lemma {:induction false} FateAtManifest(ts: Tokens, i: nat)
    requires i < |ts| && ts[i].kind == Manifest
    ensures FateOf(ts, i) ==
      match Header(ts, i)
      case Stuck(at) => Hangs(at)
      case Done(_, next) => FateOf(ts, if ts[next].kind == LBrace then next + 1 else next)
  {
    hide Header;
  }

  lemma {:induction false} FateAtBrace(ts: Tokens, i: nat)
    requires i < |ts| && ts[i].kind == RBrace
    ensures FateOf(ts, i) == FateOf(ts, i + 1)
  {
  }

  lemma {:induction false} ManifestFollows(ts: Tokens, i: nat)
    requires i < |ts| && ts[i].kind == Manifest
    ensures Follows(ts, i, ManifestAt(ts, i))
    decreases |ts| - i, 0
  {
    hide Header, FateOf, Body;
    FateAtManifest(ts, i);
    var h := Header(ts, i);
    if h.Done? && ts[h.next].kind == LBrace {
      BodyFollows(ts, h.next + 1, []);
      var b := Body(ts, h.next + 1, []);
      if b.Done? && ts[b.next].kind == RBrace {
        FateAtBrace(ts, b.next);
      }
    }
  }

  lemma {:induction false} BodyFollows(ts: Tokens, i: nat, children: seq<Node>)
    requires i < |ts|
    ensures Follows(ts, i, Body(ts, i, children))
    decreases |ts| - i, 2
  {
    hide FateOf, Statement;
    if ts[i].kind !in {RBrace, EndOfFile} {
      var j := Skip(ts, i);
      SkipFollows(ts, i);
      if ts[j].kind != RBrace {
        StatementFollows(ts, j);
        match Statement(ts, j)
        case Stuck(_) =>
        case Done(nodes, next) => BodyFollows(ts, next, children + nodes);
      }
    }
  }

  lemma {:induction false} StartupFollows(ts: Tokens, i: nat)
    requires i < |ts| && ts[i].kind == At
    ensures Follows(ts, i, StartupAt(ts, i))
    decreases |ts| - i, 0
  {
    hide ManifestAt, Header, Widget, Light, Thought;
    var j := Skip(ts, i + 1);
    SkipFollows(ts, i + 1);
    if ts[j].kind == Manifest {
      ManifestFollows(ts, j);
    }
  }

  lemma {:induction false} StatementFollows(ts: Tokens, i: nat)
    requires i < |ts|
    ensures Follows(ts, i, Statement(ts, i))
    decreases |ts| - i, 1
  {
    hide ManifestAt, StartupAt, Header, Widget, Light, Thought;
    if ts[i].kind == Manifest {
      ManifestFollows(ts, i);
    } else if ts[i] == Lexeme(At, "@startup") {
      StartupFollows(ts, i);
    }
  }

  lemma {:induction false} ProgramFollows(ts: Tokens, i: nat, children: seq<Node>)
    requires i < |ts|
    ensures Follows(ts, i, Program(ts, i, children))
    decreases |ts| - i
  {
    hide FateOf, Statement;
    if ts[i].kind != EndOfFile {
      var j := Skip(ts, i);
      SkipFollows(ts, i);
      if ts[j].kind != EndOfFile {
        StatementFollows(ts, j);
        match Statement(ts, j)
        case Stuck(_) =>
        case Done(nodes, next) => ProgramFollows(ts, next, children + nodes);
      }
    }
  }

  /** The parser returns exactly when the flat pass meets no bad header, and otherwise stays
      on the very token that pass names. */
  lemma {:induction false} ParserReturnsIff(ts: Tokens)
    ensures Program(ts, 0, []).Done? <==> FateOf(ts, 0).Returns?
    ensures Program(ts, 0, []).Stuck? ==> FateOf(ts, 0) == Hangs(Program(ts, 0, []).at)
  {
    hide Program;
    ProgramFollows(ts, 0, []);
  }

  // ---------- the turns of the header loop ----------

  /** The cursor and the attributes, between two turns. */
  datatype Loop = Loop(at: nat, attributes: map<string, string>)

  /** The guard of the loop. */
  predicate GoesOn(ts: Tokens, l: Loop) {
    l.at < |ts| && ts[l.at].kind !in {LBrace, EndOfFile}
  }

  /** One turn: a name or an attribute is taken, any other token is left alone. */
  function Turn(ts: Tokens, l: Loop): Loop {
    if l.at < |ts| && ts[l.at].kind in {Identifier, At}
    then Loop(l.at + 1, AddType(l.attributes, ts[l.at].value))
    else l
  }

  function Turns(ts: Tokens, l: Loop, n: nat): Loop
    decreases n
  {
    if n > 0 && GoesOn(ts, l) then Turns(ts, Turn(ts, l), n - 1) else l
  }

  ghost predicate Ends(ts: Tokens, l: Loop, end: Loop) {
    !GoesOn(ts, end) && exists n :: Turns(ts, l, n) == end
  }

  /** However many turns are made there is another one, and from some turn on the cursor is at `at`. */
  ghost predicate Endless(ts: Tokens, l: Loop, at: nat) {
    && (forall n: nat :: GoesOn(ts, Turns(ts, l, n)))
    && exists m: nat :: Settled(ts, l, at, m)
  }

  ghost predicate Settled(ts: Tokens, l: Loop, at: nat, m: nat) {
    forall n: nat :: m <= n ==> Turns(ts, l, n).at == at
  }

  lemma {:induction false} LeftAlone(ts: Tokens, l: Loop, n: nat)
    requires Turn(ts, l) == l
    ensures Turns(ts, l, n) == l
    decreases n
  {
    if n > 0 && GoesOn(ts, l) {
      LeftAlone(ts, l, n - 1);
    }
  }

  lemma {:induction false} EndsLater(ts: Tokens, l: Loop, end: Loop)
    requires GoesOn(ts, l) && Ends(ts, Turn(ts, l), end)
    ensures Ends(ts, l, end)
  {
    var n: nat :| Turns(ts, Turn(ts, l), n) == end;
    assert Turns(ts, l, n + 1) == end;
  }

  lemma {:induction false} OneMoreTurn(ts: Tokens, l: Loop, n: nat)
    requires GoesOn(ts, l) && n > 0
    ensures Turns(ts, l, n) == Turns(ts, Turn(ts, l), n - 1)
  {
    hide Turn;
  }

  lemma {:induction false} EndlessLater(ts: Tokens, l: Loop, at: nat)
    requires GoesOn(ts, l) && Endless(ts, Turn(ts, l), at)
    ensures Endless(ts, l, at)
  {
    hide Turn, Turns, GoesOn;
    var next := Turn(ts, l);
    forall n: nat ensures GoesOn(ts, Turns(ts, l, n)) {
      if n > 0 {
        OneMoreTurn(ts, l, n);
      } else {
        NoTurn(ts, l);
      }
    }
    var m: nat :| Settled(ts, next, at, m);
    forall n: nat | m + 1 <= n ensures Turns(ts, l, n).at == at {
      OneMoreTurn(ts, l, n);
    }
    assert Settled(ts, l, at, m + 1);
  }

  lemma {:induction false} NoTurn(ts: Tokens, l: Loop)
    ensures Turns(ts, l, 0) == l
  {
  }

  /** `Types` is what the loop does: where it is done the loop ends with that result, and where it
      is stuck the loop has no end and stays on that token. */
  lemma {:induction false} TypesIsTheLoop(ts: Tokens, i: nat, attributes: map<string, string>)
    requires i < |ts|
    ensures var r := Types(ts, i, attributes);
      if r.Done? then Ends(ts, Loop(i, attributes), Loop(r.next, r.value)) else Endless(ts, Loop(i, attributes), r.at)
    decreases |ts| - i
  {
    hide AddType, Ends, Endless;
    var l := Loop(i, attributes);
    TypesStep(ts, i, attributes);
    if ts[i].kind in {LBrace, EndOfFile} {
      NoTurns(ts, l);
    } else if ts[i].kind in {Identifier, At} {
      TypesIsTheLoop(ts, i + 1, AddType(attributes, ts[i].value));
      var r := Types(ts, i, attributes);
      if r.Done? {
        EndsLater(ts, l, Loop(r.next, r.value));
      } else {
        EndlessLater(ts, l, r.at);
      }
    } else {
      StaysEndless(ts, l);
    }
  }

  lemma {:induction false} NoTurns(ts: Tokens, l: Loop)
    requires !GoesOn(ts, l)
    ensures Ends(ts, l, l)
  {
    assert Turns(ts, l, 0) == l;
  }

  lemma {:induction false} StaysEndless(ts: Tokens, l: Loop)
    requires GoesOn(ts, l) && Turn(ts, l) == l
    ensures Endless(ts, l, l.at)
  {
    forall n: nat ensures Turns(ts, l, n) == l {
      LeftAlone(ts, l, n);
    }
    assert Settled(ts, l, l.at, 0);
  }

  /** A header loop behind some arrow has no end. */
  ghost predicate SomeLoopEndless(ts: Tokens, i: nat, at: nat) {
    exists j | i < j < |ts| && ts[j - 1].kind == Arrow :: Endless(ts, Loop(j, map[]), at)
  }

  lemma {:induction false} HeaderLoops(ts: Tokens, i: nat)
    requires i < |ts| && ts[i].kind == Manifest && Header(ts, i).Stuck?
    ensures SomeLoopEndless(ts, i, Header(ts, i).at)
  {
    hide Types, Endless;
    var j := Match(ts, i + 1, Identifier);
    TypesIsTheLoop(ts, j + 1, map[]);
    assert Endless(ts, Loop(j + 1, map[]), Header(ts, i).at);
  }

  lemma {:induction false} LoopAfter(ts: Tokens, i: nat, k: nat, at: nat)
    requires i <= k && SomeLoopEndless(ts, k, at)
    ensures SomeLoopEndless(ts, i, at)
  {
    hide Endless;
  }

  lemma {:induction false} HangsLoops(ts: Tokens, i: nat)
    requires i < |ts| && FateOf(ts, i).Hangs?
    ensures SomeLoopEndless(ts, i, FateOf(ts, i).at)
    decreases |ts| - i
  {
    hide SomeLoopEndless, Header, Widget, Light, Thought;
    if ts[i].kind == Manifest && Header(ts, i).Stuck? {
      HeaderLoops(ts, i);
    } else {
      var k :=
        if ts[i].kind == Manifest then Match(ts, Header(ts, i).next, LBrace)
        else if ts[i].kind == Create then Widget(ts, i).next
        else if IsWord(ts[i], "return_light") then Light(ts, i).next
        else if IsWord(ts[i], "neural") then Thought(ts, i).next
        else i + 1;
      HangsLoops(ts, k);
      LoopAfter(ts, i, k, FateOf(ts, i).at);
    }
  }

  /** Where the parser is stuck, the loop behind some arrow goes on for ever, on that token. */
  lemma {:induction false} StuckIsEndless(ts: Tokens)
    requires Program(ts, 0, []).Stuck?
    ensures SomeLoopEndless(ts, 0, Program(ts, 0, []).at)
  {
    hide Program, FateOf, SomeLoopEndless;
    ParserReturnsIff(ts);
    HangsLoops(ts, 0);
  }

  /** Only names and attributes stand between an arrow and the next `{` or the end. */
  ghost predicate OpenArrows(ts: Tokens) {
    forall k, m | 0 <= k < m < |ts| && ts[k].kind == Arrow && Between(ts, k, m) ::
      ts[m].kind in {Identifier, At, LBrace, EndOfFile}
  }

  ghost predicate Between(ts: Tokens, k: nat, m: nat)
    requires k < m < |ts|
  {
    forall n | k < n < m :: ts[n].kind !in {LBrace, EndOfFile}
  }

  lemma {:induction false} OpenTypes(ts: Tokens, k: nat, i: nat, attributes: map<string, string>)
    requires OpenArrows(ts) && k < i < |ts| && ts[k].kind == Arrow && Between(ts, k, i)
    ensures Types(ts, i, attributes).Done?
    decreases |ts| - i
  {
    hide AddType;
    if ts[i].kind in {Identifier, At} {
      OpenTypes(ts, k, i + 1, AddType(attributes, ts[i].value));
    }
  }

  lemma {:induction false} OpenFate(ts: Tokens, i: nat)
    requires OpenArrows(ts) && i < |ts|
    ensures FateOf(ts, i) == Returns
    decreases |ts| - i
  {
    hide OpenArrows, Widget, Light, Thought;
    if ts[i].kind == EndOfFile {
    } else if ts[i].kind == Manifest {
      OpenHeader(ts, i);
      OpenFate(ts, Match(ts, Header(ts, i).next, LBrace));
    } else if ts[i].kind == Create {
      OpenFate(ts, Widget(ts, i).next);
    } else if IsWord(ts[i], "return_light") {
      OpenFate(ts, Light(ts, i).next);
    } else if IsWord(ts[i], "neural") {
      OpenFate(ts, Thought(ts, i).next);
    } else {
      OpenFate(ts, i + 1);
    }
  }

  lemma {:induction false} OpenHeader(ts: Tokens, i: nat)
    requires OpenArrows(ts) && i < |ts| && ts[i].kind == Manifest
    ensures Header(ts, i).Done?
  {
    hide OpenArrows, Types;
    var j := Match(ts, i + 1, Identifier);
    if ts[j].kind == Arrow {
      OpenTypes(ts, j, j + 1, map[]);
    }
  }

  /** Whatever else the tokens are, the parser returns if every arrow is open. */
  lemma {:induction false} OpenArrowsReturn(ts: Tokens)
    requires OpenArrows(ts)
    ensures Program(ts, 0, []).Done?
  {
    hide Program, OpenArrows, FateOf;
    OpenFate(ts, 0);
    ParserReturnsIff(ts);
  }

  /** `manifest a -> 5` keeps the parser on the number for ever, whatever follows. */
  lemma NumberAfterArrowHangs(name: string, number: string, rest: seq<Lexeme>)
    ensures
      var ts: Tokens := [Lexeme(Manifest, "manifest"), Lexeme(Identifier, name), Lexeme(Arrow, "->"),
          Lexeme(Number, number)] + rest + [EOF];
      Program(ts, 0, []) == Stuck(3) && Endless(ts, Loop(3, map[]), 3)
  {
    var ts: Tokens := [Lexeme(Manifest, "manifest"), Lexeme(Identifier, name), Lexeme(Arrow, "->"),
        Lexeme(Number, number)] + rest + [EOF];
    hide Program, Widget, Light, Thought;
    assert Header(ts, 0) == Stuck(3);
    assert FateOf(ts, 0) == Hangs(3);
    ParserReturnsIff(ts);
    StaysEndless(ts, Loop(3, map[]));
  }

  /** Unfolds one turn of the element loop. */
  lemma {:induction false} ElementsStep(ts: Tokens, i: nat, first: bool, text: string)
    requires i < |ts|
    ensures
      Elements(ts, i, first, text) ==
      if ts[i].kind in {RBracket, EndOfFile} then Read(text, i)
      else if ts[Skip(ts, i)].kind == RBracket then Read(text, Skip(ts, i))
      else
        var v := Value(ts, Skip(ts, i));
        Elements(ts, Match(ts, v.next, Comma), false, (if first then text else text + ", ") + v.value)
  {
    hide Value, Skip;
  }

  lemma {:induction false} MatchTakes(ts: Tokens, i: nat, kind: Kind)
    requires i < |ts| && kind != EndOfFile && ts[i].kind == kind
    ensures Match(ts, i, kind) == i + 1
  {
  }

  lemma {:induction false} MatchLeaves(ts: Tokens, i: nat, kind: Kind)
    requires i < |ts| && kind != EndOfFile && ts[i].kind != kind
    ensures Match(ts, i, kind) == i
  {
  }

  lemma {:induction false} AttributesStep(ts: Tokens, i: nat, attributes: map<string, string>)
    requires i < |ts|
    ensures
      Attributes(ts, i, attributes) ==
      if ts[i].kind in {RBrace, EndOfFile} then Read(attributes, i)
      else if ts[Skip(ts, i)].kind == RBrace then Read(attributes, Skip(ts, i))
      else
        var r := Attribute(ts, Skip(ts, i), attributes);
        Attributes(ts, Match(ts, r.next, Comma), r.value)
  {
    hide Attribute, Skip;
  }

  lemma {:induction false} TypesStep(ts: Tokens, i: nat, attributes: map<string, string>)
    requires i < |ts|
    ensures
      Types(ts, i, attributes) ==
      if ts[i].kind in {LBrace, EndOfFile} then Done(attributes, i)
      else if ts[i].kind in {Identifier, At} then Types(ts, i + 1, AddType(attributes, ts[i].value))
      else Stuck(i)
  {
    hide AddType;
  }

  lemma {:induction false} BodyStep(ts: Tokens, i: nat, children: seq<Node>)
    requires i < |ts|
    ensures
      Body(ts, i, children) ==
      if ts[i].kind in {RBrace, EndOfFile} then Done(children, i)
      else if ts[Skip(ts, i)].kind == RBrace then Done(children, Skip(ts, i))
      else
        var r := Statement(ts, Skip(ts, i));
        if r.Stuck? then Stuck(r.at) else Body(ts, r.next, children + r.value)
  {
    hide Statement, Skip;
  }

  lemma {:induction false} ProgramStep(ts: Tokens, i: nat, children: seq<Node>)
    requires i < |ts|
    ensures
      Program(ts, i, children) ==
      if ts[i].kind == EndOfFile then Done(children, i)
      else if ts[Skip(ts, i)].kind == EndOfFile then Done(children, Skip(ts, i))
      else
        var r := Statement(ts, Skip(ts, i));
        if r.Stuck? then Stuck(r.at) else Program(ts, r.next, children + r.value)
  {
    hide Statement, Skip;
  }

  // ---------- the parser object ----------

  class LamiaParser {
    const tokens: seq<Lexeme>
    var current: nat

    constructor (tokens: seq<Lexeme>)
      ensures this.tokens == tokens && current == 0
    {
      this.tokens := tokens;
      current := 0;
    }

    predicate Ready()
      reads this
    {
      tokens != [] && tokens[|tokens| - 1].kind == EndOfFile && current < |tokens|
    }

    predicate IsAtEnd()
      reads this
    {
      current >= |tokens| || tokens[current].kind == EndOfFile
    }

    method Advance()
      requires Ready()
      modifies this
      ensures Ready() && current == Next(tokens, old(current))
    {
      if !IsAtEnd() {
        current := current + 1;
      }
    }

    method SkipNewlines()
      requires Ready()
      modifies this
      ensures Ready() && current == Skip(tokens, old(current))
    {
      while !IsAtEnd() && tokens[current].kind == Newline
        invariant Ready() && Skip(tokens, old(current)) == Skip(tokens, current)
        decreases |tokens| - current
      {
        Advance();
      }
    }

    method MatchKind(kind: Kind) returns (matched: bool)
      requires Ready() && kind != EndOfFile
      modifies this
      ensures Ready() && matched == (tokens[old(current)].kind == kind) && current == Match(tokens, old(current), kind)
    {
      if IsAtEnd() { return false; }
      if tokens[current].kind != kind { return false; }
      Advance();
      return true;
    }

    method ParseValue() returns (value: string)
      requires Ready()
      modifies this
      ensures Ready() && Read(value, current) == Value(tokens, old(current))
      decreases |tokens| - current, 1
    {
      var kind := tokens[current].kind;
      if kind == String || kind == Number || kind == Identifier {
        value := tokens[current].value;
        Advance();
        return;
      }
      if kind == LBracket {
        value := ParseArray();
        return;
      }
      Advance();
      return "";
    }

    /** One element behind what was read before, and its comma. */
    method ParseElement(first: bool, before: string) returns (result: string)
      requires Ready() && tokens[current].kind != RBracket
      modifies this
      ensures Ready()
      ensures var v := Value(tokens, old(current));
        current == Match(tokens, v.next, Comma) && result == (if first then before else before + ", ") + v.value
      decreases |tokens| - current, 2
    {
      hide Value;
      result := before;
      if !first {
        result := result + ", ";
      }
      var value := ParseValue();
      result := result + value;
      if tokens[current].kind == Comma {
        Advance();
      }
    }

    method ParseArray() returns (result: string)
      requires Ready() && tokens[current].kind == LBracket
      modifies this
      ensures Ready() && Read(result, current) == Array(tokens, old(current))
      decreases |tokens| - current, 0
    {
      hide Elements, Value, Skip, Match;
      ghost var start := current;
      result := "[";
      Advance();
      var first := true;
      ghost var all := Elements(tokens, current, true, result);
      while !IsAtEnd() && tokens[current].kind != RBracket
        invariant Ready() && start < current && all == Elements(tokens, current, first, result)
        decreases |tokens| - current
      {
        ElementsStep(tokens, current, first, result);
        SkipNewlines();
        if tokens[current].kind == RBracket {
          ElementsStep(tokens, current, first, result);
          break;
        }
        result := ParseElement(first, result);
        first := false;
      }
      ElementsStep(tokens, current, first, result);
      var closed := MatchKind(RBracket);
      if closed {
        MatchTakes(tokens, all.next, RBracket);
        result := result + "]";
      } else {
        MatchLeaves(tokens, all.next, RBracket);
      }
    }

    method ParseAttribute(before: map<string, string>) returns (attributes: map<string, string>)
      requires Ready()
      modifies this
      ensures Ready() && Read(attributes, current) == Attribute(tokens, old(current), before)
    {
      hide Value;
      attributes := before;
      if tokens[current].kind == Identifier {
        var key := tokens[current].value;
        Advance();
        var colon := MatchKind(Colon);
        if colon {
          var value := ParseValue();
          attributes := attributes[key := value];
        }
      } else {
        Advance();
      }
    }

    /** Adds the attributes read to those of the node. */
    method ParseAttributes(before: map<string, string>) returns (attributes: map<string, string>)
      requires Ready()
      modifies this
      ensures Ready() && Read(attributes, current) == Attributes(tokens, old(current), before)
      ensures old(current) <= current && tokens[current].kind in {RBrace, EndOfFile}
      decreases |tokens| - current
    {
      hide Attributes, Attribute, Value, Skip;
      ghost var start := current;
      attributes := before;
      ghost var all := Attributes(tokens, current, attributes);
      while !IsAtEnd() && tokens[current].kind != RBrace
        invariant Ready() && start <= current && all == Attributes(tokens, current, attributes)
        decreases |tokens| - current
      {
        AttributesStep(tokens, current, attributes);
        SkipNewlines();
        if tokens[current].kind == RBrace {
          AttributesStep(tokens, current, attributes);
          break;
        }
        attributes := ParseAttribute(attributes);
        if tokens[current].kind == Comma {
          Advance();
        }
      }
      AttributesStep(tokens, current, attributes);
    }

    method ParseCreate() returns (node: Node)
      requires Ready() && tokens[current].kind == Create
      modifies this
      ensures Ready() && Read(node, current) == Widget(tokens, old(current))
    {
      hide Attributes;
      node := Node(CreateNode, "", map[], []);
      Advance();
      if tokens[current].kind == Identifier {
        var widgetType := tokens[current].value;
        node := node.(attributes := map["widget_type" := widgetType], kind := WidgetKind(widgetType));
        Advance();
      }
      var open := MatchKind(LBrace);
      if open {
        var attributes := ParseAttributes(node.attributes);
        node := node.(attributes := attributes);
        var _ := MatchKind(RBrace);
      }
    }

    method ParseReturnLight() returns (node: Node)
      requires Ready() && IsWord(tokens[current], "return_light")
      modifies this
      ensures Ready() && Read(node, current) == Light(tokens, old(current))
    {
      hide Value;
      node := Node(ReturnLight, "", map[], []);
      Advance();
      if !IsAtEnd() {
        var value := ParseValue();
        node := node.(attributes := map["value" := value]);
      }
    }

    method ParseNeural() returns (node: Node)
      requires Ready() && IsWord(tokens[current], "neural")
      modifies this
      ensures Ready() && Read(node, current) == Thought(tokens, old(current))
    {
      hide Value;
      node := Node(Neural, "", map[], []);
      Advance();
      if tokens[current].kind == Identifier {
        node := node.(name := tokens[current].value);
        Advance();
      }
      var colon := MatchKind(Colon);
      if colon {
        var value := ParseValue();
        node := node.(attributes := map["expression" := value]);
      }
    }

    /** The tokens after an arrow; the loop has an end only if they are not stuck. */
    method ParseTypes() returns (attributes: map<string, string>)
      requires Ready() && Types(tokens, current, map[]).Done?
      modifies this
      ensures Ready() && Done(attributes, current) == Types(tokens, old(current), map[])
    {
      hide Types, AddType;
      attributes := map[];
      ghost var all := Types(tokens, current, attributes);
      while !IsAtEnd() && tokens[current].kind != LBrace
        invariant Ready() && all.Done? && all == Types(tokens, current, attributes)
        decreases |tokens| - current
      {
        TypesStep(tokens, current, attributes);
        if tokens[current].kind == Identifier || tokens[current].kind == At {
          attributes := AddType(attributes, tokens[current].value);
          Advance();
        }
      }
      TypesStep(tokens, current, attributes);
    }

    /** A manifest up to its body. */
    method ParseHeader() returns (node: Node)
      requires Ready() && tokens[current].kind == Manifest && Header(tokens, current).Done?
      modifies this
      ensures Ready() && Done(node, current) == Header(tokens, old(current))
    {
      hide Types;
      node := Node(ManifestNode, "", map[], []);
      Advance();
      if tokens[current].kind == Identifier {
        node := node.(name := tokens[current].value);
        Advance();
      }
      var arrow := MatchKind(Arrow);
      if arrow {
        var attributes := ParseTypes();
        node := node.(attributes := attributes);
      }
    }

    method ParseManifest() returns (node: Node)
      requires Ready() && tokens[current].kind == Manifest && ManifestAt(tokens, current).Done?
      modifies this
      ensures Ready() && Done(node, current) == ManifestAt(tokens, old(current))
      decreases |tokens| - current, 0
    {
      hide Header, Body, Skip, Statement;
      ghost var start := current;
      node := ParseHeader();
      var open := MatchKind(LBrace);
      if open {
        ghost var all := Body(tokens, current, []);
        while !IsAtEnd() && tokens[current].kind != RBrace
          invariant Ready() && start < current && all.Done? && all == Body(tokens, current, node.children)
          invariant node.(children := []) == Header(tokens, start).value
          decreases |tokens| - current
        {
          BodyStep(tokens, current, node.children);
          SkipNewlines();
          if tokens[current].kind == RBrace {
            BodyStep(tokens, current, node.children);
            break;
          }
          var child := ParseStatement();
          node := node.(children := node.children + child);
        }
        BodyStep(tokens, current, node.children);
        var _ := MatchKind(RBrace);
      }
    }

    method ParseStartup() returns (node: Node)
      requires Ready() && tokens[current].kind == At && StartupAt(tokens, current).Done?
      modifies this
      ensures Ready() && Done(node, current) == StartupAt(tokens, old(current))
      decreases |tokens| - current, 0
    {
      hide ManifestAt, Skip;
      node := Node(Startup, "", map[], []);
      Advance();
      SkipNewlines();
      if tokens[current].kind == Manifest {
        var manifest := ParseManifest();
        node := node.(children := node.children + [manifest]);
        assert node.children == [manifest];
      }
    }

    /** At most one node. */
    method ParseStatement() returns (nodes: seq<Node>)
      requires Ready() && Statement(tokens, current).Done?
      modifies this
      ensures Ready() && Done(nodes, current) == Statement(tokens, old(current))
      decreases |tokens| - current, 1
    {
      hide ManifestAt, StartupAt, Widget, Light, Thought;
      if tokens[current].kind == Manifest {
        var node := ParseManifest();
        return [node];
      }
      if tokens[current].kind == Create {
        var node := ParseCreate();
        return [node];
      }
      if tokens[current].kind == At && tokens[current].value == "@startup" {
        var node := ParseStartup();
        return [node];
      }
      if tokens[current].kind == Identifier && tokens[current].value == "return_light" {
        var node := ParseReturnLight();
        return [node];
      }
      if tokens[current].kind == Identifier && tokens[current].value == "neural" {
        var node := ParseNeural();
        return [node];
      }
      Advance();
      return [];
    }

    method Parse() returns (root: Node)
      requires Ready() && current == 0 && FateOf(tokens, 0).Returns?
      modifies this
      ensures Ready() && IsAtEnd() && Done(root.children, current) == Program(tokens, 0, [])
      ensures root == Root(root.children) && root.kind == ManifestNode && root.name == "program"
    {
      hide Program, Statement, Skip, FateOf;
      ParserReturnsIff(tokens);
      root := Node(ManifestNode, "program", map[], []);
      ghost var all := Program(tokens, 0, []);
      while !IsAtEnd()
        invariant Ready() && all.Done? && all == Program(tokens, current, root.children) && root == Root(root.children)
        decreases |tokens| - current
      {
        ProgramStep(tokens, current, root.children);
        SkipNewlines();
        if IsAtEnd() {
          ProgramStep(tokens, current, root.children);
          break;
        }
        var node := ParseStatement();
        root := root.(children := root.children + node);
      }
      ProgramStep(tokens, current, root.children);
    }
  }
}
