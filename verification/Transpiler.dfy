/** The HTML that `lamia_real_compiler.cpp` writes for a tree. */
module Transpiler {
  import opened Escaping
  import opened ListItems
  import opened Parser
  import opened Tags

  function Pad(n: nat): (r: string)
    ensures |r| == n && forall k | 0 <= k < n :: r[k] == ' '
  {
    seq(n, _ => ' ')
  }

  function Element(name: string, text: string): string {
    Open(name) + (text + Close(name))
  }

  function Row(pad: string, element: string): string {
    (pad + "  ") + (element + "\n")
  }

  function ItemRows(pad: string, items: seq<string>): string {
    if items == [] then ""
    else ((pad + "    ") + (Element("li", Escaped(items[0])) + "\n")) + ItemRows(pad, items[1..])
  }

  function Boxed(pad: string, class_: string, inner: string): string {
    pad + ((OpenWith("div", "class", class_) + (("\n" + (inner + pad)) + Close("div"))) + "\n")
  }

  /** `<ul>` and its items, on rows of their own. */
  function ListOf(pad: string, items: seq<string>): string {
    Row(pad, Open("ul") + (("\n" + (ItemRows(pad, items) + (pad + "  "))) + Close("ul")))
  }

  function Button(action: string, content: string): string {
    OpenWith("button", "onclick", action) + (Escaped(content) + Close("button"))
  }

  /** What one widget becomes; other leaves become nothing. */
  function Fragment(n: Node, pad: string): string {
    var content := Escaped(Get(n.attributes, "content"));
    match n.kind
    case RadiantHeading => Boxed(pad, "radiant-heading", Row(pad, Element("h1", content)))
    case RadiantText => Boxed(pad, "radiant-text", Row(pad, Element("p", content)))
    case RadiantButton =>
      Boxed(pad, "radiant-button",
            Row(pad, Button(Get(n.attributes, "action"), Get(n.attributes, "content"))))
    case ConstellationList =>
      Boxed(pad, "constellation-list",
            Row(pad, Element("h3", Escaped(Get(n.attributes, "title"))))
                + ListOf(pad, Recovered(Get(n.attributes, "items"))))
    case RadiantQuote =>
      var attribution := Get(n.attributes, "attribution");
      Boxed(pad, "radiant-quote",
            Row(pad, Element("blockquote", content))
            + (if attribution == "" then "" else Row(pad, Element("cite", Escaped(attribution)))))
    case GcodeBlock =>
      Boxed(pad, "gcode-block",
            Row(pad, Element("h4", "G-Code Block")) + Row(pad, Element("pre", Escaped(Get(n.attributes, "commands")))))
    case _ => ""
  }

  predicate Holds(n: Node) {
    n.kind == ManifestNode || n.kind == Startup
  }

  function NodeToHtml(n: Node, indent: nat): string
    decreases n, 0
  {
    if Holds(n) then ChildrenToHtml(n, indent, 0) else Fragment(n, Pad(indent))
  }

  /** The children from the `k`th on. */
  function ChildrenToHtml(n: Node, indent: nat, k: nat): string
    requires k <= |n.children|
    decreases n, 0, |n.children| - k
  {
    if k == |n.children| then "" else NodeToHtml(n.children[k], indent) + ChildrenToHtml(n, indent, k + 1)
  }

  // ---------- the leaves of a tree, in order ----------

  function Leaves(n: Node): seq<Node>
    decreases n, 0
  {
    if Holds(n) then LeavesFrom(n, 0) else [n]
  }

  function LeavesFrom(n: Node, k: nat): seq<Node>
    requires k <= |n.children|
    decreases n, 0, |n.children| - k
  {
    if k == |n.children| then [] else Leaves(n.children[k]) + LeavesFrom(n, k + 1)
  }

  function Fragments(ns: seq<Node>, pad: string): string {
    if ns == [] then "" else Fragment(ns[0], pad) + Fragments(ns[1..], pad)
  }

  lemma {:induction false} FragmentsConcat(a: seq<Node>, b: seq<Node>, pad: string)
    ensures Fragments(a + b, pad) == Fragments(a, pad) + Fragments(b, pad)
  {
    hide Fragment;
    if a == [] {
      assert a + b == b;
    } else {
      FragmentsConcat(a[1..], b, pad);
      assert (a + b)[1..] == a[1..] + b && (a + b)[0] == a[0];
      var first, more, rest := Fragment(a[0], pad), Fragments(a[1..], pad), Fragments(b, pad);
      assert first + (more + rest) == (first + more) + rest;
    }
  }

  /** However deeply manifests nest, the HTML is that of the leaves, one after the other, at one indent. */
  lemma {:induction false} HtmlOfLeaves(n: Node, indent: nat)
    ensures NodeToHtml(n, indent) == Fragments(Leaves(n), Pad(indent))
    decreases n, 0
  {
    hide Fragment, Pad;
    if Holds(n) {
      ChildrenOfLeaves(n, indent, 0);
    } else {
      assert Fragment(n, Pad(indent)) + "" == Fragment(n, Pad(indent));
    }
  }

  lemma {:induction false} ChildrenOfLeaves(n: Node, indent: nat, k: nat)
    requires k <= |n.children|
    ensures ChildrenToHtml(n, indent, k) == Fragments(LeavesFrom(n, k), Pad(indent))
    decreases n, 0, |n.children| - k
  {
    hide Fragment, Pad, Fragments;
    if k < |n.children| {
      HtmlOfLeaves(n.children[k], indent);
      ChildrenOfLeaves(n, indent, k + 1);
      FragmentsConcat(Leaves(n.children[k]), LeavesFrom(n, k + 1), Pad(indent));
    } else {
      NoFragments(Pad(indent));
    }
  }

  /** What a manifest or a startup mark adds to the HTML of its children: nothing, in their order. */
  lemma HoldersAddNothing(kind: NodeType, name: string, attributes: map<string, string>, a: seq<Node>, b: seq<Node>,
                          indent: nat)
    requires kind == ManifestNode || kind == Startup
    ensures NodeToHtml(Node(kind, name, attributes, []), indent) == ""
    ensures NodeToHtml(Node(kind, name, attributes, a + b), indent) ==
        NodeToHtml(Node(kind, name, attributes, a), indent) + NodeToHtml(Node(kind, name, attributes, b), indent)
    ensures forall c :: NodeToHtml(Node(kind, name, attributes, [c]), indent) == NodeToHtml(c, indent)
  {
    hide Fragment;
    var both, first, second :=
      Node(kind, name, attributes, a + b), Node(kind, name, attributes, a), Node(kind, name, attributes, b);
    FirstChildren(both, first, second, indent, 0);
    forall c ensures NodeToHtml(Node(kind, name, attributes, [c]), indent) == NodeToHtml(c, indent) {
      var one := Node(kind, name, attributes, [c]);
      assert ChildrenToHtml(one, indent, 1) == "";
      assert ChildrenToHtml(one, indent, 0) == NodeToHtml(c, indent) + "";
    }
  }

  lemma {:induction false} FirstChildren(both: Node, first: Node, second: Node, indent: nat, k: nat)
    requires both.children == first.children + second.children && k <= |first.children|
    ensures ChildrenToHtml(both, indent, k) == ChildrenToHtml(first, indent, k) + ChildrenToHtml(second, indent, 0)
    decreases |first.children| - k
  {
    hide Fragment, NodeToHtml;
    if k < |first.children| {
      FirstChildren(both, first, second, indent, k + 1);
      var html, more, rest := NodeToHtml(first.children[k], indent), ChildrenToHtml(first, indent, k + 1),
          ChildrenToHtml(second, indent, 0);
      assert html + (more + rest) == html + more + rest;
    } else {
      LastChildren(both, second, indent, k, 0);
      assert "" + ChildrenToHtml(second, indent, 0) == ChildrenToHtml(second, indent, 0);
    }
  }

  lemma {:induction false} LastChildren(both: Node, second: Node, indent: nat, before: nat, k: nat)
    requires |both.children| == before + |second.children| && both.children[before..] == second.children
    requires k <= |second.children|
    ensures ChildrenToHtml(both, indent, before + k) == ChildrenToHtml(second, indent, k)
    decreases |second.children| - k
  {
    hide Fragment, NodeToHtml;
    if k < |second.children| {
      assert both.children[before..][k] == both.children[before + k];
      LastChildren(both, second, indent, before, k + 1);
    }
  }

  lemma NoFragments(pad: string)
    ensures Fragments([], pad) == ""
  {
  }

  // ---------- tags nest ----------

  /** A button's action is written into its tag as it is.  Read on behind the opening quote, it and
      the `">` behind it end the tag, with the button open inside what was open before. */
  predicate Nests(action: string, open: seq<string>) {
    Run(Reader(InQuotes("button onclick="), open), action + "\">") == Reader(InText, open + ["button"])
  }

  /** The action nests inside the button's own `div`. */
  predicate SafeAction(n: Node) {
    n.kind == RadiantButton ==> Nests(Get(n.attributes, "action"), ["div"])
  }

  /** An action without quotes nests anywhere. */
  lemma QuoteFreeNests(action: string, open: seq<string>)
    requires '\"' !in action
    ensures Nests(action, open)
  {
    hide Run, OpenWith, ElementName, Plain;
    NamesGood();
    assert "button" + " " + "onclick" + "=" == "button onclick=";
    OpenWithBegins(open, "button", "onclick", action);
    OpenWithRun(open, "button", "onclick", action);
  }

  lemma ShortNames()
    ensures ElementName("div") && ElementName("h1") && ElementName("p") && ElementName("h3") && ElementName("ul")
    ensures ElementName("li") && ElementName("h4") && ElementName("pre") && ElementName("cite")
  {
  }

  lemma LongNames()
    ensures ElementName("button") && ElementName("blockquote") && Plain("class") && Plain("onclick")
  {
  }

  lemma NamesGood()
    ensures ElementName("div") && ElementName("h1") && ElementName("p") && ElementName("button") && ElementName("h3")
    ensures ElementName("ul") && ElementName("li") && ElementName("blockquote") && ElementName("cite")
        && ElementName("h4") && ElementName("pre")
    ensures Plain("class") && Plain("onclick")
  {
    hide ElementName, Plain;
    ShortNames();
    LongNames();
  }

  lemma Blanks()
    ensures Balanced("\n") && Balanced("  ") && Balanced("    ") && Balanced("") && Balanced("G-Code Block")
  {
    TextBalanced("\n");
    TextBalanced("  ");
    TextBalanced("    ");
    TextBalanced("");
    TextBalanced("G-Code Block");
  }

  lemma EscapedBalanced(s: string)
    ensures Balanced(Escaped(s))
  {
    hide Escaped, Balanced;
    EscapedIsInert(s);
    TextBalanced(Escaped(s));
  }

  lemma ElementOfText(name: string, s: string)
    requires ElementName(name)
    ensures Balanced(Element(name, Escaped(s)))
  {
    hide Escaped, Balanced, Open, Close, ElementName;
    EscapedBalanced(s);
    ElementBalanced(name, Escaped(s));
  }

  lemma RowBalanced(pad: string, element: string)
    requires Balanced(pad) && Balanced(element)
    ensures Balanced(Row(pad, element))
  {
    hide Balanced;
    Blanks();
    BalancedConcat(pad, "  ");
    BalancedConcat(element, "\n");
    BalancedConcat(pad + "  ", element + "\n");
  }

  lemma BoxedBalanced(pad: string, class_: string, inner: string)
    requires Balanced(pad) && Balanced(inner) && '\"' !in class_
    ensures Balanced(Boxed(pad, class_, inner))
  {
    hide Balanced, OpenWith, Close, ElementName, Plain;
    Blanks();
    NamesGood();
    BalancedConcat(inner, pad);
    BalancedConcat("\n", inner + pad);
    ElementWithBalanced("div", "class", class_, "\n" + (inner + pad));
    var box := OpenWith("div", "class", class_) + (("\n" + (inner + pad)) + Close("div"));
    BalancedConcat(box, "\n");
    BalancedConcat(pad, box + "\n");
  }

  lemma {:induction false} ItemRowsBalanced(pad: string, items: seq<string>)
    requires Balanced(pad)
    ensures Balanced(ItemRows(pad, items))
  {
    hide Balanced, Element, ElementName, Escaped;
    Blanks();
    if items != [] {
      NamesGood();
      ElementOfText("li", items[0]);
      var element := Element("li", Escaped(items[0]));
      BalancedConcat(pad, "    ");
      BalancedConcat(element, "\n");
      BalancedConcat(pad + "    ", element + "\n");
      ItemRowsBalanced(pad, items[1..]);
      BalancedConcat((pad + "    ") + (element + "\n"), ItemRows(pad, items[1..]));
    }
  }

  lemma ListBalanced(pad: string, items: seq<string>)
    requires Balanced(pad)
    ensures Balanced(ListOf(pad, items))
  {
    hide Balanced, ItemRows, Open, Close, ElementName, Row;
    Blanks();
    NamesGood();
    ItemRowsBalanced(pad, items);
    BalancedConcat(pad, "  ");
    BalancedConcat(ItemRows(pad, items), pad + "  ");
    BalancedConcat("\n", ItemRows(pad, items) + (pad + "  "));
    ElementBalanced("ul", "\n" + (ItemRows(pad, items) + (pad + "  ")));
    RowBalanced(pad, Open("ul") + (("\n" + (ItemRows(pad, items) + (pad + "  "))) + Close("ul")));
  }

  lemma RowOfText(pad: string, name: string, s: string)
    requires Balanced(pad) && ElementName(name)
    ensures Balanced(Row(pad, Element(name, Escaped(s))))
  {
    hide Balanced, Row, Element, Escaped, ElementName;
    ElementOfText(name, s);
    RowBalanced(pad, Element(name, Escaped(s)));
  }

  /** From any point the button leads back to it exactly if its action nests there. */
  lemma ButtonRuns(open: seq<string>, action: string, content: string)
    ensures Run(Reader(InText, open), Button(action, content)) == Reader(InText, open) <==> Nests(action, open)
  {
    hide Run, OpenWith, Close, ElementName, Plain, Escaped;
    NamesGood();
    EscapedPlain(content);
    assert "button" + " " + "onclick" + "=" == "button onclick=";
    RunConcat(Reader(InText, open), OpenWith("button", "onclick", action), Escaped(content) + Close("button"));
    OpenWithBegins(open, "button", "onclick", action);
    EndsOnlyFrom(Run(Reader(InText, open), OpenWith("button", "onclick", action)), Escaped(content), "button", open);
  }

  lemma EscapedPlain(s: string)
    ensures Plain(Escaped(s))
  {
    hide Escaped;
    EscapedIsInert(s);
  }

  /** A button is balanced exactly if its action nests on its own, whatever its content. */
  lemma ButtonBalancedIff(action: string, content: string)
    ensures Balanced(Button(action, content)) <==> Nests(action, [])
  {
    hide Run, Button, Nests, Balanced;
    BalancedIff(Button(action, content));
    ButtonRuns([], action, content);
  }

  lemma LastBreak(r: Reader, open: seq<string>)
    ensures Run(r, "\n") == Reader(InText, open) <==> r == Reader(InText, open)
  {
    hide NameIn;
    assert "\n" == ['\n'] + "";
    RunOne(r, '\n', "");
    RunNone(Feed(r, '\n'));
  }

  /** The box of a button, which opens a `div` around it. */
  lemma ButtonBoxRuns(pad: string, action: string, content: string)
    requires Plain(pad)
    ensures var box := Boxed(pad, "radiant-button", Row(pad, Button(action, content)));
      Run(Reader(InText, []), box) == Reader(InText, []) <==> Nests(action, ["div"])
  {
    hide Run, OpenWith, Close, ElementName, Button, Nests;
    NamesGood();
    var button := Button(action, content);
    var start := pad + (OpenWith("div", "class", "radiant-button") + ("\n" + (pad + "  ")));
    var text := "\n" + pad;
    assert Boxed(pad, "radiant-button", Row(pad, button)) == start + (button + ((text + Close("div")) + "\n"));
    BoxStarts(pad);
    RunConcat(Reader(InText, []), start, button + ((text + Close("div")) + "\n"));
    RunConcat(Reader(InText, ["div"]), button, (text + Close("div")) + "\n");
    var r := Run(Reader(InText, ["div"]), button);
    RunConcat(r, text + Close("div"), "\n");
    LastBreak(Run(r, text + Close("div")), []);
    EndsOnlyFrom(r, text, "div", []);
    assert [] + ["div"] == ["div"];
    ButtonRuns(["div"], action, content);
  }

  lemma BoxStarts(pad: string)
    requires Plain(pad)
    ensures Run(Reader(InText, []), pad + (OpenWith("div", "class", "radiant-button") + ("\n" + (pad + "  ")))) ==
        Reader(InText, ["div"])
  {
    hide Run, OpenWith, ElementName;
    NamesGood();
    var div, text := OpenWith("div", "class", "radiant-button"), "\n" + (pad + "  ");
    RunConcat(Reader(InText, []), pad, div + text);
    TextRun([], pad);
    RunConcat(Reader(InText, []), div, text);
    OpenWithRun([], "div", "class", "radiant-button");
    assert [] + ["div"] == ["div"];
    TextRun(["div"], text);
  }

  /** A quote in an action ends the value, and what follows can open an element that stays open. */
  lemma QuoteBreaksNesting(name: string, content: string)
    requires ElementName(name) && name != "button"
    ensures !Balanced(Button("\"><" + (name + ">"), content))
  {
    hide Escaped, ElementName, Run, OpenWith, Open, Close;
    NamesGood();
    var start := Reader(InText, []);
    var action := "\"><" + (name + ">");
    var text := "\">" + Escaped(content);
    QuoteEndsValue(name, content);
    RunConcat(start, OpenWith("button", "onclick", ""), Open(name) + (text + Close("button")));
    OpenWithRun([], "button", "onclick", "");
    RunConcat(Reader(InText, ["button"]), Open(name), text + Close("button"));
    assert [] + ["button"] == ["button"];
    OpenRun(["button"], name);
    EscapedIsInert(content);
    RunConcat(Reader(InText, ["button"] + [name]), text, Close("button"));
    TextRun(["button"] + [name], text);
    WrongClose(["button"], name, "button");
    assert Run(start, Button(action, content)) == Broken;
  }

  lemma QuoteEndsValue(name: string, content: string)
    ensures Button("\"><" + (name + ">"), content) ==
            OpenWith("button", "onclick", "") + (Open(name) + (("\">" + Escaped(content)) + Close("button")))
  {
    hide Escaped;
  }

  lemma OtherFragmentBalanced(n: Node, pad: string)
    requires n.kind != RadiantButton && Balanced(pad)
    ensures Balanced(Fragment(n, pad))
  {
    hide Balanced, Row, Boxed, Element, Button, Escaped, ElementName, Plain, OpenWith, Close, ListOf, Recovered, Get;
    NamesGood();
    Blanks();
    var a := n.attributes;
    match n.kind
    case RadiantHeading =>
      RowOfText(pad, "h1", Get(a, "content"));
      BoxedBalanced(pad, "radiant-heading", Row(pad, Element("h1", Escaped(Get(a, "content")))));
    case RadiantText =>
      RowOfText(pad, "p", Get(a, "content"));
      BoxedBalanced(pad, "radiant-text", Row(pad, Element("p", Escaped(Get(a, "content")))));
    case ConstellationList =>
      RowOfText(pad, "h3", Get(a, "title"));
      ListBalanced(pad, Recovered(Get(a, "items")));
      var title, list := Row(pad, Element("h3", Escaped(Get(a, "title")))), ListOf(pad, Recovered(Get(a, "items")));
      BalancedConcat(title, list);
      BoxedBalanced(pad, "constellation-list", title + list);
    case RadiantQuote =>
      RowOfText(pad, "blockquote", Get(a, "content"));
      RowOfText(pad, "cite", Get(a, "attribution"));
      var quote := Row(pad, Element("blockquote", Escaped(Get(a, "content"))));
      var cite := if Get(a, "attribution") == "" then "" else Row(pad, Element("cite", Escaped(Get(a, "attribution"))));
      BalancedConcat(quote, cite);
      BoxedBalanced(pad, "radiant-quote", quote + cite);
    case GcodeBlock => GcodeBalanced(n, pad);
    case _ =>
  }

  /** Exactly the leaves with safe actions become balanced HTML, at every indent. */
  lemma FragmentBalancedIff(n: Node, pad: string)
    requires Plain(pad)
    ensures Balanced(Fragment(n, pad)) <==> SafeAction(n)
  {
    hide Balanced, Row, Boxed, Button, Nests;
    TextBalanced(pad);
    if n.kind == RadiantButton {
      ButtonBoxRuns(pad, Get(n.attributes, "action"), Get(n.attributes, "content"));
      BalancedIff(Fragment(n, pad));
    } else {
      OtherFragmentBalanced(n, pad);
    }
  }

  lemma GcodeBalanced(n: Node, pad: string)
    requires n.kind == GcodeBlock && Balanced(pad)
    ensures Balanced(Fragment(n, pad))
  {
    hide Balanced, Row, Boxed, Escaped, ElementName, Open, Close, Get;
    NamesGood();
    Blanks();
    var commands := Get(n.attributes, "commands");
    ElementBalanced("h4", "G-Code Block");
    RowBalanced(pad, Element("h4", "G-Code Block"));
    RowOfText(pad, "pre", commands);
    BalancedConcat(Row(pad, Element("h4", "G-Code Block")), Row(pad, Element("pre", Escaped(commands))));
    BoxedBalanced(pad, "gcode-block", Row(pad, Element("h4", "G-Code Block"))
        + Row(pad, Element("pre", Escaped(commands))));
  }

  lemma {:induction false} FragmentsBalanced(ns: seq<Node>, pad: string)
    requires Plain(pad) && forall k | 0 <= k < |ns| :: SafeAction(ns[k])
    ensures Balanced(Fragments(ns, pad))
  {
    hide Balanced, Fragment, SafeAction, Plain;
    if ns == [] {
      Blanks();
    } else {
      FragmentBalancedIff(ns[0], pad);
      FragmentsBalanced(ns[1..], pad);
      BalancedConcat(Fragment(ns[0], pad), Fragments(ns[1..], pad));
    }
  }

  /** Every tree whose button actions nest becomes well-nested HTML, whatever else its
      attributes say. */
  lemma HtmlIsWellNested(n: Node, indent: nat)
    requires forall k | 0 <= k < |Leaves(n)| :: SafeAction(Leaves(n)[k])
    ensures Balanced(NodeToHtml(n, indent))
  {
    hide Balanced, NodeToHtml, Fragments, SafeAction, Leaves;
    HtmlOfLeaves(n, indent);
    FragmentsBalanced(Leaves(n), Pad(indent));
  }

  /** Actions without double quotes do. */
  lemma QuoteFreeHtmlIsWellNested(n: Node, indent: nat)
    requires forall k | 0 <= k < |Leaves(n)| && Leaves(n)[k].kind == RadiantButton ::
      '\"' !in Get(Leaves(n)[k].attributes, "action")
    ensures Balanced(NodeToHtml(n, indent))
  {
    hide Balanced, NodeToHtml, Nests, Leaves;
    forall k | 0 <= k < |Leaves(n)| ensures SafeAction(Leaves(n)[k]) {
      if Leaves(n)[k].kind == RadiantButton {
        QuoteFreeNests(Get(Leaves(n)[k].attributes, "action"), ["div"]);
      }
    }
    HtmlIsWellNested(n, indent);
  }

  ghost predicate LeavesAmong(n: Node, leaves: iset<Node>) {
    forall k | 0 <= k < |Leaves(n)| :: Leaves(n)[k] in leaves
  }

  ghost predicate PagesNest(leaves: iset<Node>) {
    forall n, indent: nat :: LeavesAmong(n, leaves) ==> Balanced(NodeToHtml(n, indent))
  }

  ghost predicate ActionsSafe(leaves: iset<Node>) {
    forall leaf :: leaf in leaves ==> SafeAction(leaf)
  }

  /** Whatever is built from a stock of leaves is well nested if and only if every button of the
      stock has an action that nests. */
  lemma PagesNestIff(leaves: iset<Node>)
    ensures PagesNest(leaves) <==> ActionsSafe(leaves)
  {
    hide Balanced, SafeAction, NodeToHtml;
    if ActionsSafe(leaves) {
      forall n, indent: nat | LeavesAmong(n, leaves) ensures Balanced(NodeToHtml(n, indent)) {
        HtmlIsWellNested(n, indent);
      }
    }
    if PagesNest(leaves) {
      forall leaf | leaf in leaves ensures SafeAction(leaf) {
        if leaf.kind == RadiantButton {
          assert Leaves(leaf) == [leaf];
          assert LeavesAmong(leaf, leaves);
          LeafAlone(leaf);
        } else {
          NoAction(leaf);
        }
      }
    }
  }

  lemma NoAction(n: Node)
    requires n.kind != RadiantButton
    ensures SafeAction(n)
  {
  }

  lemma LeafAlone(n: Node)
    requires !Holds(n) && Balanced(NodeToHtml(n, 0))
    ensures SafeAction(n)
  {
    hide Balanced, Fragment, SafeAction;
    FragmentBalancedIff(n, Pad(0));
  }
}
