/** What the optimiser's rewrite does to a program: it adds comment lines, and the program stays the same. */
module Rewriting {
  import opened Lexer
  import opened Parser
  import opened Pipeline
  import opened Surface
  import opened Trees
  import opened Unclosed
  import Optimizer

  // ---------- one comment line in front and one behind ----------

  /** The layout with a comment line before it and one after it. */
  function Framed(items: seq<Lexer.Item>, tail: seq<Gap>, head: string): seq<Lexer.Item> {
    [Lexer.Item([LineComment(head)], LINE)] + items + [Lexer.Item(tail, LINE)]
  }

  lemma {:induction false} PrintAppend(items: seq<Lexer.Item>, last: Lexer.Item, tail: seq<Gap>)
    ensures Print(items + [last], tail) == Print(items, last.gap) + (Spell(last.lexeme) + GapTexts(tail))
  {
    hide Spell, GapTexts;
    if items == [] {
      assert items + [last] == [last] && [last][1..] == [];
      assert Print([last], tail) == GapTexts(last.gap) + (Spell(last.lexeme) + Print([], tail));
    } else {
      PrintAppend(items[1..], last, tail);
      assert (items + [last])[1..] == items[1..] + [last];
      var g, l, rest := GapTexts(items[0].gap), Spell(items[0].lexeme), Print(items[1..], last.gap);
      var end := Spell(last.lexeme) + GapTexts(tail);
      assert g + (l + (rest + end)) == g + (l + rest) + end;
    }
  }

  lemma OneGap(text: string)
    ensures GapTexts([LineComment(text)]) == "//" + text
  {
    var gap := [LineComment(text)];
    assert gap[1..] == [] && GapTexts(gap) == GapText(gap[0]) + GapTexts([]);
    assert "//" + text + "" == "//" + text;
  }

  /** Framing a layout puts the comment lines around its text. */
  lemma FramedText(items: seq<Lexer.Item>, tail: seq<Gap>, head: string, foot: string)
    ensures Print(Framed(items, tail, head), [LineComment(foot)]) ==
      "//" + head + "\n" + Print(items, tail) + ("\n//" + foot)
  {
    hide Print, GapTexts;
    var first, last := Lexer.Item([LineComment(head)], LINE), Lexer.Item(tail, LINE);
    PrintAppend([first] + items, last, [LineComment(foot)]);
    PrintFirst(first, items, tail);
    OneGap(head);
    OneGap(foot);
    assert Spell(LINE) == "\n";
    var text := Print(items, tail);
    assert ("//" + head) + ("\n" + text) + ("\n" + ("//" + foot)) == "//" + head + "\n" + text + ("\n//" + foot);
  }

  lemma PrintFirst(first: Lexer.Item, items: seq<Lexer.Item>, tail: seq<Gap>)
    ensures Print([first] + items, tail) == GapTexts(first.gap) + (Spell(first.lexeme) + Print(items, tail))
  {
    hide GapTexts, Spell;
    assert ([first] + items)[1..] == items;
  }

  lemma FramedLayout(items: seq<Lexer.Item>, tail: seq<Gap>, head: string, foot: string)
    requires ValidLayout(items, tail) && '\n' !in head && '\n' !in foot
    ensures ValidLayout(Framed(items, tail, head), [LineComment(foot)])
  {
    var all := Framed(items, tail, head);
    LineValid();
    assert ValidGap([LineComment(head)], true) && ValidGap([LineComment(foot)], true);
    hide Valid, ValidGap;
    forall k | 0 <= k < |all| ensures all[k] ==
      if k == 0 then Lexer.Item([LineComment(head)], LINE)
      else if k <= |items| then items[k - 1] else Lexer.Item(tail, LINE)
    {
    }
  }

  lemma LineValid()
    ensures Valid(LINE)
  {
  }

  lemma {:induction false} FramedTokens(items: seq<Lexer.Item>, tail: seq<Gap>, head: string)
    ensures Printed(Framed(items, tail, head)) == [LINE] + Printed(items) + [LINE]
  {
    hide Printed;
    PrintedPart([Lexer.Item([LineComment(head)], LINE)] + items, [Lexer.Item(tail, LINE)]);
    PrintedPart([Lexer.Item([LineComment(head)], LINE)], items);
    PrintedOne(Lexer.Item([LineComment(head)], LINE));
    PrintedOne(Lexer.Item(tail, LINE));
  }

  lemma PrintedOne(item: Lexer.Item)
    ensures Printed([item]) == [item.lexeme]
  {
    assert [item][1..] == [];
  }

  lemma {:induction false} PrintedPart(a: seq<Lexer.Item>, b: seq<Lexer.Item>)
    ensures Printed(a + b) == Printed(a) + Printed(b)
  {
    if a == [] {
      assert a + b == b;
    } else {
      assert (a + b)[1..] == a[1..] + b;
      PrintedPart(a[1..], b);
    }
  }

  // ---------- line breaks around a program change nothing ----------

  /** The same statements, with line breaks behind the last. */
  function Trailing(clauses: seq<Clause>, lines: nat): seq<Clause> {
    if clauses == [] then []
    else if |clauses| == 1 then [Clause(clauses[0].stmt, clauses[0].gap + LineBreaks(lines))]
    else [clauses[0]] + Trailing(clauses[1..], lines)
  }

  function LineBreaks(n: nat): (r: seq<Break>)
    ensures |r| == n && forall k | 0 <= k < n :: r[k] == Line
  {
    seq(n, _ => Line)
  }

  lemma {:induction false} TrailingSame(clauses: seq<Clause>, lines: nat)
    requires GoodClauses(clauses)
    ensures GoodClauses(Trailing(clauses, lines)) && ClauseNodes(Trailing(clauses, lines)) == ClauseNodes(clauses)
    ensures clauses != [] ==> ClausesTokens(Trailing(clauses, lines)) == ClausesTokens(clauses) + Lines(lines)
    decreases |clauses|
  {
    hide StmtTokens, StmtNode, GoodStmt;
    if |clauses| == 1 {
      var clause := clauses[0];
      var longer := Clause(clause.stmt, clause.gap + LineBreaks(lines));
      assert clauses[1..] == [] && [longer][1..] == [];
      assert Breaks(longer.gap) == Breaks(clause.gap) + Lines(lines);
      assert ClausesTokens(clauses) == StmtTokens(clause.stmt) + (Breaks(clause.gap) + []);
      assert ClausesTokens([longer]) == StmtTokens(clause.stmt) + (Breaks(longer.gap) + []);
      assert Apart(longer, []);
    } else if clauses != [] {
      var first, rest := clauses[0], clauses[1..];
      TrailingSame(rest, lines);
      var more := Trailing(rest, lines);
      assert ([first] + more)[1..] == more;
      assert StmtTokens(first.stmt) + (Breaks(first.gap) + (ClausesTokens(rest) + Lines(lines))) ==
          StmtTokens(first.stmt) + (Breaks(first.gap) + ClausesTokens(rest)) + Lines(lines);
    }
  }

  /** A canonical forest's tokens between line breaks are parsed to the same forest. */
  lemma BetweenLines(ns: seq<Node>, lines: nat)
    requires AllCanonical(ns)
    ensures ForestTokens(ns) != []
    ensures var ts := Lines(lines) + ForestTokens(ns)[..|ForestTokens(ns)| - 1] + Lines(lines) + [EOF];
      var r := Program(ts, 0, []); r.Done? && r.value == ns
  {
    hide Canonical, Program, GoodClauses, ClauseNodes, ClausesTokens, WriteChildren, FateOf, Trailing;
    var clauses := WriteChildren(Root(ns), 0);
    ChildrenWrite(Root(ns), 0);
    assert Root(ns).children[0..] == ns;
    TrailingSame(clauses, lines);
    var lead := if clauses == [] then LineBreaks(lines + lines) else LineBreaks(lines);
    ProgramReads(lead, Trailing(clauses, lines));
    var most := ClausesTokens(clauses);
    assert ForestTokens(ns) == most + [EOF];
    assert ForestTokens(ns)[..|ForestTokens(ns)| - 1] == most;
    LinesAround(clauses, lines);
  }

  lemma LinesAround(clauses: seq<Clause>, lines: nat)
    requires clauses != [] ==> ClausesTokens(Trailing(clauses, lines)) == ClausesTokens(clauses) + Lines(lines)
    ensures var lead := if clauses == [] then LineBreaks(lines + lines) else LineBreaks(lines);
      ProgramTokens(lead, Trailing(clauses, lines)) == Lines(lines) + ClausesTokens(clauses) + Lines(lines) + [EOF]
  {
    hide StmtTokens;
    assert Breaks(LineBreaks(lines)) == Lines(lines);
    if clauses == [] {
      assert Breaks(LineBreaks(lines + lines)) == Lines(lines) + Lines(lines);
    }
  }

  // ---------- the rewrite ----------

  const FAST_HEAD := " PERFORMANCE OPTIMIZED"
  const FAST_FOOT := " @ludicrous @ai_accelerated"
  const AI_HEAD := " AI ENHANCED"
  const AI_FOOT := " @ai_enhanced @neural_optimized"

  /** The rewritten text, by its comment lines. */
  lemma RewriteFrames(code: string, m: Optimizer.Metrics)
    ensures var fast := if m.performance < 90.0 then "//" + FAST_HEAD + "\n" + code + ("\n//" + FAST_FOOT) else code;
      Optimizer.Rewrite(code, m) ==
      if m.ai < 95.0 then "//" + AI_HEAD + "\n" + fast + ("\n//" + AI_FOOT) else fast
  {
    hide FAST_HEAD, FAST_FOOT, AI_HEAD, AI_FOOT, Optimizer.FAST_HEAD, Optimizer.FAST_TAIL, Optimizer.AI_HEAD,
        Optimizer.AI_TAIL;
    FastLines();
    AiLines();
  }

  lemma FastLines()
    ensures Optimizer.FAST_HEAD == "//" + FAST_HEAD + "\n" && Optimizer.FAST_TAIL == "\n//" + FAST_FOOT
  {
  }

  lemma AiLines()
    ensures Optimizer.AI_HEAD == "//" + AI_HEAD + "\n" && Optimizer.AI_TAIL == "\n//" + AI_FOOT
  {
  }

  /** A layout of the tokens with `lines` line breaks at both ends. */
  ghost predicate Lays(s: string, most: seq<Lexeme>, lines: nat, items: seq<Lexer.Item>, tail: seq<Gap>) {
    ValidLayout(items, tail) && s == Print(items, tail) && Printed(items) == Lines(lines) + most + Lines(lines)
  }

  ghost predicate LaidOut(s: string, most: seq<Lexeme>, lines: nat) {
    exists items, tail :: Lays(s, most, lines, items, tail)
  }

  lemma FrameLays(s: string, most: seq<Lexeme>, lines: nat, head: string, foot: string)
    requires LaidOut(s, most, lines) && '\n' !in head && '\n' !in foot
    ensures LaidOut("//" + head + "\n" + s + ("\n//" + foot), most, lines + 1)
  {
    hide ValidLayout, Print, Printed;
    var items, tail :| Lays(s, most, lines, items, tail);
    FramedText(items, tail, head, foot);
    FramedLayout(items, tail, head, foot);
    FramedTokens(items, tail, head);
    OneLineMore(most, lines);
    hide Framed;
    var framed := Framed(items, tail, head);
    assert Lays("//" + head + "\n" + s + ("\n//" + foot), most, lines + 1, framed, [LineComment(foot)]);
  }

  lemma OneLineMore(most: seq<Lexeme>, lines: nat)
    ensures [LINE] + (Lines(lines) + most + Lines(lines)) + [LINE] == Lines(lines + 1) + most + Lines(lines + 1)
  {
    assert Lines(lines + 1) == [LINE] + Lines(lines) == Lines(lines) + [LINE];
  }

  lemma LaidOutParses(s: string, ns: seq<Node>, lines: nat)
    requires AllCanonical(ns) && ForestTokens(ns) != []
    requires LaidOut(s, ForestTokens(ns)[..|ForestTokens(ns)| - 1], lines)
    ensures ParsesTo(s, ns)
  {
    hide ValidLayout, Print, Printed, ForestTokens, AllCanonical, Program, Lexemes;
    var items, tail :| Lays(s, ForestTokens(ns)[..|ForestTokens(ns)| - 1], lines, items, tail);
    PrintThenTokenize(items, tail);
    BetweenLines(ns, lines);
  }

  lemma CommentsAreLines()
    ensures '\n' !in FAST_HEAD && '\n' !in FAST_FOOT && '\n' !in AI_HEAD && '\n' !in AI_FOOT
  {
  }

  lemma Unframed(most: seq<Lexeme>, items: seq<Lexer.Item>, tail: seq<Gap>)
    requires ValidLayout(items, tail) && Printed(items) == most
    ensures LaidOut(Print(items, tail), most, 0)
  {
    hide ValidLayout, Print, Printed;
    assert Lines(0) + most + Lines(0) == most;
    assert Lays(Print(items, tail), most, 0, items, tail);
  }

  /** The rewrite changes nothing about a text with good scores, and otherwise frames it once or twice. */
  lemma RewriteLays(code: string, most: seq<Lexeme>, m: Optimizer.Metrics)
    requires LaidOut(code, most, 0)
    ensures var lines := (if m.performance < 90.0 then 1 else 0) + (if m.ai < 95.0 then 1 else 0);
      LaidOut(Optimizer.Rewrite(code, m), most, lines) && (lines == 0 ==> Optimizer.Rewrite(code, m) == code)
  {
    hide LaidOut, Optimizer.Rewrite;
    CommentsAreLines();
    RewriteFrames(code, m);
    var fast := if m.performance < 90.0 then "//" + FAST_HEAD + "\n" + code + ("\n//" + FAST_FOOT) else code;
    FrameLays(code, most, 0, FAST_HEAD, FAST_FOOT);
    FrameLays(fast, most, if m.performance < 90.0 then 1 else 0, AI_HEAD, AI_FOOT);
  }

  /** A text that ends with a line break is parsed to canonical trees only. */
  lemma LineEndsIt(s: string, most: seq<Lexeme>, lines: nat, ns: seq<Node>)
    requires LaidOut(s, most, lines) && lines > 0 && ParsesTo(s, ns)
    ensures AllCanonical(ns)
  {
    hide ValidLayout, Print, Printed, AllCanonical, Program, Lexemes, FromText;
    var items, tail :| Lays(s, most, lines, items, tail);
    PrintThenTokenize(items, tail);
    TextGivesTokens(s);
    var ts := TokensOf(s);
    assert ts == Lines(lines) + most + Lines(lines) + [EOF];
    assert ts[|ts| - 2] == LINE;
    ProgramCanonical(ts);
  }

  /** However a program that some text can spell is laid out: the rewritten text compiles to the same trees if
      and only if nothing was rewritten or the program does not break off after `return_light`, where the line
      break that is added would be taken for the value. */
  lemma RewriteKeepsProgramIff(ns: seq<Node>, items: seq<Lexer.Item>, tail: seq<Gap>, m: Optimizer.Metrics)
    requires Writable(ns) && ValidLayout(items, tail) && Printed(items) + [EOF] == TreeTokens(ns)
    ensures ParsesTo(Print(items, tail), ns)
    ensures ParsesTo(Optimizer.Rewrite(Print(items, tail), m), ns) <==>
      AllCanonical(ns) || (m.performance >= 90.0 && m.ai >= 95.0)
  {
    hide ValidLayout, Print, Printed, ForestTokens, UnfinishedTokens, AllCanonical, Unfinished, LaidOut,
        Optimizer.Rewrite, ParseText;
    var code := Print(items, tail);
    var most := Printed(items);
    TextReadsBack(ns, items, tail);
    Unframed(most, items, tail);
    RewriteLays(code, most, m);
    var lines := (if m.performance < 90.0 then 1 else 0) + (if m.ai < 95.0 then 1 else 0);
    if AllCanonical(ns) {
      assert ForestTokens(ns)[..|ForestTokens(ns)| - 1] == most;
      LaidOutParses(Optimizer.Rewrite(code, m), ns, lines);
    } else if lines > 0 && ParsesTo(Optimizer.Rewrite(code, m), ns) {
      LineEndsIt(Optimizer.Rewrite(code, m), most, lines, ns);
    }
  }
}
