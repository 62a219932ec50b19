/** The rewrite-until-gold optimiser `HybridNeoJ4Optimizer`: keyword scores, the
    text rewrite, and the self-recursive `optimize_component`.
    Scores are exact reals.
 */
module Optimizer {
  import opened Common

  /** `code.find(word) != npos` */
  predicate Occurs(code: string, word: string) {
    exists i | 0 <= i <= |code| :: At(code, i, word)
  }

  predicate At(code: string, i: int, word: string) {
    0 <= i && i + |word| <= |code| && code[i..i + |word|] == word
  }

  function Bonus(code: string, word: string, points: real): real {
    if Occurs(code, word) then points else 0.0
  }

  function AtMost100(score: real): real {
    if 100.0 < score then 100.0 else score
  }

  // ---------- scores ----------

  datatype Metrics = Metrics(performance: real, readability: real, ai: real, innovation: real, market: real, gold: real)

  function Hybrid(m: Metrics): real {
    m.performance * 0.25 + m.readability * 0.20 + m.ai * 0.20 + m.innovation * 0.20 + m.market * 0.15
  }

  predicate IsGold(m: Metrics) {
    Hybrid(m) >= 95.0 && m.performance >= 90.0 && m.ai >= 95.0
  }

  function Performance(code: string): real {
    AtMost100(70.0 + Bonus(code, "@ludicrous", 20.0) + Bonus(code, "@supersonic", 15.0)
      + Bonus(code, "@optimized", 10.0) + Bonus(code, "ai_accelerated", 15.0) + Bonus(code, "zero_latency", 10.0))
  }

  function Readability(code: string): real {
    AtMost100(80.0 + Bonus(code, "manifest", 5.0) + Bonus(code, "radiant", 5.0)
      + Bonus(code, "shimmer", 5.0) + Bonus(code, "return_light", 5.0))
  }

  function AiCompatibility(code: string): real {
    AtMost100(85.0 + Bonus(code, "ai_enhanced", 10.0) + Bonus(code, "neural", 5.0)
      + Bonus(code, "predict", 5.0) + Bonus(code, "AI_COMPLETION", 10.0))
  }

  function Innovation(code: string): real {
    AtMost100(75.0 + Bonus(code, "giphy://", 8.0) + Bonus(code, "ytube://", 8.0)
      + Bonus(code, "EMOTION_3D", 10.0) + Bonus(code, "GCODE_BLOCK", 12.0) + Bonus(code, "CONSTELLATION_LIST", 7.0))
  }

  function Market(code: string): real {
    AtMost100(80.0 + Bonus(code, "@server", 5.0) + Bonus(code, "@client", 5.0)
      + Bonus(code, "@universal", 10.0) + Bonus(code, "manufacturing", 10.0))
  }

  function WithGold(m: Metrics): Metrics {
    m.(gold := Hybrid(m))
  }

  function Measure(code: string): Metrics {
    WithGold(Metrics(Performance(code), Readability(code), AiCompatibility(code), Innovation(code), Market(code), 0.0))
  }

  // ---------- the same, told by tables ----------

  /** The word stands somewhere in the text. */
  ghost predicate Found(code: string, word: string) {
    exists i | 0 <= i <= |code| :: word <= code[i..]
  }

  ghost function Points(code: string, table: seq<(string, real)>): real {
    if table == [] then 0.0 else (if Found(code, table[0].0) then table[0].1 else 0.0) + Points(code, table[1..])
  }

  /** A base and the points of each word found, but no more than 100. */
  ghost predicate Scored(code: string, base: real, table: seq<(string, real)>, score: real) {
    var sum := base + Points(code, table);
    score == if sum <= 100.0 then sum else 100.0
  }

  lemma FoundIs(code: string, word: string)
    ensures Found(code, word) <==> Occurs(code, word)
  {
    forall i | 0 <= i <= |code| ensures At(code, i, word) <==> word <= code[i..] {
      if i + |word| <= |code| {
        assert code[i..][..|word|] == code[i..i + |word|];
      }
    }
  }

  lemma PointsFirst(code: string, word: string, points: real, table: seq<(string, real)>)
    ensures Points(code, [(word, points)] + table) == Bonus(code, word, points) + Points(code, table)
  {
    hide Found, Occurs;
    FoundIs(code, word);
    assert ([(word, points)] + table)[1..] == table;
  }

  lemma NoPoints(code: string)
    ensures Points(code, []) == 0.0
  {
  }

  lemma FourPoints(code: string, a: (string, real), b: (string, real), c: (string, real), d: (string, real))
    ensures Points(code, [a, b, c, d]) ==
      Bonus(code, a.0, a.1) + Bonus(code, b.0, b.1) + Bonus(code, c.0, c.1) + Bonus(code, d.0, d.1)
  {
    hide Bonus, Points;
    NoPoints(code);
    assert [a, b, c, d] == [a] + [b, c, d] && [b, c, d] == [b] + [c, d] && [c, d] == [c] + [d] && [d] == [d] + [];
    PointsFirst(code, d.0, d.1, []);
    PointsFirst(code, c.0, c.1, [d]);
    PointsFirst(code, b.0, b.1, [c, d]);
    PointsFirst(code, a.0, a.1, [b, c, d]);
  }

  lemma FivePoints(code: string, a: (string, real), b: (string, real), c: (string, real), d: (string, real),
                   e: (string, real))
    ensures Points(code, [a, b, c, d, e]) ==
      Bonus(code, a.0, a.1) + Bonus(code, b.0, b.1) + Bonus(code, c.0, c.1) + Bonus(code, d.0, d.1)
      + Bonus(code, e.0, e.1)
  {
    hide Bonus, Points;
    assert [a, b, c, d, e] == [a] + [b, c, d, e];
    PointsFirst(code, a.0, a.1, [b, c, d, e]);
    FourPoints(code, b, c, d, e);
  }

  /** The five scores, by the tables of words and points. */
  lemma ScoresByTable(code: string)
    ensures Scored(code, 70.0, [("@ludicrous", 20.0), ("@supersonic", 15.0), ("@optimized", 10.0),
                                ("ai_accelerated", 15.0), ("zero_latency", 10.0)], Performance(code))
    ensures Scored(code, 80.0, [("manifest", 5.0), ("radiant", 5.0), ("shimmer", 5.0), ("return_light", 5.0)],
                   Readability(code))
    ensures Scored(code, 85.0, [("ai_enhanced", 10.0), ("neural", 5.0), ("predict", 5.0), ("AI_COMPLETION", 10.0)],
                   AiCompatibility(code))
    ensures Scored(code, 75.0, [("giphy://", 8.0), ("ytube://", 8.0), ("EMOTION_3D", 10.0), ("GCODE_BLOCK", 12.0),
                                ("CONSTELLATION_LIST", 7.0)], Innovation(code))
    ensures Scored(code, 80.0, [("@server", 5.0), ("@client", 5.0), ("@universal", 10.0), ("manufacturing", 10.0)],
                   Market(code))
  {
    hide Bonus, Points;
    FivePoints(code, ("@ludicrous", 20.0), ("@supersonic", 15.0), ("@optimized", 10.0), ("ai_accelerated", 15.0),
               ("zero_latency", 10.0));
    FourPoints(code, ("manifest", 5.0), ("radiant", 5.0), ("shimmer", 5.0), ("return_light", 5.0));
    FourPoints(code, ("ai_enhanced", 10.0), ("neural", 5.0), ("predict", 5.0), ("AI_COMPLETION", 10.0));
    FivePoints(code, ("giphy://", 8.0), ("ytube://", 8.0), ("EMOTION_3D", 10.0), ("GCODE_BLOCK", 12.0),
               ("CONSTELLATION_LIST", 7.0));
    FourPoints(code, ("@server", 5.0), ("@client", 5.0), ("@universal", 10.0), ("manufacturing", 10.0));
  }

  method AnalyzePerformance(code: string) returns (score: real)
    ensures score == Performance(code)
  {
    hide Occurs;
    score := 70.0;
    if Occurs(code, "@ludicrous") { score := score + 20.0; }
    if Occurs(code, "@supersonic") { score := score + 15.0; }
    if Occurs(code, "@optimized") { score := score + 10.0; }
    if Occurs(code, "ai_accelerated") { score := score + 15.0; }
    if Occurs(code, "zero_latency") { score := score + 10.0; }
    score := AtMost100(score);
  }

  method AnalyzeReadability(code: string) returns (score: real)
    ensures score == Readability(code)
  {
    hide Occurs;
    score := 80.0;
    if Occurs(code, "manifest") { score := score + 5.0; }
    if Occurs(code, "radiant") { score := score + 5.0; }
    if Occurs(code, "shimmer") { score := score + 5.0; }
    if Occurs(code, "return_light") { score := score + 5.0; }
    score := AtMost100(score);
  }

  method AnalyzeAiCompatibility(code: string) returns (score: real)
    ensures score == AiCompatibility(code)
  {
    hide Occurs;
    score := 85.0;
    if Occurs(code, "ai_enhanced") { score := score + 10.0; }
    if Occurs(code, "neural") { score := score + 5.0; }
    if Occurs(code, "predict") { score := score + 5.0; }
    if Occurs(code, "AI_COMPLETION") { score := score + 10.0; }
    score := AtMost100(score);
  }

  method AnalyzeInnovation(code: string) returns (score: real)
    ensures score == Innovation(code)
  {
    hide Occurs;
    score := 75.0;
    if Occurs(code, "giphy://") { score := score + 8.0; }
    if Occurs(code, "ytube://") { score := score + 8.0; }
    if Occurs(code, "EMOTION_3D") { score := score + 10.0; }
    if Occurs(code, "GCODE_BLOCK") { score := score + 12.0; }
    if Occurs(code, "CONSTELLATION_LIST") { score := score + 7.0; }
    score := AtMost100(score);
  }

  method AnalyzeMarket(code: string) returns (score: real)
    ensures score == Market(code)
  {
    hide Occurs;
    score := 80.0;
    if Occurs(code, "@server") { score := score + 5.0; }
    if Occurs(code, "@client") { score := score + 5.0; }
    if Occurs(code, "@universal") { score := score + 10.0; }
    if Occurs(code, "manufacturing") { score := score + 10.0; }
    score := AtMost100(score);
  }

  // ---------- the rewrite ----------

  const FAST_HEAD := "// PERFORMANCE OPTIMIZED\n"
  const FAST_TAIL := "\n// @ludicrous @ai_accelerated"
  const AI_HEAD := "// AI ENHANCED\n"
  const AI_TAIL := "\n// @ai_enhanced @neural_optimized"

  function Faster(code: string, m: Metrics): string {
    if m.performance < 90.0 then FAST_HEAD + code + FAST_TAIL else code
  }

  function Smarter(code: string, m: Metrics): string {
    if m.ai < 95.0 then AI_HEAD + code + AI_TAIL else code
  }

  function Rewrite(code: string, m: Metrics): string {
    Smarter(Faster(code, m), m)
  }

  method ApplyOptimizations(code: string, m: Metrics) returns (optimized: string)
    ensures optimized == Rewrite(code, m)
  {
    optimized := code;
    if m.performance < 90.0 {
      optimized := FAST_HEAD + optimized;
      optimized := optimized + FAST_TAIL;
    }
    if m.ai < 95.0 {
      optimized := AI_HEAD + optimized;
      optimized := optimized + AI_TAIL;
    }
  }

  ghost predicate OneLine(word: string) {
    word != "" && '\n' !in word
  }

  lemma OccursInside(head: string, code: string, tail: string, word: string)
    requires Occurs(code, word)
    ensures Occurs(head + code + tail, word)
  {
    var i :| 0 <= i <= |code| && At(code, i, word);
    var s := head + code + tail;
    assert s[|head| + i..|head| + i + |word|] == code[i..i + |word|];
    assert At(s, |head| + i, word);
  }

  lemma WithinOneLine(s: string, word: string, i: int)
    requires At(s, i, word) && OneLine(word)
    ensures forall p | i <= p < i + |word| :: s[p] != '\n'
  {
    forall p | i <= p < i + |word| ensures s[p] != '\n' {
      assert s[i..i + |word|][p - i] == word[p - i];
    }
  }

  /** A one-line word never straddles the line breaks the rewrite puts around the text. */
  lemma FramedOccurrence(head: string, code: string, tail: string, word: string, i: int)
    requires head != "" && head[|head| - 1] == '\n' && tail != "" && tail[0] == '\n' && OneLine(word)
    requires At(head + code + tail, i, word)
    ensures Occurs(head, word) || Occurs(code, word) || Occurs(tail, word)
  {
    var s := head + code + tail;
    var n, h, c := |word|, |head|, |head| + |code|;
    assert s[h - 1] == '\n' && s[c] == '\n';
    WithinOneLine(s, word, i);
    if i + n <= h {
      assert head[i..i + n] == s[i..i + n];
      assert At(head, i, word);
    } else if i + n <= c {
      assert code[i - h..i - h + n] == s[i..i + n];
      assert At(code, i - h, word);
    } else {
      assert tail[i - c..i - c + n] == s[i..i + n];
      assert At(tail, i - c, word);
    }
  }

  lemma OccursFramed(head: string, code: string, tail: string, word: string)
    requires head != "" && head[|head| - 1] == '\n' && tail != "" && tail[0] == '\n' && OneLine(word)
    ensures Occurs(head + code + tail, word) <==> Occurs(head, word) || Occurs(code, word) || Occurs(tail, word)
  {
    var s := head + code + tail;
    if Occurs(s, word) {
      var i :| 0 <= i <= |s| && At(s, i, word);
      FramedOccurrence(head, code, tail, word, i);
    }
    if Occurs(head, word) {
      OccursInside("", head, code + tail, word);
      assert "" + head + (code + tail) == s;
    }
    if Occurs(code, word) {
      OccursInside(head, code, tail, word);
    }
    if Occurs(tail, word) {
      OccursInside(head + code, tail, "", word);
      assert head + code + tail + "" == s;
    }
  }

  // What the inserted lines do not contain, told by single characters and by
  // pairs of neighbours.

  /** A character the text lacks rules the word out. */
  lemma Lacks(text: string, word: string, k: nat)
    requires k < |word| && word[k] !in text
    ensures !Occurs(text, word)
  {
    forall i | 0 <= i <= |text| ensures !At(text, i, word) {
      if i + |word| <= |text| {
        assert text[i..i + |word|][k] == text[i + k];
      }
    }
  }

  /** Two neighbouring characters that never meet in the text rule the word out. */
  lemma LacksPair(text: string, word: string, k: nat)
    requires k + 1 < |word| && forall i | 0 <= i < |text| - 1 :: !(text[i] == word[k] && text[i + 1] == word[k + 1])
    ensures !Occurs(text, word)
  {
    forall i | 0 <= i <= |text| ensures !At(text, i, word) {
      if i + |word| <= |text| {
        assert text[i..i + |word|][k] == text[i + k] && text[i..i + |word|][k + 1] == text[i + k + 1];
      }
    }
  }

  predicate InHeads(c: char) {
    'A' <= c <= 'Z' || c in {'/', ' ', '\n'}
  }

  predicate InFastTail(c: char) {
    c in {'\n', '/', ' ', '@', '_', 'l', 'u', 'd', 'i', 'c', 'r', 'o', 's', 'a', 'e', 't'}
  }

  predicate InAiTail(c: char) {
    c in {'\n', '/', ' ', '@', '_', 'a', 'i', 'e', 'n', 'h', 'c', 'd', 'u', 'r', 'l', 'o', 'p', 't', 'm', 'z'}
  }

  lemma HeadCharacters()
    ensures forall c | c in FAST_HEAD || c in AI_HEAD :: InHeads(c)
  {
  }

  lemma FastTailCharacters()
    ensures forall c | c in FAST_TAIL :: InFastTail(c)
  {
  }

  lemma AiTailCharacters()
    ensures forall c | c in AI_TAIL :: InAiTail(c)
  {
  }

  /** The performance lines neither add nor hide a word with a character at `h` that
      no head line has and one at `t` that the tail line lacks. */
  lemma FastKeeps(code: string, word: string, h: nat, t: nat)
    requires OneLine(word) && h < |word| && t < |word| && !InHeads(word[h]) && !InFastTail(word[t])
    ensures Occurs(FAST_HEAD + code + FAST_TAIL, word) == Occurs(code, word)
  {
    HeadCharacters();
    FastTailCharacters();
    Lacks(FAST_HEAD, word, h);
    Lacks(FAST_TAIL, word, t);
    OccursFramed(FAST_HEAD, code, FAST_TAIL, word);
  }

  lemma AiFrame(code: string, word: string, h: nat)
    requires OneLine(word) && h < |word| && !InHeads(word[h]) && !Occurs(AI_TAIL, word)
    ensures Occurs(AI_HEAD + code + AI_TAIL, word) == Occurs(code, word)
  {
    HeadCharacters();
    Lacks(AI_HEAD, word, h);
    OccursFramed(AI_HEAD, code, AI_TAIL, word);
  }

  lemma AiKeeps(code: string, word: string, h: nat, t: nat)
    requires OneLine(word) && h < |word| && t < |word| && !InHeads(word[h]) && !InAiTail(word[t])
    ensures Occurs(AI_HEAD + code + AI_TAIL, word) == Occurs(code, word)
  {
    AiTailCharacters();
    Lacks(AI_TAIL, word, t);
    AiFrame(code, word, h);
  }

  lemma AiTailPairs()
    ensures !Occurs(AI_TAIL, "@optimized") && !Occurs(AI_TAIL, "ai_accelerated")
    ensures !Occurs(AI_TAIL, "radiant") && !Occurs(AI_TAIL, "@client")
  {
    hide Occurs, AI_TAIL;
    AiTailFast();
    AiTailInnovation();
  }

  lemma AiTailFast()
    ensures !Occurs(AI_TAIL, "@optimized") && !Occurs(AI_TAIL, "ai_accelerated")
  {
    hide Occurs;
    AiTailNotOptimized();
    LacksPair(AI_TAIL, "ai_accelerated", 2);
  }

  lemma AiTailNotOptimized()
    ensures !Occurs(AI_TAIL, "@optimized")
  {
    hide Occurs;
    LacksPair(AI_TAIL, "@optimized", 0);
  }

  lemma AiTailInnovation()
    ensures !Occurs(AI_TAIL, "radiant") && !Occurs(AI_TAIL, "@client")
  {
    hide Occurs;
    LacksPair(AI_TAIL, "radiant", 1);
    LacksPair(AI_TAIL, "@client", 0);
  }

  lemma FastReadability(code: string)
    ensures Readability(FAST_HEAD + code + FAST_TAIL) == Readability(code)
  {
    hide Occurs;
    FastKeeps(code, "manifest", 0, 0);
    FastKeeps(code, "radiant", 0, 5);
    FastKeeps(code, "shimmer", 0, 1);
    FastKeeps(code, "return_light", 0, 5);
  }

  lemma FastAi(code: string)
    ensures AiCompatibility(FAST_HEAD + code + FAST_TAIL) == AiCompatibility(code)
  {
    hide Occurs;
    FastKeeps(code, "ai_enhanced", 0, 4);
    FastKeeps(code, "neural", 0, 0);
    FastKeeps(code, "predict", 0, 0);
    FastKeeps(code, "AI_COMPLETION", 2, 0);
  }

  lemma FastInnovation(code: string)
    ensures Innovation(FAST_HEAD + code + FAST_TAIL) == Innovation(code)
  {
    hide Occurs, FAST_HEAD, FAST_TAIL;
    FastShort(code);
    FastLong(code);
  }

  lemma FastShort(code: string)
    ensures Occurs(FAST_HEAD + code + FAST_TAIL, "giphy://") == Occurs(code, "giphy://")
    ensures Occurs(FAST_HEAD + code + FAST_TAIL, "ytube://") == Occurs(code, "ytube://")
    ensures Occurs(FAST_HEAD + code + FAST_TAIL, "EMOTION_3D") == Occurs(code, "EMOTION_3D")
  {
    hide Occurs;
    FastKeeps(code, "giphy://", 0, 0);
    FastKeeps(code, "ytube://", 0, 0);
    FastKeeps(code, "EMOTION_3D", 7, 0);
  }

  lemma FastLong(code: string)
    ensures Occurs(FAST_HEAD + code + FAST_TAIL, "GCODE_BLOCK") == Occurs(code, "GCODE_BLOCK")
    ensures Occurs(FAST_HEAD + code + FAST_TAIL, "CONSTELLATION_LIST") == Occurs(code, "CONSTELLATION_LIST")
  {
    hide Occurs;
    FastKeeps(code, "GCODE_BLOCK", 5, 0);
    FastKeeps(code, "CONSTELLATION_LIST", 13, 0);
  }

  lemma FastMarket(code: string)
    ensures Market(FAST_HEAD + code + FAST_TAIL) == Market(code)
  {
    hide Occurs;
    FastKeeps(code, "@server", 0, 4);
    FastKeeps(code, "@client", 0, 5);
    FastKeeps(code, "@universal", 0, 2);
    FastKeeps(code, "manufacturing", 0, 0);
  }

  lemma AiPerformance(code: string)
    ensures Performance(AI_HEAD + code + AI_TAIL) == Performance(code)
  {
    hide Occurs;
    AiTailPairs();
    AiKeeps(code, "@ludicrous", 0, 9);
    AiKeeps(code, "@supersonic", 0, 1);
    AiFrame(code, "@optimized", 0);
    AiFrame(code, "ai_accelerated", 0);
    AiKeeps(code, "zero_latency", 0, 11);
  }

  lemma AiReadability(code: string)
    ensures Readability(AI_HEAD + code + AI_TAIL) == Readability(code)
  {
    hide Occurs;
    AiTailPairs();
    AiKeeps(code, "manifest", 0, 4);
    AiFrame(code, "radiant", 0);
    AiKeeps(code, "shimmer", 0, 0);
    AiKeeps(code, "return_light", 0, 9);
  }

  lemma AiInnovation(code: string)
    ensures Innovation(AI_HEAD + code + AI_TAIL) == Innovation(code)
  {
    hide Occurs, AI_HEAD, AI_TAIL;
    AiShort(code);
    AiLong(code);
  }

  lemma AiShort(code: string)
    ensures Occurs(AI_HEAD + code + AI_TAIL, "giphy://") == Occurs(code, "giphy://")
    ensures Occurs(AI_HEAD + code + AI_TAIL, "ytube://") == Occurs(code, "ytube://")
    ensures Occurs(AI_HEAD + code + AI_TAIL, "EMOTION_3D") == Occurs(code, "EMOTION_3D")
  {
    hide Occurs;
    AiKeeps(code, "giphy://", 0, 0);
    AiKeeps(code, "ytube://", 0, 0);
    AiKeeps(code, "EMOTION_3D", 7, 0);
  }

  lemma AiLong(code: string)
    ensures Occurs(AI_HEAD + code + AI_TAIL, "GCODE_BLOCK") == Occurs(code, "GCODE_BLOCK")
    ensures Occurs(AI_HEAD + code + AI_TAIL, "CONSTELLATION_LIST") == Occurs(code, "CONSTELLATION_LIST")
  {
    hide Occurs;
    AiKeeps(code, "GCODE_BLOCK", 5, 0);
    AiKeeps(code, "CONSTELLATION_LIST", 13, 0);
  }

  lemma AiMarket(code: string)
    ensures Market(AI_HEAD + code + AI_TAIL) == Market(code)
  {
    hide Occurs;
    AiTailPairs();
    AiKeeps(code, "@server", 0, 1);
    AiFrame(code, "@client", 0);
    AiKeeps(code, "@universal", 0, 4);
    AiKeeps(code, "manufacturing", 0, 4);
  }

  lemma OccursPart(head: string, word: string, tail: string)
    ensures Occurs(head + word + tail, word)
  {
    assert word[0..0 + |word|] == word;
    assert At(word, 0, word);
    OccursInside(head, word, tail, word);
  }

  /** Both performance words arrive, and 70 + 20 + 15 is already past the cap. */
  lemma FastTailNames()
    ensures Occurs(FAST_TAIL, "@ludicrous") && Occurs(FAST_TAIL, "ai_accelerated")
  {
    hide Occurs;
    FastTailLudicrous();
    assert FAST_TAIL == "\n// @ludicrous @" + "ai_accelerated" + "";
    OccursPart("\n// @ludicrous @", "ai_accelerated", "");
  }

  lemma FastTailLudicrous()
    ensures Occurs(FAST_TAIL, "@ludicrous")
  {
    hide Occurs;
    assert FAST_TAIL == "\n// " + "@ludicrous" + " @ai_accelerated";
    OccursPart("\n// ", "@ludicrous", " @ai_accelerated");
  }

  lemma FastPerformance(code: string)
    ensures Performance(FAST_HEAD + code + FAST_TAIL) == 100.0
  {
    hide Occurs;
    var head := FAST_HEAD + code;
    FastTailNames();
    assert head + FAST_TAIL == head + FAST_TAIL + "";
    OccursInside(head, FAST_TAIL, "", "@ludicrous");
    OccursInside(head, FAST_TAIL, "", "ai_accelerated");
  }

  lemma AiTailNames()
    ensures Occurs(AI_TAIL, "ai_enhanced") && Occurs(AI_TAIL, "neural")
  {
    hide Occurs;
    AiTailEnhanced();
    assert AI_TAIL == "\n// @ai_enhanced @" + "neural" + "_optimized";
    OccursPart("\n// @ai_enhanced @", "neural", "_optimized");
  }

  lemma AiTailEnhanced()
    ensures Occurs(AI_TAIL, "ai_enhanced")
  {
    hide Occurs;
    assert AI_TAIL == "\n// @" + "ai_enhanced" + " @neural_optimized";
    OccursPart("\n// @", "ai_enhanced", " @neural_optimized");
  }

  lemma AiAi(code: string)
    ensures AiCompatibility(AI_HEAD + code + AI_TAIL) == 100.0
  {
    hide Occurs;
    var head := AI_HEAD + code;
    AiTailNames();
    assert head + AI_TAIL == head + AI_TAIL + "";
    OccursInside(head, AI_TAIL, "", "ai_enhanced");
    OccursInside(head, AI_TAIL, "", "neural");
  }

  // ---------- what one rewrite does to the scores, and when the recursion ends ----------

  /** The scores after a rewrite, from the scores before it. */
  function After(m: Metrics): Metrics {
    WithGold(m.(performance := if m.performance < 90.0 then 100.0 else m.performance,
                ai := if m.ai < 95.0 then 100.0 else m.ai))
  }

  /** A rewrite lifts a performance score below 90 and an AI score below 95 to 100,
      and leaves every other score as it was. */
  lemma RewriteScores(code: string)
    ensures Measure(Rewrite(code, Measure(code))) == After(Measure(code))
  {
    hide Occurs, Performance, Readability, AiCompatibility, Innovation, Market;
    var m := Measure(code);
    var faster := Faster(code, m);
    FastPerformance(code);
    FastReadability(code);
    FastAi(code);
    FastInnovation(code);
    FastMarket(code);
    AiPerformance(faster);
    AiReadability(faster);
    AiAi(faster);
    AiInnovation(faster);
    AiMarket(faster);
  }

  /** No score goes down, the two thresholds are reached, and a second rewrite
      changes nothing. */
  lemma RewriteIsMonotoneAndStable(code: string)
    ensures var m := Measure(code);
      var once := Rewrite(code, m);
      var n := Measure(once);
      && n.performance >= m.performance && n.readability >= m.readability && n.ai >= m.ai
      && n.innovation >= m.innovation && n.market >= m.market && n.gold >= m.gold
      && n.performance >= 90.0 && n.ai >= 95.0
      && Rewrite(once, n) == once
  {
    RewriteScores(code);
    hide Occurs, Performance, Readability, AiCompatibility, Innovation, Market, Bonus;
  }

  /** `optimize_component` cut off after `calls` recursive calls. */
  function Attempt(code: string, calls: nat): Option<Metrics>
    decreases calls
  {
    var m := Measure(code);
    if IsGold(m) then Some(m)
    else if calls == 0 then None
    else Attempt(Rewrite(code, m), calls - 1)
  }

  /** The caller's check, made on the scores of the original text alone. */
  predicate Reaches(m: Metrics) {
    IsGold(m) || IsGold(After(m))
  }

  lemma {:induction false} StuckForever(code: string, calls: nat)
    requires !IsGold(Measure(code)) && Rewrite(code, Measure(code)) == code
    ensures Attempt(code, calls).None?
  {
    hide Measure, Rewrite, IsGold;
    if calls > 0 {
      StuckForever(code, calls - 1);
    }
  }

  /** The recursion ends exactly when the text or its single rewrite is gold standard;
      it then ends after at most one recursive call. */
  lemma {:induction false} ReturnsIff(code: string)
    ensures (exists calls :: Attempt(code, calls).Some?) <==> Reaches(Measure(code))
    ensures var m := Measure(code);
      Reaches(m) ==> Attempt(code, 1) == Some(if IsGold(m) then m else After(m))
  {
    var m := Measure(code);
    var once := Rewrite(code, m);
    RewriteScores(code);
    RewriteIsMonotoneAndStable(code);
    hide Measure, Rewrite, IsGold, After;
    if Reaches(m) {
      assert Attempt(once, 0) == if IsGold(Measure(once)) then Some(Measure(once)) else None;
      assert Attempt(code, 1).Some?;
    } else {
      forall calls: nat ensures Attempt(code, calls).None? {
        if calls > 0 {
          StuckForever(once, calls - 1);
        }
      }
    }
  }

  /** Gold, in hundredths: 25 for performance, 20 each for readability, AI and innovation, 15 for the market. */
  ghost predicate Gold(p: real, r: real, a: real, i: real, m: real) {
    25.0 * p + 20.0 * r + 20.0 * a + 20.0 * i + 15.0 * m >= 9500.0 && p >= 90.0 && a >= 95.0
  }

  /** The end of the recursion in terms of the scores alone: they are gold, or would be with 100 for a
      performance below 90 and for an AI score below 95. */
  lemma ReturnsByScores(code: string)
    ensures var p, r, a, i, m :=
        Performance(code), Readability(code), AiCompatibility(code), Innovation(code), Market(code);
      (exists calls :: Attempt(code, calls).Some?) <==>
      Gold(p, r, a, i, m) || Gold(if p < 90.0 then 100.0 else p, r, if a < 95.0 then 100.0 else a, i, m)
  {
    hide Attempt, Performance, Readability, AiCompatibility, Innovation, Market;
    ReturnsIff(code);
  }

  /** The empty text is never brought to gold standard, so the recursion on it has no end. */
  lemma EmptyTextNeverReturns()
    ensures forall calls :: Attempt("", calls).None?
  {
    assert forall w: string, i :: At("", i, w) ==> w == "";
    assert Measure("").innovation == 75.0 && Measure("").readability == 80.0 && Measure("").market == 80.0;
    assert !Reaches(Measure(""));
    ReturnsIff("");
  }

  // ---------- the optimiser object ----------

  ghost function Add(a: Metrics, b: Metrics): Metrics {
    Metrics(a.performance + b.performance, a.readability + b.readability, a.ai + b.ai,
            a.innovation + b.innovation, a.market + b.market, a.gold + b.gold)
  }

  const ZERO := Metrics(0.0, 0.0, 0.0, 0.0, 0.0, 0.0)

  /** Field-wise sum over a table of scores. */
  ghost function Total(scores: map<string, Metrics>): Metrics
    decreases |scores|
  {
    if scores == map[] then ZERO
    else
      var k :| k in scores;
      Add(scores[k], Total(scores - {k}))
  }

  lemma AddSwap(a: Metrics, b: Metrics, c: Metrics)
    ensures Add(a, Add(b, c)) == Add(b, Add(a, c))
  {
  }

  lemma {:induction false} TotalTake(scores: map<string, Metrics>, k: string)
    requires k in scores
    ensures Total(scores) == Add(scores[k], Total(scores - {k}))
    decreases |scores|
  {
    var j :| j in scores && Total(scores) == Add(scores[j], Total(scores - {j}));
    if j != k {
      var r := scores - {j} - {k};
      assert scores - {k} - {j} == r;
      TotalTake(scores - {j}, k);
      TotalTake(scores - {k}, j);
      assert Total(scores - {j}) == Add(scores[k], Total(r));
      assert Total(scores - {k}) == Add(scores[j], Total(r));
      AddSwap(scores[j], scores[k], Total(r));
    }
  }

  /** The sums, field by field. */
  lemma TotalByField(scores: map<string, Metrics>, k: string)
    ensures Total(map[]) == Metrics(0.0, 0.0, 0.0, 0.0, 0.0, 0.0)
    ensures k in scores ==>
      var all, rest, m := Total(scores), Total(scores - {k}), scores[k];
      && all.performance == m.performance + rest.performance && all.readability == m.readability + rest.readability
      && all.ai == m.ai + rest.ai && all.innovation == m.innovation + rest.innovation
      && all.market == m.market + rest.market && all.gold == m.gold + rest.gold
  {
    if k in scores {
      TotalTake(scores, k);
    }
  }

  /** The weighted score of the averages is the average of the weighted scores. */
  lemma MeanOfHybrids(t: Metrics, n: real)
    requires n > 0.0
    ensures Hybrid(Metrics(t.performance / n, t.readability / n, t.ai / n, t.innovation / n, t.market / n, 0.0)) ==
        Hybrid(t) / n
  {
    WeightedQuotient(t.performance, 0.25, n);
    WeightedQuotient(t.readability, 0.20, n);
    WeightedQuotient(t.ai, 0.20, n);
    WeightedQuotient(t.innovation, 0.20, n);
    WeightedQuotient(t.market, 0.15, n);
    SumQuotient(t.performance * 0.25, t.readability * 0.20, n);
    SumQuotient(t.performance * 0.25 + t.readability * 0.20, t.ai * 0.20, n);
    SumQuotient(t.performance * 0.25 + t.readability * 0.20 + t.ai * 0.20, t.innovation * 0.20, n);
    SumQuotient(t.performance * 0.25 + t.readability * 0.20 + t.ai * 0.20 + t.innovation * 0.20, t.market * 0.15, n);
  }

  lemma WeightedQuotient(x: real, w: real, n: real)
    requires n > 0.0
    ensures (x / n) * w == (x * w) / n
  {
    assert (x / n) * n == x;
    assert ((x / n) * w) * n == x * w;
  }

  lemma SumQuotient(x: real, y: real, n: real)
    requires n > 0.0
    ensures x / n + y / n == (x + y) / n
  {
    assert (x / n + y / n) * n == x + y;
  }

  lemma {:induction false} TotalHybrid(scores: map<string, Metrics>)
    requires forall name | name in scores :: scores[name].gold == Hybrid(scores[name])
    ensures Total(scores).gold == Hybrid(Total(scores))
    decreases |scores|
  {
    if scores != map[] {
      var k :| k in scores && Total(scores) == Add(scores[k], Total(scores - {k}));
      TotalHybrid(scores - {k});
      assert Hybrid(Add(scores[k], Total(scores - {k}))) == Hybrid(scores[k]) + Hybrid(Total(scores - {k}));
    }
  }

  class HybridNeoJ4Optimizer {
    var componentScores: map<string, Metrics>

    /** Every stored gold score is the hybrid of the stored scores. */
    ghost predicate Valid()
      reads this
    {
      forall name | name in componentScores :: componentScores[name].gold == Hybrid(componentScores[name])
    }

    constructor ()
      ensures Valid() && componentScores == map[]
    {
      componentScores := map[];
    }

    method OptimizeComponent(name: string, code: string) returns (metrics: Metrics)
      requires Valid() && Reaches(Measure(code))
      modifies this
      ensures Valid()
      ensures IsGold(metrics) && Attempt(code, 1) == Some(metrics)
      ensures var m := Measure(code);
        componentScores == if IsGold(m) then old(componentScores)[name := m]
                           else old(componentScores)[name := m][name + "_optimized" := After(m)]
      decreases !IsGold(Measure(code))
    {
      hide Occurs, Performance, Readability, AiCompatibility, Innovation, Market, Rewrite;
      metrics := ZERO;
      var score := AnalyzePerformance(code);
      metrics := metrics.(performance := score);
      score := AnalyzeReadability(code);
      metrics := metrics.(readability := score);
      score := AnalyzeAiCompatibility(code);
      metrics := metrics.(ai := score);
      score := AnalyzeInnovation(code);
      metrics := metrics.(innovation := score);
      score := AnalyzeMarket(code);
      metrics := metrics.(market := score);
      metrics := metrics.(gold := Hybrid(metrics));
      assert metrics == Measure(code);
      componentScores := componentScores[name := metrics];
      ReturnsIff(code);
      if !IsGold(metrics) {
        var optimized := ApplyOptimizations(code, metrics);
        RewriteScores(code);
        assert After(metrics) == Measure(optimized);
        metrics := OptimizeComponent(name + "_optimized", optimized);
      }
    }

    /** The framework score is the field-wise average of the stored scores, its gold
        score included; with nothing stored it is zero. */
    method GetFrameworkScore() returns (combined: Metrics)
      requires Valid()
      ensures var t, n := Total(componentScores), |componentScores| as real;
        combined == if componentScores == map[] then ZERO
                    else Metrics(t.performance / n, t.readability / n, t.ai / n, t.innovation / n, t.market / n,
                        t.gold / n)
    {
      combined := ZERO;
      if componentScores == map[] {
        return;
      }
      var rest := componentScores;
      while rest != map[]
        invariant rest.Keys <= componentScores.Keys && forall k | k in rest :: rest[k] == componentScores[k]
        invariant Add(combined, Total(rest)).(gold := 0.0) == Total(componentScores).(gold := 0.0)
        decreases |rest|
      {
        var name :| name in rest;
        TotalTake(rest, name);
        var m := rest[name];
        combined := combined.(performance := combined.performance + m.performance,
                              readability := combined.readability + m.readability,
                              ai := combined.ai + m.ai,
                              innovation := combined.innovation + m.innovation,
                              market := combined.market + m.market);
        rest := rest - {name};
      }
      var count := |componentScores| as real;
      combined := combined.(performance := combined.performance / count, readability := combined.readability / count,
                            ai := combined.ai / count, innovation := combined.innovation / count,
                            market := combined.market / count);
      combined := combined.(gold := Hybrid(combined));
      MeanOfHybrids(Total(componentScores), count);
      TotalHybrid(componentScores);
    }
  }
}
