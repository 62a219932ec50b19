/** The lexer of `lamia_real_compiler.cpp`, and the round trip from tokens to text and back.
 */
module Lexer {
  import opened Chars
  import opened Segments

  datatype Kind = Manifest | Create | Identifier | String | Number | LBrace | RBrace | Semicolon | Colon
                | Comma | Arrow | At | LBracket | RBracket | Newline | EndOfFile

  datatype Token = Token(kind: Kind, value: string, line: nat, column: nat)

  /** A token without its place. */
  datatype Lexeme = Lexeme(kind: Kind, value: string)

  function Bare(t: Token): Lexeme {
    Lexeme(t.kind, t.value)
  }

  function AllBare(tokens: seq<Token>): (r: seq<Lexeme>)
    ensures |r| == |tokens| && forall k | 0 <= k < |r| :: r[k] == Bare(tokens[k])
  {
    seq(|tokens|, k requires 0 <= k < |tokens| => Bare(tokens[k]))
  }

  const EOF := Lexeme(EndOfFile, "")

  // ---------- where a token ends, and what it says ----------

  predicate IsWordStart(c: char) {
    IsAlpha(c) || c == '_' || c == '@'
  }

  predicate IsWordChar(c: char) {
    IsAlnum(c) || c == '_' || c == '@'
  }

  predicate IsNumberChar(c: char) {
    IsDigit(c) || c == '.'
  }

  function WordEnd(s: string, i: nat): (j: nat)
    requires i <= |s|
    ensures i <= j <= |s| && (forall k | i <= k < j :: IsWordChar(s[k])) && (j < |s| ==> !IsWordChar(s[j]))
    decreases |s| - i
  {
    if i < |s| && IsWordChar(s[i]) then WordEnd(s, i + 1) else i
  }

  function NumberEnd(s: string, i: nat): (j: nat)
    requires i <= |s|
    ensures i <= j <= |s| && (forall k | i <= k < j :: IsNumberChar(s[k])) && (j < |s| ==> !IsNumberChar(s[j]))
    decreases |s| - i
  {
    if i < |s| && IsNumberChar(s[i]) then NumberEnd(s, i + 1) else i
  }

  function Unescape(c: char): char {
    match c
    case 'n' => '\n'
    case 't' => '\t'
    case 'r' => '\r'
    case _ => c
  }

  /** The value of the string whose text goes on at `i`. */
  function StringValue(s: string, i: nat): string
    requires i <= |s|
    decreases |s| - i
  {
    if i == |s| || s[i] == '\"' then ""
    else if s[i] == '\\' && i + 1 < |s| then [Unescape(s[i + 1])] + StringValue(s, i + 2)
    else [s[i]] + StringValue(s, i + 1)
  }

  function WordLexeme(value: string): Lexeme
    requires value != ""
  {
    if value == "manifest" then Lexeme(Manifest, value)
    else if value == "create" then Lexeme(Create, value)
    else if value[0] == '@' then Lexeme(At, value)
    else Lexeme(Identifier, value)
  }

  /** The kind of a one-character token, if the character is one. */
  function SymbolKind(c: char): seq<Kind> {
    match c
    case '{' => [LBrace]
    case '}' => [RBrace]
    case ':' => [Colon]
    case ',' => [Comma]
    case '[' => [LBracket]
    case ']' => [RBracket]
    case ';' => [Semicolon]
    case '\n' => [Newline]
    case _ => []
  }

  /** One turn of the tokenizer: at most one lexeme, and where to go on. */
  datatype Piece = Piece(lexemes: seq<Lexeme>, next: nat)

  function Scan(s: string, i: nat): (p: Piece)
    requires i < |s|
    ensures i < p.next <= |s|
  {
    var c := s[i];
    if c == '/' && Peek(s, i + 1) == '/' then Piece([], LineEnd(s, i + 2))
    else if c == '/' && Peek(s, i + 1) == '*' then Piece([], CommentEnd(s, i + 2))
    else if IsWordStart(c) then Piece([WordLexeme(s[i..WordEnd(s, i)])], WordEnd(s, i))
    else if c == '\"' then Piece([Lexeme(String, StringValue(s, i + 1))], QuoteEnd(s, i + 1, '\"'))
    else if IsDigit(c) then Piece([Lexeme(Number, s[i..NumberEnd(s, i)])], NumberEnd(s, i))
    else if SymbolKind(c) != [] then Piece([Lexeme(SymbolKind(c)[0], [c])], i + 1)
    else if c == '-' && Peek(s, i + 1) == '>' then Piece([Lexeme(Arrow, "->")], i + 2)
    else Piece([], i + 1)
  }

  function Lexemes(s: string, i: nat): seq<Lexeme>
    requires i <= |s|
    decreases |s| - i
  {
    var j := BlankEnd(s, i);
    if j == |s| then [EOF]
    else Scan(s, j).lexemes + Lexemes(s, Scan(s, j).next)
  }

  // ---------- places ----------

  datatype Place = Place(line: nat, column: nat)

  /** Inside a block comment every line break starts a new line, whose first column is
      then already counted on. */
  function CommentPlace(s: string, i: nat, p: Place): Place
    requires i <= |s|
    decreases |s| - i
  {
    if i + 1 >= |s| then p
    else if s[i] == '*' && s[i + 1] == '/' then p.(column := p.column + 2)
    else if s[i] == '\n' then CommentPlace(s, i + 1, Place(p.line + 1, 2))
    else CommentPlace(s, i + 1, p.(column := p.column + 1))
  }

  /** The place after the piece at `i`; line breaks inside strings are not counted. */
  function PlaceAfter(s: string, i: nat, p: Place): Place
    requires i < |s|
  {
    if s[i] == '/' && Peek(s, i + 1) == '*' then CommentPlace(s, i + 2, p.(column := p.column + 2))
    else if s[i] == '\n' then Place(p.line + 1, 1)
    else p.(column := p.column + (Scan(s, i).next - i))
  }

  function Located(lexemes: seq<Lexeme>, p: Place): seq<Token> {
    if lexemes == [] then []
    else [Token(lexemes[0].kind, lexemes[0].value, p.line, p.column)] + Located(lexemes[1..], p)
  }

  function Tokens(s: string, i: nat, p: Place): seq<Token>
    requires i <= |s|
    decreases |s| - i
  {
    var j := BlankEnd(s, i);
    var q := p.(column := p.column + (j - i));
    if j == |s| then Located([EOF], q)
    else Located(Scan(s, j).lexemes, q) + Tokens(s, Scan(s, j).next, PlaceAfter(s, j, q))
  }

  lemma AllBareConcat(a: seq<Token>, b: seq<Token>)
    ensures AllBare(a + b) == AllBare(a) + AllBare(b)
  {
  }

  lemma {:induction false} BareLocated(lexemes: seq<Lexeme>, p: Place)
    ensures AllBare(Located(lexemes, p)) == lexemes
  {
    if lexemes != [] {
      BareLocated(lexemes[1..], p);
      assert Located(lexemes, p) == [Token(lexemes[0].kind, lexemes[0].value, p.line, p.column)]
          + Located(lexemes[1..], p);
    }
  }

  lemma {:induction false} BareTokens(s: string, i: nat, p: Place)
    requires i <= |s|
    ensures AllBare(Tokens(s, i, p)) == Lexemes(s, i)
    decreases |s| - i
  {
    hide PlaceAfter, Scan, AllBare, Located;
    var j := BlankEnd(s, i);
    var q := p.(column := p.column + (j - i));
    if j == |s| {
      BareLocated([EOF], q);
    } else {
      var next := Scan(s, j).next;
      BareLocated(Scan(s, j).lexemes, q);
      AllBareConcat(Located(Scan(s, j).lexemes, q), Tokens(s, next, PlaceAfter(s, j, q)));
      BareTokens(s, next, PlaceAfter(s, j, q));
    }
  }

  // ---------- every source gives valid tokens and one end mark ----------

  ghost predicate Letter(c: char) {
    'a' <= c <= 'z' || 'A' <= c <= 'Z' || c == '_' || c == '@'
  }

  /** Letters, digits, `_` and `@`, with no digit in front. */
  ghost predicate WordText(value: string) {
    value != "" && Letter(value[0]) && forall k | 0 <= k < |value| :: Letter(value[k]) || '0' <= value[k] <= '9'
  }

  /** Digits and dots, with a digit in front. */
  ghost predicate NumberText(value: string) {
    && value != "" && '0' <= value[0] <= '9'
    && forall k | 0 <= k < |value| :: '0' <= value[k] <= '9' || value[k] == '.'
  }

  /** The tokens the grammar of texts can express. */
  ghost predicate Valid(l: Lexeme) {
    match l.kind
    case Manifest => l.value == "manifest"
    case Create => l.value == "create"
    case Identifier => WordText(l.value) && WordLexeme(l.value) == l
    case At => WordText(l.value) && l.value[0] == '@'
    case String => true
    case Number => NumberText(l.value)
    case Arrow => l.value == "->"
    case EndOfFile => false
    case _ => |l.value| == 1 && SymbolKind(l.value[0]) == [l.kind]
  }

  lemma ScanValid(s: string, i: nat)
    requires i < |s|
    ensures |Scan(s, i).lexemes| <= 1 && forall l | l in Scan(s, i).lexemes :: Valid(l)
  {
    hide LineEnd, CommentEnd, QuoteEnd, StringValue;
  }

  /** For every source: valid tokens, then exactly one END_OF_FILE. */
  lemma {:induction false} LexemesValid(s: string, i: nat)
    requires i <= |s|
    ensures var ls := Lexemes(s, i);
      ls != [] && ls[|ls| - 1] == EOF && forall k | 0 <= k < |ls| - 1 :: Valid(ls[k])
    decreases |s| - i
  {
    hide Scan, Valid;
    var j := BlankEnd(s, i);
    if j < |s| {
      ScanValid(s, j);
      LexemesValid(s, Scan(s, j).next);
    }
  }

  // ---------- printing ----------

  datatype Gap = Blank(c: char) | Block(body: string) | LineComment(text: string)

  /** A token with what stands before it. */
  datatype Item = Item(gap: seq<Gap>, lexeme: Lexeme)

  function EscapeChar(c: char): string {
    match c
    case '\n' => "\\n"
    case '\t' => "\\t"
    case '\r' => "\\r"
    case '\\' => "\\\\"
    case '\"' => "\\\""
    case _ => [c]
  }

  function Escape(v: string): string {
    if v == "" then "" else EscapeChar(v[0]) + Escape(v[1..])
  }

  function Spell(l: Lexeme): string {
    if l.kind == String then "\"" + (Escape(l.value) + "\"") else l.value
  }

  function GapText(g: Gap): string {
    match g
    case Blank(c) => [c]
    case Block(body) => "/*" + body + "*/"
    case LineComment(text) => "//" + text
  }

  function GapTexts(gap: seq<Gap>): string {
    if gap == [] then "" else GapText(gap[0]) + GapTexts(gap[1..])
  }

  function Print(items: seq<Item>, tail: seq<Gap>): string {
    if items == [] then GapTexts(tail)
    else GapTexts(items[0].gap) + (Spell(items[0].lexeme) + Print(items[1..], tail))
  }

  function Printed(items: seq<Item>): seq<Lexeme> {
    if items == [] then [] else [items[0].lexeme] + Printed(items[1..])
  }

  /** A block comment body does not close the comment. */
  ghost predicate Unclosed(body: string) {
    forall k | 0 <= k < |body| - 1 :: !(body[k] == '*' && body[k + 1] == '/')
  }

  /** Blanks, closed comments, and a line comment only where the line ends. */
  ghost predicate ValidGap(gap: seq<Gap>, lineEnds: bool) {
    forall k | 0 <= k < |gap| ::
      match gap[k]
      case Blank(c) => c in {' ', '\t', '\U{0B}', '\U{0C}', '\r'}
      case Block(body) => Unclosed(body)
      case LineComment(text) => '\n' !in text && k == |gap| - 1 && lineEnds
  }

  predicate Wordlike(l: Lexeme) {
    l.kind == Manifest || l.kind == Create || l.kind == Identifier || l.kind == At
  }

  /** Tokens that would run together with nothing between them. */
  predicate Clash(a: Lexeme, b: Lexeme) {
    (Wordlike(a) && (Wordlike(b) || b.kind == Number)) || (a.kind == Number && b.kind == Number)
  }

  ghost predicate ValidLayout(items: seq<Item>, tail: seq<Gap>) {
    && (forall k | 0 <= k < |items| ::
          Valid(items[k].lexeme) && ValidGap(items[k].gap, items[k].lexeme.kind == Newline))
    && (forall k | 0 < k < |items| :: Clash(items[k - 1].lexeme, items[k].lexeme) ==> items[k].gap != [])
    && ValidGap(tail, true)
  }

  // ---------- reading back ----------

  lemma {:induction false} WordEndIs(s: string, i: nat, j: nat)
    requires i <= j <= |s| && (forall k | i <= k < j :: IsWordChar(s[k])) && (j < |s| ==> !IsWordChar(s[j]))
    ensures WordEnd(s, i) == j
    decreases j - i
  {
    if i < j {
      WordEndIs(s, i + 1, j);
    }
  }

  lemma {:induction false} NumberEndIs(s: string, i: nat, j: nat)
    requires i <= j <= |s| && (forall k | i <= k < j :: IsNumberChar(s[k])) && (j < |s| ==> !IsNumberChar(s[j]))
    ensures NumberEnd(s, i) == j
    decreases j - i
  {
    if i < j {
      NumberEndIs(s, i + 1, j);
    }
  }

  lemma {:induction false} LineEndIs(s: string, i: nat, j: nat)
    requires i <= j <= |s| && (forall k | i <= k < j :: s[k] != '\n') && (j < |s| ==> s[j] == '\n')
    ensures LineEnd(s, i) == j
    decreases j - i
  {
    if i < j {
      LineEndIs(s, i + 1, j);
    }
  }

  lemma {:induction false} CommentEndIs(s: string, i: nat, j: nat)
    requires i <= j && j + 2 <= |s| && s[j] == '*' && s[j + 1] == '/'
    requires forall k | i <= k < j :: !(s[k] == '*' && s[k + 1] == '/')
    ensures CommentEnd(s, i) == j + 2
    decreases j - i
  {
    if i < j {
      CommentEndIs(s, i + 1, j);
    }
  }

  /** One escaped character is read back. */
  lemma EscapeCharReadsBack(s: string, i: nat, c: char)
    requires Here(s, i, EscapeChar(c)) && i + |EscapeChar(c)| < |s|
    ensures var j := i + |EscapeChar(c)|;
      StringValue(s, i) == [c] + StringValue(s, j) && QuoteEnd(s, i, '\"') == QuoteEnd(s, j, '\"')
  {
    HereAt(s, i, EscapeChar(c));
    assert s[i] == EscapeChar(c)[0];
    assert |EscapeChar(c)| == 2 ==> s[i + 1] == EscapeChar(c)[1];
  }

  /** Reading an escaped text gives the value back. */
  lemma {:induction false} EscapeReadsBack(s: string, i: nat, v: string)
    requires Here(s, i, Escape(v) + "\"")
    ensures StringValue(s, i) == v && QuoteEnd(s, i, '\"') == i + |Escape(v)| + 1
    decreases |v|
  {
    hide Escape, EscapeChar, StringValue, QuoteEnd, Here;
    if v == "" {
      QuoteCloses(s, i);
    } else {
      var e, rest := EscapeChar(v[0]), Escape(v[1..]) + "\"";
      EscapeFirst(v);
      HereSplit(s, i, e, rest);
      EscapeReadsBack(s, i + |e|, v[1..]);
      HereFits(s, i + |e|, rest);
      EscapeCharReadsBack(s, i, v[0]);
      assert v == [v[0]] + v[1..];
      EscapeLength(v);
    }
  }

  lemma QuoteCloses(s: string, i: nat)
    requires Here(s, i, Escape("") + "\"")
    ensures StringValue(s, i) == "" && QuoteEnd(s, i, '\"') == i + 1 && Escape("") == ""
  {
    HereAt(s, i, Escape("") + "\"");
    assert s[i + 0] == '\"';
  }

  lemma EscapeFirst(v: string)
    requires v != ""
    ensures Escape(v) + "\"" == EscapeChar(v[0]) + (Escape(v[1..]) + "\"")
  {
    hide EscapeChar;
  }

  lemma EscapeLength(v: string)
    requires v != ""
    ensures |Escape(v)| == |EscapeChar(v[0])| + |Escape(v[1..])|
  {
  }

  /** What may follow a token directly. */
  ghost predicate Ends(l: Lexeme, s: string, j: nat) {
    j <= |s| && (j < |s| ==>
      && (Wordlike(l) ==> !IsWordChar(s[j]))
      && (l.kind == Number ==> !IsNumberChar(s[j])))
  }

  lemma StringReadsBack(s: string, i: nat, l: Lexeme)
    requires l.kind == String && Here(s, i, Spell(l))
    ensures i < |s| && s[i] == '\"' && Scan(s, i) == Piece([l], i + |Spell(l)|)
  {
    HereSplit(s, i, "\"", Escape(l.value) + "\"");
    HereAt(s, i, "\"");
    EscapeReadsBack(s, i + 1, l.value);
    hide Escape, StringValue, QuoteEnd, Here;
    assert s[i + 0] == "\""[0];
  }

  lemma WordReadsBack(s: string, i: nat, l: Lexeme)
    requires Wordlike(l) && Valid(l) && Here(s, i, l.value) && Ends(l, s, i + |l.value|)
    ensures i < |s| && IsWordStart(s[i]) && Scan(s, i) == Piece([l], i + |l.value|)
  {
    WordSpelled(l);
    HereAt(s, i, l.value);
    hide WordLexeme, Valid, WordEnd;
    assert s[i + 0] == l.value[0];
    WordEndIs(s, i, i + |l.value|);
  }

  lemma NumberReadsBack(s: string, i: nat, l: Lexeme)
    requires l.kind == Number && Valid(l) && Here(s, i, l.value) && Ends(l, s, i + |l.value|)
    ensures i < |s| && IsDigit(s[i]) && Scan(s, i) == Piece([l], i + |l.value|)
  {
    HereAt(s, i, l.value);
    hide NumberEnd;
    assert s[i + 0] == l.value[0];
    NumberEndIs(s, i, i + |l.value|);
  }

  lemma SymbolReadsBack(s: string, i: nat, l: Lexeme)
    requires Valid(l) && !Wordlike(l) && l.kind != Number && l.kind != String && Here(s, i, l.value)
    ensures i < |s| && (s[i] == '\n' || !IsSpace(s[i])) && Scan(s, i) == Piece([l], i + |l.value|)
  {
    HereAt(s, i, l.value);
    assert s[i + 0] == l.value[0];
    if l.kind == Arrow {
      assert s[i + 1] == l.value[1];
    } else {
      assert l.value == [s[i]];
    }
  }

  /** One printed token is read back. */
  lemma SpellReadsBack(s: string, i: nat, l: Lexeme)
    requires Valid(l) && Here(s, i, Spell(l)) && Ends(l, s, i + |Spell(l)|)
    ensures i < |s| && BlankEnd(s, i) == i && Scan(s, i) == Piece([l], i + |Spell(l)|)
  {
    if l.kind == String {
      StringReadsBack(s, i, l);
    } else if Wordlike(l) {
      WordReadsBack(s, i, l);
    } else if l.kind == Number {
      NumberReadsBack(s, i, l);
    } else {
      SymbolReadsBack(s, i, l);
    }
    hide Scan, Valid, Here, Ends;
  }

  lemma WordSpelled(l: Lexeme)
    requires Valid(l) && Wordlike(l)
    ensures WordText(l.value) && WordLexeme(l.value) == l
  {
  }

  /** The gap stands at `i`, and what follows ends it. */
  ghost predicate Skippable(s: string, i: nat, g: Gap) {
    && Here(s, i, GapText(g))
    && match g
       case Blank(c) => IsSpace(c) && c != '\n'
       case Block(body) => Unclosed(body)
       case LineComment(text) => '\n' !in text && (i + |GapText(g)| < |s| ==> s[i + |GapText(g)|] == '\n')
  }

  lemma BlockSkipped(s: string, i: nat, body: string)
    requires Here(s, i, "/*" + body + "*/") && Unclosed(body)
    ensures CommentEnd(s, i + 2) == i + |body| + 4
  {
    var t := "/*" + body + "*/";
    var n := i + |body| + 2;
    HereAt(s, i, t);
    forall k | i + 2 <= k < n ensures !(s[k] == '*' && s[k + 1] == '/') {
      assert s[i + (k - i)] == t[k - i] == body[k - i - 2];
      assert s[i + (k + 1 - i)] == t[k + 1 - i];
      if k + 1 < n {
        assert t[k + 1 - i] == body[k - i - 1];
      }
    }
    assert s[i + (|t| - 2)] == t[|t| - 2] && s[i + (|t| - 1)] == t[|t| - 1];
    CommentEndIs(s, i + 2, n);
  }

  lemma LineSkipped(s: string, i: nat, text: string)
    requires Here(s, i, "//" + text) && '\n' !in text
    requires i + 2 + |text| < |s| ==> s[i + 2 + |text|] == '\n'
    ensures LineEnd(s, i + 2) == i + 2 + |text|
  {
    var t := "//" + text;
    HereAt(s, i, t);
    forall k | i + 2 <= k < i + |t| ensures s[k] != '\n' {
      assert s[i + (k - i)] == t[k - i] == text[k - i - 2];
    }
    LineEndIs(s, i + 2, i + |t|);
  }

  lemma BlankReadsBack(s: string, i: nat)
    requires i < |s| && IsSpace(s[i]) && s[i] != '\n'
    ensures Lexemes(s, i) == Lexemes(s, i + 1)
  {
    hide IsSpace, Scan;
  }

  lemma CommentReadsBack(s: string, i: nat, j: nat)
    requires i + 1 < |s| && s[i] == '/' && i < j <= |s|
    requires (s[i + 1] == '/' && LineEnd(s, i + 2) == j) || (s[i + 1] == '*' && CommentEnd(s, i + 2) == j)
    ensures Lexemes(s, i) == Lexemes(s, j)
  {
    assert Scan(s, i) == Piece([], j);
    hide Scan;
  }

  /** A gap is skipped. */
  lemma GapReadsBack(s: string, i: nat, g: Gap)
    requires Skippable(s, i, g)
    ensures Lexemes(s, i) == Lexemes(s, i + |GapText(g)|)
  {
    hide Lexemes, Here, CommentEnd, LineEnd, Unclosed;
    var t := GapText(g);
    HereFits(s, i, t);
    HereAt(s, i, t);
    assert s[i + 0] == t[0];
    match g
    case Blank(c) => BlankReadsBack(s, i);
    case Block(body) =>
      assert s[i + 1] == t[1];
      BlockSkipped(s, i, body);
      CommentReadsBack(s, i, i + |t|);
    case LineComment(text) =>
      assert s[i + 1] == t[1];
      LineSkipped(s, i, text);
      CommentReadsBack(s, i, i + |t|);
  }

  lemma FirstGap(s: string, i: nat, gap: seq<Gap>, lineEnds: bool)
    requires gap != [] && Here(s, i, GapTexts(gap)) && ValidGap(gap, lineEnds)
    requires lineEnds && i + |GapTexts(gap)| < |s| ==> s[i + |GapTexts(gap)|] == '\n'
    ensures Skippable(s, i, gap[0])
    ensures Here(s, i + |GapText(gap[0])|, GapTexts(gap[1..])) && ValidGap(gap[1..], lineEnds)
  {
    hide Here, GapText, Unclosed;
    assert GapTexts(gap) == GapText(gap[0]) + GapTexts(gap[1..]);
    HereSplit(s, i, GapText(gap[0]), GapTexts(gap[1..]));
    ValidGapRest(gap, lineEnds);
    assert |gap| == 1 ==> GapTexts(gap[1..]) == "";
  }

  lemma {:induction false} GapsReadBack(s: string, i: nat, gap: seq<Gap>, lineEnds: bool)
    requires Here(s, i, GapTexts(gap)) && ValidGap(gap, lineEnds)
    requires lineEnds && i + |GapTexts(gap)| < |s| ==> s[i + |GapTexts(gap)|] == '\n'
    ensures Lexemes(s, i) == Lexemes(s, i + |GapTexts(gap)|)
    decreases |gap|
  {
    hide ValidGap, Lexemes, GapText, Here, Skippable;
    if gap != [] {
      FirstGap(s, i, gap, lineEnds);
      GapReadsBack(s, i, gap[0]);
      GapsReadBack(s, i + |GapText(gap[0])|, gap[1..], lineEnds);
    }
  }

  lemma ValidGapRest(gap: seq<Gap>, lineEnds: bool)
    requires gap != [] && ValidGap(gap, lineEnds)
    ensures ValidGap(gap[1..], lineEnds)
  {
    forall k | 0 <= k < |gap| - 1 ensures gap[1..][k] == gap[k + 1] {
    }
  }

  /** A gap starts with a character no token goes on with. */
  lemma GapStarts(gap: seq<Gap>, lineEnds: bool)
    requires gap != [] && ValidGap(gap, lineEnds)
    ensures var t := GapTexts(gap); t != "" && !IsWordChar(t[0]) && !IsNumberChar(t[0])
  {
    var g := gap[0];
    assert match g case Blank(c) => IsSpace(c) case Block(_) => true case LineComment(_) => true;
  }

  lemma SpellStarts(a: Lexeme, b: Lexeme)
    requires Valid(b) && !Clash(a, b)
    ensures Spell(b) != ""
    ensures Wordlike(a) ==> !IsWordChar(Spell(b)[0])
    ensures a.kind == Number ==> !IsNumberChar(Spell(b)[0])
  {
    hide Escape;
    if Wordlike(b) {
      WordSpelled(b);
    }
  }

  /** Nothing that is printed after a token runs into it. */
  lemma TokenEnds(s: string, j: nat, l: Lexeme, items: seq<Item>, tail: seq<Gap>)
    requires Valid(l) && ValidLayout([Item([], l)] + items, tail)
    requires Here(s, j, Print(items, tail)) && j + |Print(items, tail)| == |s|
    ensures Ends(l, s, j)
  {
    var t := Print(items, tail);
    HereAt(s, j, t);
    assert t != "" ==> s[j + 0] == t[0];
    hide Valid, Escape, Here;
    if items == [] {
      if tail != [] {
        GapStarts(tail, true);
      }
    } else {
      var all := [Item([], l)] + items;
      assert all[1] == items[0] && all[0].lexeme == l;
      if items[0].gap != [] {
        GapStarts(items[0].gap, items[0].lexeme.kind == Newline);
        assert t[0] == GapTexts(items[0].gap)[0];
      } else {
        SpellStarts(l, items[0].lexeme);
        assert t == Spell(items[0].lexeme) + Print(items[1..], tail);
      }
    }
  }

  lemma LayoutRest(items: seq<Item>, tail: seq<Gap>)
    requires items != [] && ValidLayout(items, tail)
    ensures ValidLayout(items[1..], tail) && ValidLayout([Item([], items[0].lexeme)] + items[1..], tail)
  {
    hide Valid, ValidGap, Clash;
    EmptyGap();
    var rest, bare := items[1..], [Item([], items[0].lexeme)] + items[1..];
    forall k | 0 <= k < |rest| ensures rest[k] == items[k + 1] {
    }
    forall k | 0 <= k < |items| ensures bare[k].lexeme == items[k].lexeme && (k > 0 ==> bare[k] == items[k]) {
    }
  }

  lemma EmptyGap()
    ensures forall b :: ValidGap([], b)
  {
  }

  lemma TokenFirst(s: string, i: nat, l: Lexeme)
    requires Valid(l) && Here(s, i, Spell(l)) && Ends(l, s, i + |Spell(l)|)
    ensures Lexemes(s, i) == [l] + Lexemes(s, i + |Spell(l)|)
  {
    hide Valid, Here, Ends, Spell, Scan;
    SpellReadsBack(s, i, l);
  }

  lemma ItemFirst(s: string, i: nat, items: seq<Item>, tail: seq<Gap>)
    requires items != [] && ValidLayout(items, tail)
    requires Here(s, i, Print(items, tail)) && i + |Print(items, tail)| == |s|
    ensures var j := i + |GapTexts(items[0].gap)| + |Spell(items[0].lexeme)|;
      && Here(s, j, Print(items[1..], tail)) && j + |Print(items[1..], tail)| == |s|
      && Lexemes(s, i) == [items[0].lexeme] + Lexemes(s, j)
  {
    hide *;
    var gap, l := items[0].gap, items[0].lexeme;
    var g, rest := |GapTexts(gap)|, Print(items[1..], tail);
    Unpack(items, tail);
    LayoutRest(items, tail);
    HereFits(s, i, Print(items, tail));
    HereSplit(s, i, GapTexts(gap), Spell(l) + rest);
    HereSplit(s, i + g, Spell(l), rest);
    HereFits(s, i + g, Spell(l));
    TokenEnds(s, i + g + |Spell(l)|, l, items[1..], tail);
    TokenFirst(s, i + g, l);
    NewlineSpelled(s, i + g, l);
    GapsReadBack(s, i, gap, l.kind == Newline);
  }

  lemma Unpack(items: seq<Item>, tail: seq<Gap>)
    requires items != [] && ValidLayout(items, tail)
    ensures Valid(items[0].lexeme) && ValidGap(items[0].gap, items[0].lexeme.kind == Newline)
    ensures Print(items, tail) == GapTexts(items[0].gap) + (Spell(items[0].lexeme) + Print(items[1..], tail))
  {
    hide Valid, ValidGap, Spell, GapTexts;
  }

  lemma TailReadsBack(s: string, i: nat, tail: seq<Gap>)
    requires ValidLayout([], tail) && Here(s, i, Print([], tail)) && i + |Print([], tail)| == |s|
    ensures Lexemes(s, i) == [EOF]
  {
    GapsReadBack(s, i, tail, true);
    hide ValidLayout, Here, GapTexts, Print;
  }

  lemma {:induction false} ItemsReadBack(s: string, i: nat, items: seq<Item>, tail: seq<Gap>)
    requires ValidLayout(items, tail) && Here(s, i, Print(items, tail)) && i + |Print(items, tail)| == |s|
    ensures Lexemes(s, i) == Printed(items) + [EOF]
    decreases |items|
  {
    hide ValidLayout, Here, Spell, GapTexts, Lexemes, Print;
    if items == [] {
      TailReadsBack(s, i, tail);
    } else {
      LayoutRest(items, tail);
      ItemFirst(s, i, items, tail);
      ItemsReadBack(s, i + |GapTexts(items[0].gap)| + |Spell(items[0].lexeme)|, items[1..], tail);
    }
  }

  lemma NewlineSpelled(s: string, i: nat, l: Lexeme)
    requires Valid(l) && Here(s, i, Spell(l))
    ensures l.kind == Newline ==> i < |s| && s[i] == '\n'
  {
    hide Escape;
    HereAt(s, i, Spell(l));
    if l.kind == Newline {
      assert s[i + 0] == Spell(l)[0];
    }
  }

  /** Any sequence of valid tokens, printed with any blanks and comments between them
      (and with none where two tokens cannot run together), is tokenized back to the
      same kinds and values, followed by one END_OF_FILE. */
  lemma {:induction false} PrintThenTokenize(items: seq<Item>, tail: seq<Gap>)
    requires ValidLayout(items, tail)
    ensures Lexemes(Print(items, tail), 0) == Printed(items) + [EOF]
  {
    hide Lexemes, Printed, ValidLayout;
    var s := Print(items, tail);
    assert s[0..0 + |s|] == s;
    ItemsReadBack(s, 0, items, tail);
  }

  /** One blank before every token. */
  function Spaced(lexemes: seq<Lexeme>): (items: seq<Item>)
    ensures |items| == |lexemes|
    ensures forall k | 0 <= k < |items| :: items[k] == Item([Blank(' ')], lexemes[k])
  {
    seq(|lexemes|, k requires 0 <= k < |lexemes| => Item([Blank(' ')], lexemes[k]))
  }

  lemma {:induction false} PrintedSpaced(items: seq<Item>, lexemes: seq<Lexeme>)
    requires |items| == |lexemes| && forall k | 0 <= k < |items| :: items[k].lexeme == lexemes[k]
    ensures Printed(items) == lexemes
  {
    if items != [] {
      PrintedSpaced(items[1..], lexemes[1..]);
    }
  }

  lemma SpacedLayout(lexemes: seq<Lexeme>)
    requires forall k | 0 <= k < |lexemes| :: Valid(lexemes[k])
    ensures ValidLayout(Spaced(lexemes), [])
  {
    hide Valid;
  }

  /** Printing what any source was tokenized to, and tokenizing that, changes nothing. */
  lemma TokenizeIsStable(s: string)
    ensures var lexemes := Lexemes(s, 0);
      lexemes != [] && Lexemes(Print(Spaced(lexemes[..|lexemes| - 1]), []), 0) == lexemes
  {
    hide *;
    LexemesValid(s, 0);
    var lexemes := Lexemes(s, 0);
    var most := lexemes[..|lexemes| - 1];
    SpacedLayout(most);
    PrintThenTokenize(Spaced(most), []);
    PrintedSpaced(Spaced(most), most);
    assert lexemes == most + [EOF];
  }

  /** An unclosed block comment leaves its last character to the tokenizer. */
  lemma UnclosedCommentLeaks(s: string, i: nat)
    requires i + 2 < |s| && s[i] == '/' && s[i + 1] == '*'
    requires forall k | i + 2 <= k < |s| - 1 :: !(s[k] == '*' && s[k + 1] == '/')
    ensures Lexemes(s, i) == Lexemes(s, |s| - 1)
  {
    UnclosedEnd(s, i + 2);
  }

  lemma {:induction false} UnclosedEnd(s: string, i: nat)
    requires i < |s| && forall k | i <= k < |s| - 1 :: !(s[k] == '*' && s[k + 1] == '/')
    ensures CommentEnd(s, i) == |s| - 1
    decreases |s| - i
  {
    if i + 1 < |s| {
      UnclosedEnd(s, i + 1);
    }
  }

  // ---------- the lexer object ----------

  class LamiaLexer {
    const source: string
    var pos: nat
    var line: nat
    var column: nat

    constructor (source: string)
      ensures this.source == source && pos == 0 && line == 1 && column == 1
    {
      this.source := source;
      pos, line, column := 0, 1, 1;
    }

    function Spot(): Place
      reads this
    {
      Place(line, column)
    }

    method Advance()
      modifies this
      ensures pos == old(pos) + 1 && column == old(column) + 1 && line == old(line)
    {
      pos := pos + 1;
      column := column + 1;
    }

    method SkipWhitespace()
      requires pos <= |source|
      modifies this
      ensures pos == BlankEnd(source, old(pos)) && line == old(line) && column == old(column) + (pos - old(pos))
    {
      while pos < |source| && IsSpace(source[pos]) && source[pos] != '\n'
        invariant old(pos) <= pos <= |source| && line == old(line) && column == old(column) + (pos - old(pos))
        invariant BlankEnd(source, old(pos)) == BlankEnd(source, pos)
      {
        Advance();
      }
    }

    method SkipLineComment()
      requires pos + 1 < |source| && source[pos] == '/' && source[pos + 1] == '/'
      modifies this
      ensures pos == LineEnd(source, old(pos) + 2) && line == old(line) && column == old(column) + (pos - old(pos))
    {
      assert LineEnd(source, pos) == LineEnd(source, pos + 1) == LineEnd(source, pos + 2);
      while pos < |source| && source[pos] != '\n'
        invariant old(pos) <= pos <= |source| && line == old(line) && column == old(column) + (pos - old(pos))
        invariant LineEnd(source, old(pos)) == LineEnd(source, pos)
      {
        Advance();
      }
    }

    method SkipBlockComment()
      requires pos + 1 < |source| && source[pos] == '/' && source[pos + 1] == '*'
      modifies this
      ensures pos == CommentEnd(source, old(pos) + 2)
      ensures Spot() == CommentPlace(source, old(pos) + 2, Place(old(line), old(column) + 2))
    {
      Advance();
      Advance();
      while pos + 1 < |source|
        invariant old(pos) + 2 <= pos <= |source|
        invariant CommentEnd(source, old(pos) + 2) == CommentEnd(source, pos)
        invariant CommentPlace(source, old(pos) + 2, Place(old(line), old(column) + 2)) ==
            CommentPlace(source, pos, Spot())
        decreases |source| - pos
      {
        if source[pos] == '*' && source[pos + 1] == '/' {
          Advance();
          Advance();
          break;
        }
        if source[pos] == '\n' {
          line := line + 1;
          column := 1;
        }
        Advance();
      }
    }

    method ReadIdentifierOrKeyword() returns (t: Token)
      requires pos < |source| && IsWordStart(source[pos])
      modifies this
      ensures pos == WordEnd(source, old(pos)) && line == old(line) && column == old(column) + (pos - old(pos))
      ensures Bare(t) == WordLexeme(source[old(pos)..pos]) && t.line == old(line) && t.column == old(column)
    {
      var startLine, startColumn := line, column;
      var value := "";
      while pos < |source| && (IsAlnum(source[pos]) || source[pos] == '_' || source[pos] == '@')
        invariant old(pos) <= pos <= |source| && line == old(line) && column == old(column) + (pos - old(pos))
        invariant value == source[old(pos)..pos] && WordEnd(source, old(pos)) == WordEnd(source, pos)
      {
        value := value + [source[pos]];
        Advance();
      }
      if value == "manifest" { return Token(Manifest, value, startLine, startColumn); }
      if value == "create" { return Token(Create, value, startLine, startColumn); }
      if value[0] == '@' { return Token(At, value, startLine, startColumn); }
      return Token(Identifier, value, startLine, startColumn);
    }

    method ReadString() returns (t: Token)
      requires pos < |source| && source[pos] == '\"'
      modifies this
      ensures pos == QuoteEnd(source, old(pos) + 1, '\"') && line == old(line)
          && column == old(column) + (pos - old(pos))
      ensures t == Token(String, StringValue(source, old(pos) + 1), old(line), old(column))
    {
      hide Copied;
      var startLine, startColumn := line, column;
      var value := "";
      Advance();
      CopyStart(source, pos);
      while pos < |source| && source[pos] != '\"'
        invariant old(pos) + 1 <= pos <= |source| && line == old(line) && column == old(column) + (pos - old(pos))
        invariant Copied(source, old(pos) + 1, pos, value)
        decreases |source| - pos
      {
        CopyStep(source, old(pos) + 1, pos, value);
        if source[pos] == '\\' && pos + 1 < |source| {
          Advance();
          match source[pos] {
            case 'n' => value := value + ['\n'];
            case 't' => value := value + ['\t'];
            case 'r' => value := value + ['\r'];
            case '\\' => value := value + ['\\'];
            case '\"' => value := value + ['\"'];
            case _ => value := value + [source[pos]];
          }
        } else {
          value := value + [source[pos]];
        }
        Advance();
      }
      CopyStop(source, old(pos) + 1, pos, value);
      if pos < |source| {
        Advance();
      }
      return Token(String, value, startLine, startColumn);
    }

    method ReadNumber() returns (t: Token)
      requires pos < |source| && IsDigit(source[pos])
      modifies this
      ensures pos == NumberEnd(source, old(pos)) && line == old(line) && column == old(column) + (pos - old(pos))
      ensures t == Token(Number, source[old(pos)..pos], old(line), old(column))
    {
      var startLine, startColumn := line, column;
      var value := "";
      while pos < |source| && (IsDigit(source[pos]) || source[pos] == '.')
        invariant old(pos) <= pos <= |source| && line == old(line) && column == old(column) + (pos - old(pos))
        invariant value == source[old(pos)..pos] && NumberEnd(source, old(pos)) == NumberEnd(source, pos)
      {
        value := value + [source[pos]];
        Advance();
      }
      return Token(Number, value, startLine, startColumn);
    }

    /** Operators and punctuation; other characters are skipped. */
    method ReadSymbol() returns (found: seq<Token>)
      requires pos < |source| && !IsWordStart(source[pos]) && source[pos] != '\"' && !IsDigit(source[pos])
      requires source[pos] == '/' ==> Peek(source, pos + 1) != '/' && Peek(source, pos + 1) != '*'
      modifies this
      ensures pos == Scan(source, old(pos)).next && Spot() == PlaceAfter(source, old(pos), old(Spot()))
      ensures found == Located(Scan(source, old(pos)).lexemes, old(Spot()))
    {
      found := [];
      match source[pos] {
        case '{' => found := [Token(LBrace, "{", line, column)]; Advance();
        case '}' => found := [Token(RBrace, "}", line, column)]; Advance();
        case ':' => found := [Token(Colon, ":", line, column)]; Advance();
        case ',' => found := [Token(Comma, ",", line, column)]; Advance();
        case '[' => found := [Token(LBracket, "[", line, column)]; Advance();
        case ']' => found := [Token(RBracket, "]", line, column)]; Advance();
        case ';' => found := [Token(Semicolon, ";", line, column)]; Advance();
        case '\n' =>
          found := [Token(Newline, "\n", line, column)];
          Advance();
          line := line + 1;
          column := 1;
        case '-' =>
          if Peek(source, pos + 1) == '>' {
            found := [Token(Arrow, "->", line, column)];
            Advance();
            Advance();
          } else {
            Advance();
          }
        case _ => Advance();
      }
    }

    /** One turn of the loop: the branches of the tokenizer. */
    method ReadPiece() returns (found: seq<Token>)
      requires pos < |source|
      modifies this
      ensures pos == Scan(source, old(pos)).next && Spot() == PlaceAfter(source, old(pos), old(Spot()))
      ensures found == Located(Scan(source, old(pos)).lexemes, old(Spot()))
    {
      hide Scan, PlaceAfter, WordEnd, NumberEnd, QuoteEnd, StringValue, LineEnd, CommentEnd, CommentPlace, WordLexeme,
          Located, Peek, IsWordStart, IsDigit, SymbolKind;
      PieceCases(source, pos, Spot());
      var current := source[pos];
      if current == '/' && Peek(source, pos + 1) == '/' {
        PeekIs(source, pos + 1);
        SkipLineComment();
        found := [];
      } else if current == '/' && Peek(source, pos + 1) == '*' {
        PeekIs(source, pos + 1);
        SkipBlockComment();
        found := [];
      } else if IsWordStart(current) {
        var t := ReadIdentifierOrKeyword();
        found := [t];
      } else if current == '\"' {
        var t := ReadString();
        found := [t];
      } else if IsDigit(current) {
        var t := ReadNumber();
        found := [t];
      } else {
        found := ReadSymbol();
      }
    }

    method Tokenize() returns (tokens: seq<Token>)
      requires pos == 0 && line == 1 && column == 1
      modifies this
      ensures tokens == Tokens(source, 0, Place(1, 1))
      ensures AllBare(tokens) == Lexemes(source, 0)
    {
      hide Scan, PlaceAfter, Tokens, Lexemes, Located, BlankEnd, AllBare;
      tokens := [];
      ghost var all := Tokens(source, 0, Place(1, 1));
      ghost var rest := all;
      while pos < |source|
        invariant 0 <= pos <= |source| && rest == Tokens(source, pos, Place(line, column)) && tokens + rest == all
        decreases |source| - pos
      {
        TokensStep(source, pos, Place(line, column));
        SkipWhitespace();
        if pos >= |source| {
          break;
        }
        ghost var place := Place(line, column);
        ghost var next := Tokens(source, Scan(source, pos).next, PlaceAfter(source, pos, place));
        var found := ReadPiece();
        assert (tokens + found) + next == tokens + (found + next);
        tokens, rest := tokens + found, next;
      }
      TokensStep(source, pos, Place(line, column));
      tokens := tokens + [Token(EndOfFile, "", line, column)];
      BareTokens(source, 0, Place(1, 1));
    }
  }

  lemma PeekIs(s: string, i: nat)
    requires Peek(s, i) != '\0'
    ensures i < |s| && s[i] == Peek(s, i)
  {
  }

  /** Unfolds one turn of `Tokens`. */
  lemma TokensStep(s: string, i: nat, p: Place)
    requires i <= |s|
    ensures var j := BlankEnd(s, i);
      var q := Place(p.line, p.column + (j - i));
      Tokens(s, i, p) ==
      if j == |s| then [Token(EndOfFile, "", q.line, q.column)]
      else Located(Scan(s, j).lexemes, q) + Tokens(s, Scan(s, j).next, PlaceAfter(s, j, q))
  {
    hide Scan, PlaceAfter, BlankEnd;
    var j := BlankEnd(s, i);
    var q := Place(p.line, p.column + (j - i));
    assert Located([EOF], q) == [Token(EndOfFile, "", q.line, q.column)];
    assert p.(column := p.column + (j - i)) == q;
  }

  /** The string whose text starts at `i` has been read up to `j`. */
  ghost predicate Copied(s: string, i: nat, j: nat, value: string) {
    i <= j <= |s| && value + StringValue(s, j) == StringValue(s, i) && QuoteEnd(s, i, '\"') == QuoteEnd(s, j, '\"')
  }

  lemma CopyStart(s: string, i: nat)
    requires i <= |s|
    ensures Copied(s, i, i, "")
  {
  }

  lemma CopyStep(s: string, i: nat, j: nat, value: string)
    requires Copied(s, i, j, value) && j < |s| && s[j] != '\"'
    ensures
      if s[j] == '\\' && j + 1 < |s| then Copied(s, i, j + 2, value + [Unescape(s[j + 1])])
      else Copied(s, i, j + 1, value + [s[j]])
  {
    var escaped := s[j] == '\\' && j + 1 < |s|;
    var c, k := if escaped then Unescape(s[j + 1]) else s[j], if escaped then j + 2 else j + 1;
    assert value + ([c] + StringValue(s, k)) == value + [c] + StringValue(s, k);
  }

  lemma CopyStop(s: string, i: nat, j: nat, value: string)
    requires Copied(s, i, j, value) && (j < |s| ==> s[j] == '\"')
    ensures value == StringValue(s, i) && QuoteEnd(s, i, '\"') == if j < |s| then j + 1 else j
  {
    assert StringValue(s, j) == "";
  }

  /** One piece, branch by branch. */
  lemma PieceCases(s: string, j: nat, p: Place)
    requires j < |s|
    ensures var c, r, after := s[j], Scan(s, j), PlaceAfter(s, j, p);
      && Located([], p) == []
      && (c == '/' && Peek(s, j + 1) == '/' ==>
          r == Piece([], LineEnd(s, j + 2)) && after == Place(p.line, p.column + (r.next - j)))
      && (c == '/' && Peek(s, j + 1) == '*' ==>
            r == Piece([], CommentEnd(s, j + 2)) && after == CommentPlace(s, j + 2, Place(p.line, p.column + 2)))
      && (IsWordStart(c) ==>
            && r.next == WordEnd(s, j) && after == Place(p.line, p.column + (r.next - j))
            && var l := WordLexeme(s[j..WordEnd(s, j)]);
               Located(r.lexemes, p) == [Token(l.kind, l.value, p.line, p.column)])
      && (c == '\"' ==>
            && r.next == QuoteEnd(s, j + 1, '\"') && after == Place(p.line, p.column + (r.next - j))
            && Located(r.lexemes, p) == [Token(String, StringValue(s, j + 1), p.line, p.column)])
      && (IsDigit(c) ==>
            && r.next == NumberEnd(s, j) && after == Place(p.line, p.column + (r.next - j))
            && Located(r.lexemes, p) == [Token(Number, s[j..NumberEnd(s, j)], p.line, p.column)])
  {
    hide WordEnd, NumberEnd, QuoteEnd, StringValue, LineEnd, CommentEnd, CommentPlace, WordLexeme, Located;
    LocatedNone(p);
    if IsWordStart(s[j]) {
      LocatedOne(WordLexeme(s[j..WordEnd(s, j)]), p);
    } else if s[j] == '\"' {
      LocatedOne(Lexeme(String, StringValue(s, j + 1)), p);
    } else if IsDigit(s[j]) {
      LocatedOne(Lexeme(Number, s[j..NumberEnd(s, j)]), p);
    }
  }

  lemma LocatedNone(p: Place)
    ensures Located([], p) == []
  {
  }

  lemma LocatedOne(l: Lexeme, p: Place)
    ensures Located([l], p) == [Token(l.kind, l.value, p.line, p.column)]
  {
    assert Located([l], p) == [Token(l.kind, l.value, p.line, p.column)] + Located([l][1..], p);
  }
}
