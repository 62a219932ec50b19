/** The loss-preserving lexer of `lamia_compiler.cpp`: nine handlers that copy every
    character they consume into a token.
 */
module LosslessLexer {
  import opened Chars

  datatype Kind = Keyword | Identifier | Literal | Operator | Punctuation | Comment
                | Whitespace | Newline | StringInterpolation | TemplateLiteral

  /** The hint texts, one name for each. */
  datatype Hint = NoHint | UnknownCharacter | SingleLineComment | MultiLineComment
                | InterpolatedString | StringLiteral | TemplateHint | FloatLiteral | IntegerLiteral
                | LamiaKeyword | PlainIdentifier | SuggestedIdentifier
                | ThreeCharacterOperator | TwoCharacterOperator | SingleCharacterOperator | PunctuationHint

  datatype Token = Token(kind: Kind, value: string, position: nat, line: nat, hint: Hint)

  /** `size_t` subtraction wraps around. */
  function Wrap(n: int): nat
    requires -0x1_0000_0000_0000_0000 <= n
  {
    if n < 0 then n + 0x1_0000_0000_0000_0000 else n
  }

  // ---------- tables ----------

  const KEYWORDS: set<string> := {
    "create", "become", "invoke", "summon",
    "when", "otherwise", "while_shining", "for_each_star", "until_dark",
    "manifest", "return_light", "yield_radiance",
    "blueprint", "inherit_essence", "implement_facet",
    "await_dawn", "promise_light", "emit_signal",
    "render_beauty", "style_with", "bind_data", "handle_touch",
    "radiant", "shimmer", "lumina", "void_star",
    "constellation", "nebula", "galaxy", "prism",
    "crystal", "aurora", "widget", "theme", "vault", "portal"
  }

  const THREE_CHAR_OPERATORS: set<string> := {"<~>", "**>", "<<<", ">>>"}

  const TWO_CHAR_OPERATORS: set<string> := {
    "==", "!=", "<=", ">=", "&&", "||", "++", "--",
    "+=", "-=", "*=", "/=", "%=", "&=", "|=", "^=",
    "<<", ">>", "->", "~>", "<*", "**"
  }

  predicate IsOperatorChar(c: char) {
    c in {'+', '-', '*', '/', '%', '=', '!', '<', '>', '&', '|', '^', '~', '?', ':'}
  }

  predicate IsPunctuation(c: char) {
    c in {'(', ')', '[', ']', '{', '}', ',', ';', '.', '@', '#'}
  }

  predicate IsWordChar(c: char) {
    IsAlnum(c) || c == '_'
  }

  // ---------- where a token ends ----------

  /** Some "${" is met while scanning the string. */
  function Interpolates(s: string, i: nat): bool
    requires i <= |s|
    decreases |s| - i
  {
    if i == |s| || s[i] == '\"' then false
    else if s[i] == '\\' then i + 1 < |s| && Interpolates(s, i + 2)
    else (s[i] == '$' && Peek(s, i + 1) == '{') || Interpolates(s, i + 1)
  }

  /** Line breaks counted while scanning a quoted text: escaped ones are not. */
  function QuoteLines(s: string, i: nat, quote: char): nat
    requires i <= |s|
    decreases |s| - i
  {
    if i == |s| || s[i] == quote then 0
    else if s[i] == '\\' then if i + 1 < |s| then QuoteLines(s, i + 2, quote) else 0
    else (if s[i] == '\n' then 1 else 0) + QuoteLines(s, i + 1, quote)
  }

  datatype Number = Number(end: nat, decimal: bool)

  /** A number goes on over digits, one decimal point, and exponents with a sign. */
  function NumberEnd(s: string, i: nat, decimal: bool): (n: Number)
    requires i <= |s|
    ensures i <= n.end <= |s|
    decreases |s| - i
  {
    if i == |s| then Number(i, decimal)
    else if IsDigit(s[i]) then NumberEnd(s, i + 1, decimal)
    else if s[i] == '.' && !decimal then NumberEnd(s, i + 1, true)
    else if s[i] == 'e' || s[i] == 'E' then
      if i + 1 < |s| && (s[i + 1] == '+' || s[i + 1] == '-') then NumberEnd(s, i + 2, decimal)
      else NumberEnd(s, i + 1, decimal)
    else Number(i, decimal)
  }

  function WordEnd(s: string, i: nat): (j: nat)
    requires i <= |s|
    ensures i <= j <= |s| && (forall k | i <= k < j :: IsWordChar(s[k])) && (j < |s| ==> !IsWordChar(s[j]))
    decreases |s| - i
  {
    if i < |s| && IsWordChar(s[i]) then WordEnd(s, i + 1) else i
  }

  /** Longest operator first. */
  function OperatorEnd(s: string, i: nat): (j: nat)
    requires i < |s|
    ensures i < j <= |s|
  {
    if i + 2 < |s| && s[i..i + 3] in THREE_CHAR_OPERATORS then i + 3
    else if i + 1 < |s| && s[i..i + 2] in TWO_CHAR_OPERATORS then i + 2
    else i + 1
  }

  // ---------- one token ----------

  /** `lines` counts the line breaks seen before the token is stored. */
  datatype Scanned = Scanned(kind: Kind, end: nat, hint: Hint, lines: nat)

  function CommentLines(s: string, i: nat): nat
    requires i <= |s|
    decreases |s| - i
  {
    if i + 1 >= |s| || (s[i] == '*' && s[i + 1] == '/') then 0
    else (if s[i] == '\n' then 1 else 0) + CommentLines(s, i + 1)
  }

  function ScanWord(s: string, i: nat, aiMode: bool): (r: Scanned)
    requires i < |s| && IsWordChar(s[i])
    ensures i < r.end <= |s|
  {
    var end := WordEnd(s, i);
    if s[i..end] in KEYWORDS then Scanned(Keyword, end, LamiaKeyword, 0)
    else Scanned(Identifier, end, if aiMode then SuggestedIdentifier else PlainIdentifier, 0)
  }

  function ScanString(s: string, i: nat): (r: Scanned)
    requires i < |s|
    ensures i < r.end <= |s|
  {
    var end, lines := QuoteEnd(s, i + 1, '\"'), QuoteLines(s, i + 1, '\"');
    if Interpolates(s, i + 1) then Scanned(StringInterpolation, end, InterpolatedString, lines)
    else Scanned(Literal, end, StringLiteral, lines)
  }

  function ScanNumber(s: string, i: nat): (r: Scanned)
    requires i < |s| && (IsDigit(s[i]) || (s[i] == '.' && IsDigit(Peek(s, i + 1))))
    ensures i < r.end <= |s|
  {
    var n := if s[i] == '.' then NumberEnd(s, i + 1, true) else NumberEnd(s, i, false);
    Scanned(Literal, n.end, if n.decimal then FloatLiteral else IntegerLiteral, 0)
  }

  function OperatorHint(length: nat): Hint {
    if length == 3 then ThreeCharacterOperator
    else if length == 2 then TwoCharacterOperator
    else SingleCharacterOperator
  }

  function Scan(s: string, i: nat, aiMode: bool): (r: Scanned)
    requires i < |s|
    ensures i < r.end <= |s|
  {
    var c := s[i];
    if c == '\n' then Scanned(Newline, i + 1, NoHint, 0)
    else if IsSpace(c) then Scanned(Whitespace, BlankEnd(s, i), NoHint, 0)
    else if c == '/' && Peek(s, i + 1) == '/' then Scanned(Comment, LineEnd(s, i + 2), SingleLineComment, 0)
    else if c == '/' && Peek(s, i + 1) == '*' then
      Scanned(Comment, CommentEnd(s, i + 2), MultiLineComment, CommentLines(s, i + 2))
    else if c == '\"' then ScanString(s, i)
    else if c == '`' then Scanned(TemplateLiteral, QuoteEnd(s, i + 1, '`'), TemplateHint, QuoteLines(s, i + 1, '`'))
    else if IsDigit(c) || (c == '.' && IsDigit(Peek(s, i + 1))) then ScanNumber(s, i)
    else if IsAlpha(c) || c == '_' then ScanWord(s, i, aiMode)
    else if IsOperatorChar(c) then
      var end := OperatorEnd(s, i);
      Scanned(Operator, end, OperatorHint(end - i), 0)
    else if IsPunctuation(c) then Scanned(Punctuation, i + 1, PunctuationHint, 0)
    else Scanned(Identifier, i + 1, UnknownCharacter, 0)
  }

  /** Line breaks and unknown characters are stored before the cursor moves. */
  predicate Early(r: Scanned) {
    r.kind == Newline || r.hint == UnknownCharacter
  }

  function TokenAt(s: string, i: nat, line: nat, aiMode: bool): Token
    requires i < |s|
  {
    var r := Scan(s, i, aiMode);
    var value := if r.kind == Newline then "\\n" else s[i..r.end];
    Token(r.kind, value, Wrap((if Early(r) then i else r.end) - |value|), line + r.lines, r.hint)
  }

  function LineAfter(s: string, i: nat, line: nat, aiMode: bool): nat
    requires i < |s|
  {
    var r := Scan(s, i, aiMode);
    line + r.lines + if r.kind == Newline then 1 else 0
  }

  function Tokens(s: string, i: nat, line: nat, aiMode: bool): seq<Token>
    requires i <= |s|
    decreases |s| - i
  {
    if i == |s| then []
    else [TokenAt(s, i, line, aiMode)] + Tokens(s, Scan(s, i, aiMode).end, LineAfter(s, i, line, aiMode), aiMode)
  }

  // ---------- nothing is lost ----------

  /** The text a token stands for: a NEWLINE token is one line break. */
  function Text(t: Token): string {
    if t.kind == Newline then "\n" else t.value
  }

  function Texts(tokens: seq<Token>): string {
    if tokens == [] then "" else Text(tokens[0]) + Texts(tokens[1..])
  }

  lemma TokenText(s: string, i: nat, line: nat, aiMode: bool)
    requires i < |s|
    ensures Text(TokenAt(s, i, line, aiMode)) == s[i..Scan(s, i, aiMode).end]
  {
  }

  /** For every source, with unclosed strings and comments too, the token texts spell it out. */
  lemma {:induction false} Lossless(s: string, i: nat, line: nat, aiMode: bool)
    requires i <= |s|
    ensures Texts(Tokens(s, i, line, aiMode)) == s[i..]
    decreases |s| - i
  {
    hide Scan, TokenAt, LineAfter, Text;
    if i < |s| {
      var end := Scan(s, i, aiMode).end;
      TokenText(s, i, line, aiMode);
      Lossless(s, end, LineAfter(s, i, line, aiMode), aiMode);
      assert s[i..] == s[i..end] + s[end..];
    }
  }

  /** Different sources have different token sequences. */
  lemma TokensDetermineSource(s: string, t: string, aiMode: bool)
    ensures Tokens(s, 0, 1, aiMode) == Tokens(t, 0, 1, aiMode) ==> s == t
  {
    hide Tokens, Texts;
    Lossless(s, 0, 1, aiMode);
    Lossless(t, 0, 1, aiMode);
    assert s[0..] == s && t[0..] == t;
  }

  lemma TokenPosition(s: string, i: nat, line: nat, aiMode: bool)
    requires i < |s|
    ensures var t := TokenAt(s, i, line, aiMode);
      t.position == if t.kind == Newline then Wrap(i - 2) else if t.hint == UnknownCharacter then Wrap(i - 1) else i
  {
    hide BlankEnd, LineEnd, CommentEnd, QuoteEnd, NumberEnd, WordEnd, Interpolates, QuoteLines, CommentLines;
  }

  /** The stored position is where the token's text starts, except that a line break is
      stored two characters early and an unknown character one character early. */
  lemma {:induction false} Positions(s: string, i: nat, line: nat, aiMode: bool, k: nat)
    requires i <= |s| && k < |Tokens(s, i, line, aiMode)|
    ensures var tokens := Tokens(s, i, line, aiMode);
      var t, offset := tokens[k], i + |Texts(tokens[..k])|;
      && offset + |Text(t)| <= |s| && s[offset..offset + |Text(t)|] == Text(t)
      && t.position ==
         if t.kind == Newline then Wrap(offset - 2)
         else if t.hint == UnknownCharacter then Wrap(offset - 1) else offset
    decreases |s| - i
  {
    hide Scan, TokenAt, LineAfter, Text;
    var tokens := Tokens(s, i, line, aiMode);
    var end := Scan(s, i, aiMode).end;
    TokenText(s, i, line, aiMode);
    if k > 0 {
      Positions(s, end, LineAfter(s, i, line, aiMode), aiMode, k - 1);
      assert tokens[..k][1..] == tokens[1..][..k - 1];
    } else {
      TokenPosition(s, i, line, aiMode);
      assert tokens[..0] == [];
    }
  }

  // ---------- line numbers ----------

  /** Line breaks hidden behind a backslash in a quoted text. */
  function EscapedBreaks(s: string, i: nat, quote: char): nat
    requires i <= |s|
    decreases |s| - i
  {
    if i == |s| || s[i] == quote then 0
    else if s[i] == '\\' then
      if i + 1 < |s| then (if s[i + 1] == '\n' then 1 else 0) + EscapedBreaks(s, i + 2, quote) else 0
    else EscapedBreaks(s, i + 1, quote)
  }

  lemma {:induction false} QuotedBreaks(s: string, i: nat, quote: char)
    requires i <= |s| && quote != '\n'
    ensures QuoteLines(s, i, quote) + EscapedBreaks(s, i, quote) == Breaks(s, i, QuoteEnd(s, i, quote))
    decreases |s| - i
  {
    if i < |s| && s[i] != quote {
      if s[i] == '\\' && i + 1 < |s| {
        QuotedBreaks(s, i + 2, quote);
      } else {
        QuotedBreaks(s, i + 1, quote);
      }
    }
  }

  lemma {:induction false} CommentBreaks(s: string, i: nat)
    requires i <= |s|
    ensures CommentLines(s, i) == Breaks(s, i, CommentEnd(s, i))
    decreases |s| - i
  {
    if i + 1 < |s| {
      if s[i] == '*' && s[i + 1] == '/' {
        NoBreaks(s, i, i + 2);
      } else {
        CommentBreaks(s, i + 1);
      }
    }
  }

  lemma {:induction false} NumberHasNoBreaks(s: string, i: nat, decimal: bool)
    requires i <= |s|
    ensures Breaks(s, i, NumberEnd(s, i, decimal).end) == 0
    decreases |s| - i
  {
    if i < |s| {
      if IsDigit(s[i]) {
        NumberHasNoBreaks(s, i + 1, decimal);
      } else if s[i] == '.' && !decimal {
        NumberHasNoBreaks(s, i + 1, true);
      } else if s[i] == 'e' || s[i] == 'E' {
        if i + 1 < |s| && (s[i + 1] == '+' || s[i + 1] == '-') {
          NumberHasNoBreaks(s, i + 2, decimal);
        } else {
          NumberHasNoBreaks(s, i + 1, decimal);
        }
      }
    }
  }

  lemma OperatorHasNoBreaks(s: string, i: nat)
    requires i < |s| && IsOperatorChar(s[i])
    ensures Breaks(s, i, OperatorEnd(s, i)) == 0
  {
    OperatorCharIs(s[i]);
    hide IsOperatorChar;
    if i + 2 < |s| && s[i..i + 3] in THREE_CHAR_OPERATORS {
      ThreeNoBreaks(s[i..i + 3]);
      assert s[i + 1] == s[i..i + 3][1] && s[i + 2] == s[i..i + 3][2];
    } else if i + 1 < |s| && s[i..i + 2] in TWO_CHAR_OPERATORS {
      TwoNoBreaks(s[i..i + 2]);
      assert s[i + 1] == s[i..i + 2][1];
    }
    NoBreaks(s, i, OperatorEnd(s, i));
  }

  lemma ThreeNoBreaks(op: string)
    requires op in THREE_CHAR_OPERATORS
    ensures |op| == 3 && op[1] != '\n' && op[2] != '\n'
  {
  }

  lemma TwoNoBreaks(op: string)
    requires op in TWO_CHAR_OPERATORS
    ensures |op| == 2 && op[1] != '\n'
  {
  }

  /** The line breaks of a token that its line count misses. */
  function Missed(s: string, i: nat): nat
    requires i < |s|
  {
    if s[i] == '\"' || s[i] == '`' then EscapedBreaks(s, i + 1, s[i]) else 0
  }

  lemma TokenBreaks(s: string, i: nat, aiMode: bool)
    requires i < |s|
    ensures var r := Scan(s, i, aiMode);
      r.lines + (if r.kind == Newline then 1 else 0) + Missed(s, i) == Breaks(s, i, r.end)
  {
    hide BlankEnd, LineEnd, CommentEnd, QuoteEnd, NumberEnd, WordEnd, OperatorEnd, Interpolates, QuoteLines,
        CommentLines, EscapedBreaks;
    var end := Scan(s, i, aiMode).end;
    if s[i] == '\"' || s[i] == '`' {
      QuotedBreaks(s, i + 1, s[i]);
    } else if s[i] == '/' && Peek(s, i + 1) == '*' {
      CommentBreaks(s, i + 2);
    } else if IsDigit(s[i]) {
      NumberHasNoBreaks(s, i, false);
    } else if s[i] == '.' && IsDigit(Peek(s, i + 1)) {
      NumberHasNoBreaks(s, i + 1, true);
    } else if IsOperatorChar(s[i]) && !(s[i] == '/' && Peek(s, i + 1) == '/') {
      OperatorHasNoBreaks(s, i);
    } else if s[i] != '\n' {
      NoBreaks(s, i, end);
    }
  }

  /** The line breaks missed in the first `n` tokens. */
  function MissedBefore(s: string, i: nat, aiMode: bool, n: nat): nat
    requires i <= |s|
    decreases |s| - i
  {
    if i == |s| || n == 0 then 0 else Missed(s, i) + MissedBefore(s, Scan(s, i, aiMode).end, aiMode, n - 1)
  }

  /** A token's line is the line its text ends on (for a line break, the line it ends),
      less the line breaks that strings and templates up to it hide behind backslashes. */
  lemma {:induction false} Lines(s: string, i: nat, line: nat, aiMode: bool, k: nat)
    requires i <= |s| && k < |Tokens(s, i, line, aiMode)|
    ensures var tokens := Tokens(s, i, line, aiMode);
      var t, end := tokens[k], i + |Texts(tokens[..k + 1])|;
      && end <= |s|
      && t.line + (if t.kind == Newline then 1 else 0) + MissedBefore(s, i, aiMode, k + 1) == line + Breaks(s, i, end)
    decreases |s| - i
  {
    hide Scan, TokenAt, LineAfter, Text, Breaks, Missed;
    var tokens := Tokens(s, i, line, aiMode);
    var end := Scan(s, i, aiMode).end;
    var next := LineAfter(s, i, line, aiMode);
    TokenText(s, i, line, aiMode);
    TokenLines(s, i, line, aiMode);
    TokenBreaks(s, i, aiMode);
    assert tokens[..k + 1][1..] == tokens[1..][..k];
    if k > 0 {
      Lines(s, end, next, aiMode, k - 1);
      BreaksAdd(s, i, end, end + |Texts(tokens[1..][..k])|);
    } else {
      assert tokens[1..][..0] == [];
    }
  }

  lemma TokenLines(s: string, i: nat, line: nat, aiMode: bool)
    requires i < |s|
    ensures var r, t := Scan(s, i, aiMode), TokenAt(s, i, line, aiMode);
      && t.kind == r.kind && t.line == line + r.lines
      && LineAfter(s, i, line, aiMode) == line + r.lines + if r.kind == Newline then 1 else 0
  {
  }

  // ---------- the lexer object ----------

  /** No handler takes the character at `i`. */
  predicate Unhandled(s: string, i: nat)
    requires i < |s|
  {
    var c := s[i];
    && !IsSpace(c) && c != '\"' && c != '`'
    && !IsDigit(c) && !(c == '.' && IsDigit(Peek(s, i + 1)))
    && !IsAlpha(c) && c != '_' && !IsOperatorChar(c) && !IsPunctuation(c)
  }

  class LamiaLexer {
    const source: string
    const aiMode: bool
    var position: nat
    var line: nat
    var tokens: seq<Token>

    constructor (source: string, aiMode: bool)
      requires |source| < 0x1_0000_0000_0000_0000
      ensures this.source == source && this.aiMode == aiMode && position == 0 && line == 1 && tokens == []
    {
      this.source, this.aiMode := source, aiMode;
      position, line, tokens := 0, 1, [];
    }

    /** The handler stored the token at `i` and moved past it. */
    ghost predicate Handled(i: nat, l: nat, before: seq<Token>)
      reads this
    {
      && i < |source| && position == Scan(source, i, aiMode).end
      && line == LineAfter(source, i, l, aiMode)
      && tokens == before + [TokenAt(source, i, l, aiMode)]
    }

    method AddToken(kind: Kind, value: string, hint: Hint)
      requires |value| <= position + 2
      modifies this`tokens
      ensures tokens == old(tokens) + [Token(kind, value, Wrap(position - |value|), line, hint)]
    {
      tokens := tokens + [Token(kind, value, Wrap(position - |value|), line, hint)];
    }

    method HandleWhitespace()
      requires position < |source| && IsSpace(source[position])
      modifies this
      ensures Handled(old(position), old(line), old(tokens))
    {
      hide Scan, TokenAt, LineAfter;
      if source[position] == '\n' {
        BreakToken(source, position, line, aiMode);
        AddToken(Newline, "\\n", NoHint);
        line := line + 1;
        position := position + 1;
        return;
      }
      var whitespace := "";
      while position < |source| && IsSpace(source[position]) && source[position] != '\n'
        invariant old(position) <= position <= |source| && line == old(line) && tokens == old(tokens)
        invariant whitespace == source[old(position)..position]
        invariant BlankEnd(source, old(position)) == BlankEnd(source, position)
      {
        whitespace := whitespace + [source[position]];
        position := position + 1;
      }
      BlankToken(source, old(position), old(line), aiMode);
      AddToken(Whitespace, whitespace, NoHint);
    }

    method HandleSingleLineComment()
      requires position + 1 < |source| && source[position] == '/' && source[position + 1] == '/'
      modifies this
      ensures Handled(old(position), old(line), old(tokens))
    {
      hide Scan, TokenAt, LineAfter;
      position := position + 2;
      var comment := "//";
      while position < |source| && source[position] != '\n'
        invariant old(position) + 2 <= position <= |source| && line == old(line) && tokens == old(tokens)
        invariant comment == source[old(position)..position]
        invariant LineEnd(source, old(position) + 2) == LineEnd(source, position)
      {
        comment := comment + [source[position]];
        position := position + 1;
      }
      LineCommentToken(source, old(position), old(line), aiMode);
      AddToken(Comment, comment, SingleLineComment);
    }

    method HandleMultiLineComment()
      requires position + 1 < |source| && source[position] == '/' && source[position + 1] == '*'
      modifies this
      ensures Handled(old(position), old(line), old(tokens))
    {
      hide Scan, TokenAt, LineAfter, InComment, CommentEnd, CommentLines, Wrap;
      ghost var at, firstLine, before := position, line, tokens;
      CommentStart(source, position, line);
      position := position + 2;
      var comment := "/*";
      while position < |source| - 1
        invariant position <= |source| && tokens == before
        invariant InComment(source, at, firstLine, position, line, comment)
        decreases |source| - position
      {
        CommentStep(source, at, firstLine, position, line, comment);
        if source[position] == '*' && source[position + 1] == '/' {
          comment := comment + "*/";
          position := position + 2;
          break;
        }
        if source[position] == '\n' {
          line := line + 1;
        }
        comment := comment + [source[position]];
        position := position + 1;
      }
      CommentStop(source, at, firstLine, position, line, comment);
      BlockCommentToken(source, at, firstLine, aiMode);
      AddToken(Comment, comment, MultiLineComment);
      WrapSmall(at);
    }

    method HandleStringLiteral()
      requires position < |source| && source[position] == '\"'
      modifies this
      ensures Handled(old(position), old(line), old(tokens))
    {
      hide Scan, TokenAt, LineAfter, InQuote, QuoteEnd, QuoteLines, Interpolates, Wrap, Peek;
      ghost var at, firstLine, before := position, line, tokens;
      QuoteStart(source, position, line);
      position := position + 1;
      var literal := "\"";
      var hasInterpolation := false;
      while position < |source| && source[position] != '\"'
        invariant position <= |source| && tokens == before
        invariant InQuote(source, at, firstLine, '\"', position, line, literal, hasInterpolation)
        decreases |source| - position
      {
        var current := source[position];
        QuoteStep(source, at, firstLine, '\"', position, line, literal, hasInterpolation);
        if current == '\\' {
          literal := literal + [current];
          position := position + 1;
          if position < |source| {
            literal := literal + [source[position]];
            position := position + 1;
          }
        } else if current == '$' && Peek(source, position + 1) == '{' {
          hasInterpolation := true;
          literal := literal + [current];
          position := position + 1;
        } else {
          if current == '\n' {
            line := line + 1;
          }
          literal := literal + [current];
          position := position + 1;
        }
      }
      QuoteStop(source, at, firstLine, '\"', position, line, literal, hasInterpolation);
      QuotedToken(source, at, firstLine, aiMode);
      if position < |source| {
        literal := literal + [source[position]];
        position := position + 1;
      }
      AddToken(if hasInterpolation then StringInterpolation else Literal, literal,
               if hasInterpolation then InterpolatedString else StringLiteral);
      WrapSmall(at);
    }

    method HandleTemplateLiteral()
      requires position < |source| && source[position] == '`'
      modifies this
      ensures Handled(old(position), old(line), old(tokens))
    {
      hide Scan, TokenAt, LineAfter, InQuote, QuoteEnd, QuoteLines, Interpolates, Peek, Wrap;
      ghost var at, firstLine, before := position, line, tokens;
      QuoteStart(source, position, line);
      position := position + 1;
      var literal := "`";
      while position < |source| && source[position] != '`'
        invariant position <= |source| && tokens == before
        invariant InQuote(source, at, firstLine, '`', position, line, literal, false)
        decreases |source| - position
      {
        var current := source[position];
        QuoteStep(source, at, firstLine, '`', position, line, literal, false);
        if current == '\\' {
          literal := literal + [current];
          position := position + 1;
          if position < |source| {
            literal := literal + [source[position]];
            position := position + 1;
          }
        } else {
          if current == '\n' {
            line := line + 1;
          }
          literal := literal + [current];
          position := position + 1;
        }
      }
      QuoteStop(source, at, firstLine, '`', position, line, literal, false);
      QuotedToken(source, at, firstLine, aiMode);
      if position < |source| {
        literal := literal + [source[position]];
        position := position + 1;
      }
      AddToken(TemplateLiteral, literal, TemplateHint);
      WrapSmall(at);
    }

    method HandleNumberLiteral()
      requires position < |source|
      requires IsDigit(source[position]) || (source[position] == '.' && IsDigit(Peek(source, position + 1)))
      modifies this
      ensures Handled(old(position), old(line), old(tokens))
    {
      hide Scan, TokenAt, LineAfter, InNumber, NumberEnd, Wrap, IsDigit, Peek;
      ghost var at, firstLine, before := position, line, tokens;
      NumberStart(source, position);
      var number := "";
      var hasDecimal := false;
      if source[position] == '.' {
        hasDecimal := true;
        number := number + [source[position]];
        position := position + 1;
      }
      while position < |source|
        invariant position <= |source| && line == firstLine && tokens == before
        invariant InNumber(source, at, position, number, hasDecimal)
        decreases |source| - position
      {
        var current := source[position];
        NumberStep(source, at, position, number, hasDecimal);
        if IsDigit(current) {
          number := number + [current];
          position := position + 1;
        } else if current == '.' && !hasDecimal {
          hasDecimal := true;
          number := number + [current];
          position := position + 1;
        } else if current == 'e' || current == 'E' {
          number := number + [current];
          position := position + 1;
          if position < |source| && (source[position] == '+' || source[position] == '-') {
            number := number + [source[position]];
            position := position + 1;
          }
        } else {
          break;
        }
      }
      NumberStop(source, at, position, number, hasDecimal);
      NumberToken(source, at, firstLine, aiMode);
      AddToken(Literal, number, if hasDecimal then FloatLiteral else IntegerLiteral);
      WrapSmall(at);
    }

    method HandleIdentifierOrKeyword()
      requires position < |source| && (IsAlpha(source[position]) || source[position] == '_')
      modifies this
      ensures Handled(old(position), old(line), old(tokens))
    {
      hide Scan, TokenAt, LineAfter, KEYWORDS;
      var identifier := "";
      while position < |source|
        invariant old(position) <= position <= |source| && line == old(line) && tokens == old(tokens)
        invariant identifier == source[old(position)..position]
        invariant WordEnd(source, old(position)) == WordEnd(source, position)
      {
        var current := source[position];
        if IsAlnum(current) || current == '_' {
          identifier := identifier + [current];
          position := position + 1;
        } else {
          break;
        }
      }
      var isKeyword := identifier in KEYWORDS;
      var kind := if isKeyword then Keyword else Identifier;
      var hint := if isKeyword then LamiaKeyword else PlainIdentifier;
      if aiMode && kind == Identifier {
        hint := SuggestedIdentifier;
      }
      WordToken(source, old(position), old(line), aiMode);
      AddToken(kind, identifier, hint);
    }

    method HandleOperator()
      requires position < |source| && IsOperatorChar(source[position])
      requires source[position] == '/' ==> Peek(source, position + 1) != '/' && Peek(source, position + 1) != '*'
      modifies this
      ensures Handled(old(position), old(line), old(tokens))
    {
      hide Scan, TokenAt, LineAfter;
      OperatorToken(source, position, line, aiMode);
      if position + 2 < |source| {
        var threeChar := source[position..position + 3];
        if threeChar in THREE_CHAR_OPERATORS {
          position := position + 3;
          AddToken(Operator, threeChar, ThreeCharacterOperator);
          return;
        }
      }
      if position + 1 < |source| {
        var twoChar := source[position..position + 2];
        if twoChar in TWO_CHAR_OPERATORS {
          position := position + 2;
          AddToken(Operator, twoChar, TwoCharacterOperator);
          return;
        }
      }
      var op := [source[position]];
      assert op == source[position..position + 1];
      position := position + 1;
      AddToken(Operator, op, SingleCharacterOperator);
    }

    method HandlePunctuation()
      requires position < |source| && IsPunctuation(source[position])
      requires source[position] == '.' ==> !IsDigit(Peek(source, position + 1))
      modifies this
      ensures Handled(old(position), old(line), old(tokens))
    {
      hide Scan, TokenAt, LineAfter;
      SingleToken(source, position, line, aiMode);
      var punct := [source[position]];
      assert punct == source[position..position + 1];
      position := position + 1;
      AddToken(Punctuation, punct, PunctuationHint);
    }

    /** A character no handler takes becomes a token of its own. */
    method HandleUnknown()
      requires position < |source| && Unhandled(source, position)
      modifies this
      ensures Handled(old(position), old(line), old(tokens))
    {
      hide Scan, TokenAt, LineAfter;
      SingleToken(source, position, line, aiMode);
      assert [source[position]] == source[position..position + 1];
      AddToken(Identifier, [source[position]], UnknownCharacter);
      position := position + 1;
    }

    /** One turn of the loop: the handler the next character asks for. */
    method HandleNext()
      requires position < |source|
      modifies this
      ensures Handled(old(position), old(line), old(tokens))
    {
      hide Scan, TokenAt, LineAfter, IsSpace, IsDigit, IsAlpha, IsOperatorChar, IsPunctuation, Peek;
      PeekWithin(source, position + 1);
      var current := source[position];
      if IsSpace(current) {
        HandleWhitespace();
      } else if current == '/' && Peek(source, position + 1) == '/' {
        HandleSingleLineComment();
      } else if current == '/' && Peek(source, position + 1) == '*' {
        HandleMultiLineComment();
      } else if current == '\"' {
        HandleStringLiteral();
      } else if current == '`' {
        HandleTemplateLiteral();
      } else if IsDigit(current) || (current == '.' && IsDigit(Peek(source, position + 1))) {
        HandleNumberLiteral();
      } else if IsAlpha(current) || current == '_' {
        HandleIdentifierOrKeyword();
      } else if IsOperatorChar(current) {
        HandleOperator();
      } else if IsPunctuation(current) {
        HandlePunctuation();
      } else {
        HandleUnknown();
      }
    }

    method Tokenize() returns (result: seq<Token>)
      modifies this
      ensures result == tokens == Tokens(source, 0, 1, aiMode)
      ensures Texts(result) == source
    {
      hide Scan, TokenAt, LineAfter, Texts;
      tokens := [];
      position := 0;
      line := 1;
      while position < |source|
        invariant 0 <= position <= |source|
        invariant tokens + Tokens(source, position, line, aiMode) == Tokens(source, 0, 1, aiMode)
        decreases |source| - position
      {
        ghost var t, rest := TokenAt(source, position, line, aiMode),
            Tokens(source, Scan(source, position, aiMode).end, LineAfter(source, position, line, aiMode), aiMode);
        assert tokens + ([t] + rest) == (tokens + [t]) + rest;
        HandleNext();
      }
      Lossless(source, 0, 1, aiMode);
      assert source[0..] == source;
      result := tokens;
    }
  }

  lemma PeekWithin(s: string, i: nat)
    ensures Peek(s, i) != '\0' ==> i < |s| && s[i] == Peek(s, i)
  {
  }

  lemma WrapSmall(n: nat)
    ensures Wrap(n) == n
  {
  }

  /** The comment that starts at `i` has been copied up to `j`. */
  ghost predicate InComment(s: string, i: nat, line0: nat, j: nat, line: nat, text: string) {
    && i + 2 <= j <= |s| && text == s[i..j]
    && CommentEnd(s, i + 2) == CommentEnd(s, j)
    && line + CommentLines(s, j) == line0 + CommentLines(s, i + 2)
  }

  /** ... and is complete at `j`. */
  ghost predicate CommentDone(s: string, i: nat, line0: nat, j: nat, line: nat, text: string) {
    && i + 2 <= j <= |s| && text == s[i..j]
    && CommentEnd(s, i + 2) == j && line == line0 + CommentLines(s, i + 2)
  }

  lemma CommentStart(s: string, i: nat, line: nat)
    requires i + 1 < |s| && s[i] == '/' && s[i + 1] == '*'
    ensures InComment(s, i, line, i + 2, line, "/*")
  {
    assert s[i..i + 2] == "/*";
  }

  lemma CommentStep(s: string, i: nat, line0: nat, j: nat, line: nat, text: string)
    requires InComment(s, i, line0, j, line, text) && j + 1 < |s|
    ensures
      if s[j] == '*' && s[j + 1] == '/' then CommentDone(s, i, line0, j + 2, line, text + "*/")
      else InComment(s, i, line0, j + 1, line + (if s[j] == '\n' then 1 else 0), text + [s[j]])
  {
    assert s[i..j + 1] == s[i..j] + [s[j]];
    assert s[i..j + 2] == s[i..j] + [s[j], s[j + 1]];
  }

  lemma CommentStop(s: string, i: nat, line0: nat, j: nat, line: nat, text: string)
    requires CommentDone(s, i, line0, j, line, text) || (InComment(s, i, line0, j, line, text) && j + 1 >= |s|)
    ensures CommentDone(s, i, line0, j, line, text)
  {
  }

  /** The quoted text that starts at `i` has been copied up to `j`. */
  ghost predicate InQuote(s: string, i: nat, line0: nat, quote: char, j: nat, line: nat, text: string,
      interpolated: bool) {
    && i < j <= |s| && text == s[i..j]
    && QuoteEnd(s, i + 1, quote) == QuoteEnd(s, j, quote)
    && line + QuoteLines(s, j, quote) == line0 + QuoteLines(s, i + 1, quote)
    && (quote == '\"' ==> Interpolates(s, i + 1) == (interpolated || Interpolates(s, j)))
  }

  lemma QuoteStart(s: string, i: nat, line: nat)
    requires i < |s|
    ensures InQuote(s, i, line, s[i], i + 1, line, [s[i]], false)
  {
  }

  /** One step inside a quoted text. */
  lemma QuoteStep(s: string, i: nat, line0: nat, quote: char, j: nat, line: nat, text: string, interpolated: bool)
    requires InQuote(s, i, line0, quote, j, line, text, interpolated) && j < |s| && s[j] != quote
    ensures
      if s[j] == '\\' && j + 1 < |s|
      then InQuote(s, i, line0, quote, j + 2, line, text + [s[j]] + [s[j + 1]], interpolated)
      else if s[j] == '\\' then InQuote(s, i, line0, quote, j + 1, line, text + [s[j]], interpolated)
      else if quote == '\"' && s[j] == '$' && Peek(s, j + 1) == '{' then
        InQuote(s, i, line0, quote, j + 1, line, text + [s[j]], true)
      else InQuote(s, i, line0, quote, j + 1, line + (if s[j] == '\n' then 1 else 0), text + [s[j]], interpolated)
  {
    assert s[i..j + 1] == s[i..j] + [s[j]];
    if j + 1 < |s| {
      assert s[i..j + 2] == s[i..j + 1] + [s[j + 1]];
    }
  }

  /** The end of a quoted text. */
  lemma QuoteStop(s: string, i: nat, line0: nat, quote: char, j: nat, line: nat, text: string, interpolated: bool)
    requires InQuote(s, i, line0, quote, j, line, text, interpolated) && (j < |s| ==> s[j] == quote)
    ensures QuoteEnd(s, i + 1, quote) == (if j < |s| then j + 1 else j) && line == line0 + QuoteLines(s, i + 1, quote)
    ensures s[i..QuoteEnd(s, i + 1, quote)] == if j < |s| then text + [s[j]] else text
    ensures quote == '\"' ==> interpolated == Interpolates(s, i + 1)
  {
    if j < |s| {
      assert s[i..j + 1] == s[i..j] + [s[j]];
    }
  }

  /** The number that starts at `i` has been copied up to `j`. */
  ghost predicate InNumber(s: string, i: nat, j: nat, text: string, decimal: bool) {
    && i <= j <= |s| && i < |s| && text == s[i..j]
    && NumberEnd(s, j, decimal) == if s[i] == '.' then NumberEnd(s, i + 1, true) else NumberEnd(s, i, false)
  }

  lemma NumberStart(s: string, i: nat)
    requires i < |s|
    ensures s[i] == '.' ==> InNumber(s, i, i + 1, "" + [s[i]], true)
    ensures s[i] != '.' ==> InNumber(s, i, i, "", false)
  {
  }

  lemma NumberStep(s: string, i: nat, j: nat, text: string, decimal: bool)
    requires InNumber(s, i, j, text, decimal) && j < |s|
    ensures
      if IsDigit(s[j]) then InNumber(s, i, j + 1, text + [s[j]], decimal)
      else if s[j] == '.' && !decimal then InNumber(s, i, j + 1, text + [s[j]], true)
      else if s[j] == 'e' || s[j] == 'E' then
        if j + 1 < |s| && (s[j + 1] == '+' || s[j + 1] == '-')
        then InNumber(s, i, j + 2, text + [s[j]] + [s[j + 1]], decimal)
        else InNumber(s, i, j + 1, text + [s[j]], decimal)
      else NumberEnd(s, j, decimal) == Number(j, decimal)
  {
    assert s[i..j + 1] == s[i..j] + [s[j]];
    if j + 1 < |s| {
      assert s[i..j + 2] == s[i..j + 1] + [s[j + 1]];
    }
  }

  lemma NumberStop(s: string, i: nat, j: nat, text: string, decimal: bool)
    requires InNumber(s, i, j, text, decimal) && (j < |s| ==> NumberEnd(s, j, decimal) == Number(j, decimal))
    ensures var n := if s[i] == '.' then NumberEnd(s, i + 1, true) else NumberEnd(s, i, false);
      n == Number(j, decimal) && text == s[i..n.end]
  {
  }

  lemma QuotedToken(s: string, i: nat, line: nat, aiMode: bool)
    requires i < |s| && (s[i] == '\"' || s[i] == '`')
    ensures var end, lines := QuoteEnd(s, i + 1, s[i]), QuoteLines(s, i + 1, s[i]);
      var interpolated := Interpolates(s, i + 1);
      && Scan(s, i, aiMode).end == end && LineAfter(s, i, line, aiMode) == line + lines
      && TokenAt(s, i, line, aiMode) ==
         if s[i] == '`' then Token(TemplateLiteral, s[i..end], i, line + lines, TemplateHint)
         else if interpolated then Token(StringInterpolation, s[i..end], i, line + lines, InterpolatedString)
         else Token(Literal, s[i..end], i, line + lines, StringLiteral)
  {
    hide QuoteEnd, QuoteLines, Interpolates;
  }

  lemma BreakToken(s: string, i: nat, line: nat, aiMode: bool)
    requires i < |s| && s[i] == '\n'
    ensures Scan(s, i, aiMode).end == i + 1 && LineAfter(s, i, line, aiMode) == line + 1
    ensures TokenAt(s, i, line, aiMode) == Token(Newline, "\\n", Wrap(i - 2), line, NoHint)
  {
  }

  lemma BlankToken(s: string, i: nat, line: nat, aiMode: bool)
    requires i < |s| && IsSpace(s[i]) && s[i] != '\n'
    ensures var end := BlankEnd(s, i);
      && Scan(s, i, aiMode).end == end && LineAfter(s, i, line, aiMode) == line
      && TokenAt(s, i, line, aiMode) == Token(Whitespace, s[i..end], i, line, NoHint)
  {
    hide BlankEnd;
  }

  lemma LineCommentToken(s: string, i: nat, line: nat, aiMode: bool)
    requires i + 1 < |s| && s[i] == '/' && s[i + 1] == '/'
    ensures var end := LineEnd(s, i + 2);
      && Scan(s, i, aiMode).end == end && LineAfter(s, i, line, aiMode) == line
      && TokenAt(s, i, line, aiMode) == Token(Comment, s[i..end], i, line, SingleLineComment)
  {
    hide LineEnd;
  }

  lemma BlockCommentToken(s: string, i: nat, line: nat, aiMode: bool)
    requires i + 1 < |s| && s[i] == '/' && s[i + 1] == '*'
    ensures var end, lines := CommentEnd(s, i + 2), CommentLines(s, i + 2);
      && Scan(s, i, aiMode).end == end && LineAfter(s, i, line, aiMode) == line + lines
      && TokenAt(s, i, line, aiMode) == Token(Comment, s[i..end], i, line + lines, MultiLineComment)
  {
    hide CommentEnd, CommentLines;
  }

  lemma SingleToken(s: string, i: nat, line: nat, aiMode: bool)
    requires i < |s|
    requires Unhandled(s, i) || (IsPunctuation(s[i]) && (s[i] == '.' ==> !IsDigit(Peek(s, i + 1))))
    ensures Scan(s, i, aiMode).end == i + 1 && LineAfter(s, i, line, aiMode) == line
    ensures TokenAt(s, i, line, aiMode) ==
      if Unhandled(s, i) then Token(Identifier, s[i..i + 1], Wrap(i - 1), line, UnknownCharacter)
      else Token(Punctuation, s[i..i + 1], i, line, PunctuationHint)
  {
  }

  lemma NumberToken(s: string, i: nat, line: nat, aiMode: bool)
    requires i < |s| && (IsDigit(s[i]) || (s[i] == '.' && IsDigit(Peek(s, i + 1))))
    ensures var n := if s[i] == '.' then NumberEnd(s, i + 1, true) else NumberEnd(s, i, false);
      && Scan(s, i, aiMode).end == n.end && LineAfter(s, i, line, aiMode) == line
      && TokenAt(s, i, line, aiMode) ==
         Token(Literal, s[i..n.end], i, line, if n.decimal then FloatLiteral else IntegerLiteral)
  {
    hide NumberEnd;
  }

  lemma WordToken(s: string, i: nat, line: nat, aiMode: bool)
    requires i < |s| && (IsAlpha(s[i]) || s[i] == '_')
    ensures var r := ScanWord(s, i, aiMode);
      && Scan(s, i, aiMode).end == r.end && LineAfter(s, i, line, aiMode) == line
      && TokenAt(s, i, line, aiMode) == Token(r.kind, s[i..r.end], i, line, r.hint)
  {
    hide WordEnd;
  }

  lemma OperatorToken(s: string, i: nat, line: nat, aiMode: bool)
    requires i < |s| && IsOperatorChar(s[i])
    requires s[i] == '/' ==> Peek(s, i + 1) != '/' && Peek(s, i + 1) != '*'
    ensures var end := OperatorEnd(s, i);
      && Scan(s, i, aiMode).end == end && LineAfter(s, i, line, aiMode) == line
      && TokenAt(s, i, line, aiMode) == Token(Operator, s[i..end], i, line, OperatorHint(end - i))
  {
    hide OperatorEnd, IsOperatorChar, IsPunctuation, IsSpace, IsDigit, IsAlpha;
    OperatorCharIs(s[i]);
  }

  lemma OperatorCharIs(c: char)
    requires IsOperatorChar(c)
    ensures c !in {'\n', '\"', '`', '.', '_'} && !IsSpace(c) && !IsDigit(c) && !IsAlpha(c)
  {
  }
}
