/** Which stretch of a source each token of the lossless lexer takes, and of what kind it is, in plain
    characters. */
module Shapes {
  import opened Chars
  import opened LosslessLexer
  import opened Segments

  const BLANKS := {' ', '\t', '\U{0B}', '\U{0C}', '\r'}

  /** White space up to the next line break is one token. */
  lemma BlankShape(s: string, i: nat, aiMode: bool)
    requires i < |s| && s[i] in BLANKS
    ensures var r := Scan(s, i, aiMode);
      && r.kind == Whitespace && (forall k | i <= k < r.end :: s[k] in BLANKS)
      && (r.end < |s| ==> s[r.end] !in BLANKS)
  {
    hide BlankEnd;
  }

  /** A line break is one by itself, written as a backslash and an n. */
  lemma BreakShape(s: string, i: nat, line: nat, aiMode: bool)
    requires i < |s| && s[i] == '\n'
    ensures Scan(s, i, aiMode).kind == Newline && Scan(s, i, aiMode).end == i + 1
    ensures TokenAt(s, i, line, aiMode).value == ['\\', 'n']
  {
  }

  /** A line comment goes up to the line break, which is not part of it. */
  lemma LineCommentShape(s: string, i: nat, aiMode: bool)
    requires i + 1 < |s| && s[i] == '/' && s[i + 1] == '/'
    ensures var r := Scan(s, i, aiMode);
      && r.kind == Comment && i + 2 <= r.end && (forall k | i <= k < r.end :: s[k] != '\n')
      && (r.end < |s| ==> s[r.end] == '\n')
  {
    hide LineEnd;
  }

  predicate Mark(s: string, k: nat) {
    k + 1 < |s| && s[k] == '*' && s[k + 1] == '/'
  }

  lemma BlockCommentScanned(s: string, i: nat, aiMode: bool)
    requires i + 1 < |s| && s[i] == '/' && s[i + 1] == '*'
    ensures Scan(s, i, aiMode).kind == Comment && Scan(s, i, aiMode).end == CommentEnd(s, i + 2)
  {
    hide CommentEnd, CommentLines;
  }

  /** A block comment ends with the first mark behind its start. */
  lemma BlockCommentShape(s: string, i: nat, aiMode: bool, end: nat)
    requires i + 1 < |s| && s[i] == '/' && s[i + 1] == '*'
    requires i + 2 <= end && Mark(s, end) && forall k | i + 2 <= k < end :: !Mark(s, k)
    ensures Scan(s, i, aiMode).kind == Comment && Scan(s, i, aiMode).end == end + 2
  {
    hide Scan, CommentEnd;
    BlockCommentScanned(s, i, aiMode);
    ClosedAt(s, i + 2, end);
  }

  /** Without a mark it stops one character early. */
  lemma OpenCommentShape(s: string, i: nat, aiMode: bool)
    requires i + 1 < |s| && s[i] == '/' && s[i + 1] == '*' && forall k | i + 2 <= k < |s| :: !Mark(s, k)
    ensures Scan(s, i, aiMode).kind == Comment
    ensures Scan(s, i, aiMode).end == if i + 2 == |s| then |s| else |s| - 1
  {
    hide Scan, CommentEnd;
    BlockCommentScanned(s, i, aiMode);
    NeverClosed(s, i + 2);
  }

  lemma {:induction false} ClosedAt(s: string, i: nat, end: nat)
    requires i <= end && Mark(s, end) && forall k | i <= k < end :: !Mark(s, k)
    ensures CommentEnd(s, i) == end + 2
    decreases end - i
  {
    assert i < end ==> !Mark(s, i);
    if i < end {
      ClosedAt(s, i + 1, end);
    }
  }

  lemma {:induction false} NeverClosed(s: string, i: nat)
    requires i <= |s| && forall k | i <= k < |s| :: !Mark(s, k)
    ensures CommentEnd(s, i) == if i == |s| then i else |s| - 1
    decreases |s| - i
  {
    if i + 1 < |s| {
      assert !Mark(s, i);
      NeverClosed(s, i + 1);
    }
  }

  // ---------- quoted texts ----------

  /** What stands between quotes: characters, and pairs of a backslash and any character. */
  datatype Unit = Plain(c: char) | Escaped(c: char)

  function Written(units: seq<Unit>): string {
    if units == [] then ""
    else (if units[0].Plain? then [units[0].c] else ['\\', units[0].c]) + Written(units[1..])
  }

  ghost predicate Inside(units: seq<Unit>, quote: char) {
    forall k | 0 <= k < |units| :: units[k].Plain? ==> units[k].c != quote && units[k].c != '\\'
  }

  /** The units stand behind the quote at `i`; after them comes the closing quote, the end of the source, or
      one last backslash. */
  ghost predicate Quotes(s: string, i: nat, units: seq<Unit>) {
    && i < |s| && Inside(units, s[i]) && Here(s, i + 1, Written(units))
    && var j := i + 1 + |Written(units)|;
       j == |s| || s[j] == s[i] || (s[j] == '\\' && j + 1 == |s|)
  }

  /** A dollar sign and a brace next to each other, neither of them behind a backslash. */
  ghost predicate HasPlaceholder(units: seq<Unit>) {
    exists k | 0 <= k < |units| - 1 :: units[k] == Plain('$') && units[k + 1] == Plain('{')
  }

  lemma WrittenFirst(s: string, i: nat, units: seq<Unit>)
    requires units != [] && Here(s, i, Written(units))
    ensures var n := if units[0].Plain? then 1 else 2;
      && |Written(units)| == n + |Written(units[1..])| && i + n <= |s| && Here(s, i + n, Written(units[1..]))
      && (if units[0].Plain? then s[i] == units[0].c else s[i] == '\\' && s[i + 1] == units[0].c)
  {
    var first := if units[0].Plain? then [units[0].c] else ['\\', units[0].c];
    HereSplit(s, i, first, Written(units[1..]));
    HereAt(s, i, first);
    assert s[i + 0] == first[0];
    if units[0].Escaped? {
      assert s[i + 1] == first[1];
    }
  }

  lemma {:induction false} QuoteEndsThere(s: string, i: nat, quote: char, units: seq<Unit>)
    requires Inside(units, quote) && Here(s, i, Written(units)) && quote != '\\'
    requires var j := i + |Written(units)|; j == |s| || s[j] == quote || (s[j] == '\\' && j + 1 == |s|)
    ensures var j := i + |Written(units)|; QuoteEnd(s, i, quote) == if j < |s| then j + 1 else j
    decreases |units|
  {
    hide Here, Written;
    if units == [] {
      NothingWritten();
    } else {
      WrittenFirst(s, i, units);
      QuoteEndsThere(s, i + (if units[0].Plain? then 1 else 2), quote, units[1..]);
    }
  }

  lemma NothingWritten()
    ensures Written([]) == "" && !HasPlaceholder([])
  {
  }

  lemma PlaceholderFirst(units: seq<Unit>)
    requires units != []
    ensures HasPlaceholder(units) <==>
      (units[0] == Plain('$') && |units| > 1 && units[1] == Plain('{')) || HasPlaceholder(units[1..])
  {
    if k :| 0 <= k < |units| - 1 && units[k] == Plain('$') && units[k + 1] == Plain('{') {
      if k > 0 {
        assert units[1..][k - 1] == units[k] && units[1..][k] == units[k + 1];
      }
    }
    if k :| 0 <= k < |units| - 2 && units[1..][k] == Plain('$') && units[1..][k + 1] == Plain('{') {
      assert units[k + 1] == Plain('$') && units[k + 2] == Plain('{');
    }
  }

  /** The character behind the first unit is a brace exactly if the second unit is. */
  lemma {:induction false} BraceNext(s: string, i: nat, units: seq<Unit>)
    requires units != [] && units[0].Plain? && Here(s, i, Written(units))
    requires var j := i + |Written(units)|; j == |s| || s[j] == '\"' || (s[j] == '\\' && j + 1 == |s|)
    ensures Peek(s, i + 1) == '{' <==> |units| > 1 && units[1] == Plain('{')
  {
    hide Here, Written;
    WrittenFirst(s, i, units);
    if |units| > 1 {
      WrittenFirst(s, i + 1, units[1..]);
      assert units[1..][0] == units[1];
    } else {
      assert units[1..] == [];
      NothingWritten();
    }
  }

  lemma {:induction false} PlaceholderIs(s: string, i: nat, units: seq<Unit>)
    requires Inside(units, '\"') && Here(s, i, Written(units))
    requires var j := i + |Written(units)|; j == |s| || s[j] == '\"' || (s[j] == '\\' && j + 1 == |s|)
    ensures i <= |s| && (Interpolates(s, i) <==> HasPlaceholder(units))
    decreases |units|
  {
    hide Here, Written, HasPlaceholder;
    HereFits(s, i, Written(units));
    if units == [] {
      NothingWritten();
    } else {
      WrittenFirst(s, i, units);
      PlaceholderFirst(units);
      PlaceholderIs(s, i + (if units[0].Plain? then 1 else 2), units[1..]);
      if units[0].Plain? {
        BraceNext(s, i, units);
      }
    }
  }

  /** A string or template takes its units and the closing quote, if there is one. */
  lemma QuotedShape(s: string, i: nat, aiMode: bool, units: seq<Unit>)
    requires Quotes(s, i, units) && (s[i] == '\"' || s[i] == '`')
    ensures var r, j := Scan(s, i, aiMode), i + 1 + |Written(units)|;
      && r.end == (if j < |s| then j + 1 else j)
      && r.kind == if s[i] == '`' then TemplateLiteral
                   else if HasPlaceholder(units) then StringInterpolation else Literal
  {
    hide Here, Written, HasPlaceholder, Interpolates, QuoteEnd, QuoteLines;
    QuoteEndsThere(s, i + 1, s[i], units);
    if s[i] == '\"' {
      PlaceholderIs(s, i + 1, units);
    }
  }

  /** Every quote of every source starts such units. */
  lemma {:induction false} UnitsFrom(s: string, i: nat, quote: char) returns (units: seq<Unit>)
    requires i <= |s|
    ensures Inside(units, quote) && Here(s, i, Written(units))
    ensures var j := i + |Written(units)|; j == |s| || s[j] == quote || (s[j] == '\\' && j + 1 == |s|)
    decreases |s| - i
  {
    hide Here, Written, Inside;
    if i == |s| || s[i] == quote || (s[i] == '\\' && i + 1 == |s|) {
      units := [];
      NoUnits(s, i, quote);
    } else if s[i] == '\\' {
      var rest := UnitsFrom(s, i + 2, quote);
      units := [Escaped(s[i + 1])] + rest;
      UnitInFront(s, i, quote, Escaped(s[i + 1]), rest);
    } else {
      var rest := UnitsFrom(s, i + 1, quote);
      units := [Plain(s[i])] + rest;
      UnitInFront(s, i, quote, Plain(s[i]), rest);
    }
  }

  lemma NoUnits(s: string, i: nat, quote: char)
    requires i <= |s|
    ensures Inside([], quote) && Here(s, i, Written([])) && Written([]) == ""
  {
  }

  lemma UnitInFront(s: string, i: nat, quote: char, first: Unit, rest: seq<Unit>)
    requires var n := if first.Plain? then 1 else 2;
      && i + n <= |s| && Here(s, i + n, Written(rest)) && Inside(rest, quote)
      && (if first.Plain? then s[i] == first.c && first.c != quote && first.c != '\\'
          else s[i] == '\\' && s[i + 1] == first.c)
    ensures var n := if first.Plain? then 1 else 2;
      && Inside([first] + rest, quote) && Here(s, i, Written([first] + rest))
      && |Written([first] + rest)| == n + |Written(rest)|
  {
    var n := if first.Plain? then 1 else 2;
    assert ([first] + rest)[1..] == rest;
    assert s[i..i + n] == if first.Plain? then [first.c] else ['\\', first.c];
    WriteFirst(s, i, n, Written(rest));
  }

  lemma WriteFirst(s: string, i: nat, n: nat, rest: string)
    requires i + n <= |s| && Here(s, i + n, rest)
    ensures Here(s, i, s[i..i + n] + rest)
  {
    assert s[i..i + (n + |rest|)] == s[i..i + n] + s[i + n..i + n + |rest|];
  }

  // ---------- numbers ----------

  /** Digits, exponent marks, at most one dot, and signs right behind exponent marks. */
  ghost predicate Numeral(text: string) {
    && (forall k | 0 <= k < |text| :: '0' <= text[k] <= '9' || text[k] in {'.', 'e', 'E', '+', '-'})
    && (forall k, l | 0 <= k < l < |text| :: !(text[k] == '.' && text[l] == '.'))
    && (forall k | 0 <= k < |text| && text[k] in {'+', '-'} :: k > 0 && text[k - 1] in {'e', 'E'})
  }

  /** The numeral has been read up to `j`, and no sign belongs to it there. */
  ghost predicate ReadTo(s: string, i: nat, j: nat, decimal: bool) {
    && i <= j <= |s| && Numeral(s[i..j]) && (decimal <==> '.' in s[i..j])
    && (j > i && s[j - 1] in {'e', 'E'} && j < |s| ==> s[j] !in {'+', '-'})
  }

  lemma Longer(s: string, i: nat, j: nat)
    requires i <= j < |s|
    ensures s[i..j + 1] == s[i..j] + [s[j]]
  {
  }

  lemma NumeralMore(text: string, c: char)
    requires Numeral(text)
    ensures Numeral(text + [c]) <==>
      || '0' <= c <= '9' || c in {'e', 'E'} || (c == '.' && '.' !in text)
      || (c in {'+', '-'} && text != "" && text[|text| - 1] in {'e', 'E'})
  {
    var more := text + [c];
    assert more[|text|] == c;
    if '.' in text {
      var k :| 0 <= k < |text| && text[k] == '.';
      assert more[k] == '.';
    }
    forall k | 0 <= k < |text| ensures more[k] == text[k] {
    }
  }

  lemma OneMore(s: string, i: nat, j: nat, decimal: bool)
    requires i <= j < |s| && Numeral(s[i..j]) && (decimal <==> '.' in s[i..j])
    ensures Numeral(s[i..j + 1]) <==>
      || '0' <= s[j] <= '9' || s[j] in {'e', 'E'} || (s[j] == '.' && !decimal)
      || (s[j] in {'+', '-'} && j > i && s[j - 1] in {'e', 'E'})
    ensures '.' in s[i..j + 1] <==> decimal || s[j] == '.'
  {
    Longer(s, i, j);
    NumeralMore(s[i..j], s[j]);
    hide Numeral;
    if j > i {
      assert s[i..j][|s[i..j]| - 1] == s[j - 1];
    }
  }

  lemma ReadStep(s: string, i: nat, j: nat, decimal: bool)
    requires ReadTo(s, i, j, decimal) && j < |s|
    ensures
      if '0' <= s[j] <= '9' then ReadTo(s, i, j + 1, decimal)
      else if s[j] == '.' && !decimal then ReadTo(s, i, j + 1, true)
      else if s[j] == 'e' || s[j] == 'E' then
        if j + 1 < |s| && (s[j + 1] == '+' || s[j + 1] == '-') then ReadTo(s, i, j + 2, decimal)
        else ReadTo(s, i, j + 1, decimal)
      else !Numeral(s[i..j + 1])
  {
    hide Numeral;
    OneMore(s, i, j, decimal);
    if (s[j] == 'e' || s[j] == 'E') && j + 1 < |s| && (s[j + 1] == '+' || s[j + 1] == '-') {
      OneMore(s, i, j + 1, decimal);
    }
  }

  /** The numeral ends there, because it cannot be longer. */
  ghost predicate Longest(s: string, i: nat, n: Number) {
    && i <= n.end <= |s| && Numeral(s[i..n.end]) && (n.end < |s| ==> !Numeral(s[i..n.end + 1]))
    && (n.decimal <==> '.' in s[i..n.end])
  }

  lemma ReadStop(s: string, i: nat, j: nat, decimal: bool)
    requires ReadTo(s, i, j, decimal) && (j < |s| ==> !Numeral(s[i..j + 1]))
    ensures Longest(s, i, Number(j, decimal))
  {
    hide Numeral;
  }

  lemma {:induction false} NumberShapeFrom(s: string, i: nat, j: nat, decimal: bool)
    requires j <= |s| && ReadTo(s, i, j, decimal)
    ensures Longest(s, i, NumberEnd(s, j, decimal))
    decreases |s| - j
  {
    hide Numeral, ReadTo, Longest;
    if j == |s| {
      ReadStop(s, i, j, decimal);
    } else {
      ReadWithin(s, i, j, decimal);
      ReadStep(s, i, j, decimal);
      if '0' <= s[j] <= '9' {
        NumberShapeFrom(s, i, j + 1, decimal);
      } else if s[j] == '.' && !decimal {
        NumberShapeFrom(s, i, j + 1, true);
      } else if s[j] == 'e' || s[j] == 'E' {
        if j + 1 < |s| && (s[j + 1] == '+' || s[j + 1] == '-') {
          NumberShapeFrom(s, i, j + 2, decimal);
        } else {
          NumberShapeFrom(s, i, j + 1, decimal);
        }
      } else {
        ReadStop(s, i, j, decimal);
      }
    }
  }

  lemma ReadWithin(s: string, i: nat, j: nat, decimal: bool)
    requires ReadTo(s, i, j, decimal)
    ensures i <= j <= |s|
  {
  }

  /** A number is the longest numeral there, and a decimal one exactly if it has a dot. */
  lemma NumberShape(s: string, i: nat, aiMode: bool)
    requires i < |s| && ('0' <= s[i] <= '9' || (s[i] == '.' && i + 1 < |s| && '0' <= s[i + 1] <= '9'))
    ensures var r := Scan(s, i, aiMode);
      && r.kind == Literal && Numeral(s[i..r.end]) && (r.end < |s| ==> !Numeral(s[i..r.end + 1]))
      && r.hint == if '.' in s[i..r.end] then FloatLiteral else IntegerLiteral
  {
    if s[i] == '.' {
      assert s[i..i + 1] == ".";
      NumberShapeFrom(s, i, i + 1, true);
    } else {
      assert s[i..i] == "";
      NumberShapeFrom(s, i, i, false);
    }
    hide NumberEnd, Numeral;
  }

  // ---------- words and signs ----------

  ghost predicate WordLike(c: char) {
    'a' <= c <= 'z' || 'A' <= c <= 'Z' || '0' <= c <= '9' || c == '_'
  }

  /** A word is the longest one there, and a keyword exactly if the table has it. */
  lemma WordShape(s: string, i: nat, aiMode: bool)
    requires i < |s| && WordLike(s[i]) && !('0' <= s[i] <= '9')
    ensures var r := Scan(s, i, aiMode);
      && (forall k | i <= k < r.end :: WordLike(s[k])) && (r.end < |s| ==> !WordLike(s[r.end]))
      && (if s[i..r.end] in KEYWORDS then r.kind == Keyword && r.hint == LamiaKeyword
          else r.kind == Identifier && r.hint == if aiMode then SuggestedIdentifier else PlainIdentifier)
  {
    hide WordEnd;
  }

  /** Of the operators with three, two and one characters the longest is taken. */
  lemma OperatorShape(s: string, i: nat, aiMode: bool)
    requires i < |s| && s[i] in {'+', '-', '*', '/', '%', '=', '!', '<', '>', '&', '|', '^', '~', '?', ':'}
    requires s[i] == '/' && i + 1 < |s| ==> s[i + 1] != '/' && s[i + 1] != '*'
    ensures var r := Scan(s, i, aiMode);
      && r.kind == Operator
      && r.end == i + if i + 3 <= |s| && s[i..i + 3] in THREE_CHAR_OPERATORS then 3
                      else if i + 2 <= |s| && s[i..i + 2] in TWO_CHAR_OPERATORS then 2 else 1
  {
    hide THREE_CHAR_OPERATORS, TWO_CHAR_OPERATORS;
  }

  /** Punctuation is taken one by one, and so is every character nothing else takes. */
  lemma SingleShape(s: string, i: nat, aiMode: bool)
    requires i < |s|
    requires s[i] != '\n' && s[i] !in BLANKS && !WordLike(s[i]) && s[i] != '\"' && s[i] != '`'
    requires s[i] !in {'+', '-', '*', '/', '%', '=', '!', '<', '>', '&', '|', '^', '~', '?', ':'}
    requires s[i] == '.' && i + 1 < |s| ==> !('0' <= s[i + 1] <= '9')
    ensures var r := Scan(s, i, aiMode);
      && r.end == i + 1
      && (if s[i] in {'(', ')', '[', ']', '{', '}', ',', ';', '.', '@', '#'} then r.kind == Punctuation
          else r.kind == Identifier && r.hint == UnknownCharacter)
  {
  }
}
