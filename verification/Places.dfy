/** Lines and columns of the real lexer's tokens, told by the line breaks of the source. */
module Places {
  import opened Chars
  import opened Lexer

  /** Where the `k`th token from `i` on starts. */
  function Offset(s: string, i: nat, k: nat): nat
    requires i <= |s|
    decreases |s| - i
  {
    var j := BlankEnd(s, i);
    if j == |s| then j
    else if Scan(s, j).lexemes == [] then Offset(s, Scan(s, j).next, k)
    else if k == 0 then j
    else Offset(s, Scan(s, j).next, k - 1)
  }

  /** The last line break of s[i..j], or -1. */
  function LastBreak(s: string, i: nat, j: nat): (k: int)
    requires i <= j <= |s|
    ensures k == -1 || (i <= k < j && s[k] == '\n')
    ensures forall l | i <= l < j && l > k :: s[l] != '\n'
    decreases j - i
  {
    if i == j then -1
    else
      var k := LastBreak(s, i + 1, j);
      if k >= 0 then k else if s[i] == '\n' then i else -1
  }

  predicate BlockComment(s: string, i: nat)
    requires i < |s|
  {
    s[i] == '/' && i + 1 < |s| && s[i + 1] == '*'
  }

  /** The line breaks inside strings that start between `i` and `o`. */
  function InStrings(s: string, i: nat, o: nat): nat
    requires i <= |s|
    decreases |s| - i
  {
    var j := BlankEnd(s, i);
    if j == |s| || j >= o then 0
    else (if s[j] == '\"' then Breaks(s, j, Scan(s, j).next) else 0) + InStrings(s, Scan(s, j).next, o)
  }

  /** From where columns are counted at `o`: the last line break outside strings, or the character before it
      if it is in a block comment; at first -1. */
  function Margin(s: string, i: nat, o: nat, before: int): int
    requires i <= |s|
    decreases |s| - i
  {
    var j := BlankEnd(s, i);
    if j == |s| || j >= o then before
    else
      var next := Scan(s, j).next;
      Margin(s, next, o,
             if s[j] == '\n' then j
             else if BlockComment(s, j) && LastBreak(s, j, next) >= 0 then LastBreak(s, j, next) - 1
             else before)
  }

  lemma {:induction false} BreaksOrNot(s: string, i: nat, j: nat)
    requires i <= j <= |s|
    ensures (LastBreak(s, i, j) < 0 <==> Breaks(s, i, j) == 0)
    decreases j - i
  {
    if i < j {
      BreaksOrNot(s, i + 1, j);
    }
  }

  /** Lines and columns inside a block comment. */
  lemma {:induction false} CommentPlaceIs(s: string, i: nat, p: Place)
    requires i <= |s|
    ensures var end, q := CommentEnd(s, i), CommentPlace(s, i, p);
      && q.line == p.line + Breaks(s, i, end)
      && q.column == if LastBreak(s, i, end) < 0 then p.column + (end - i) else end - LastBreak(s, i, end) + 1
    decreases |s| - i
  {
    if i + 1 < |s| {
      if s[i] == '*' && s[i + 1] == '/' {
        NoBreaks(s, i, i + 2);
        BreaksOrNot(s, i, i + 2);
      } else {
        CommentPlaceIs(s, i + 1, if s[i] == '\n' then Place(p.line + 1, 2) else p.(column := p.column + 1));
      }
    }
  }

  /** What stands between strings, comments and line breaks has no line break. */
  lemma PieceBreaks(s: string, j: nat)
    requires j < |s| && s[j] != '\"' && s[j] != '\n' && !BlockComment(s, j)
    ensures Breaks(s, j, Scan(s, j).next) == 0
  {
    hide WordEnd, NumberEnd, LineEnd, CommentEnd, QuoteEnd, StringValue, WordLexeme, Breaks;
    NoBreaks(s, j, Scan(s, j).next);
  }

  lemma OneBreak(s: string, j: nat)
    requires j < |s| && s[j] == '\n'
    ensures Scan(s, j).next == j + 1 && Breaks(s, j, j + 1) == 1
  {
    assert Breaks(s, j + 1, j + 1) == 0;
  }

  /** One piece: its line breaks count, unless it is a string, and columns go on from the margin. */
  lemma PieceLaw(s: string, j: nat, q: Place)
    requires j < |s|
    ensures var next, r := Scan(s, j).next, PlaceAfter(s, j, q);
      && r.line == q.line + (if s[j] == '\"' then 0 else Breaks(s, j, next))
      && r.column ==
         if s[j] == '\n' then 1
         else if BlockComment(s, j) && LastBreak(s, j, next) >= 0 then next - LastBreak(s, j, next) + 1
         else q.column + (next - j)
  {
    hide Breaks, LastBreak, CommentEnd, CommentPlace, QuoteEnd, WordEnd, NumberEnd, LineEnd, StringValue;
    if s[j] == '\n' {
      OneBreak(s, j);
    } else if BlockComment(s, j) {
      var next := Scan(s, j).next;
      CommentPlaceIs(s, j + 2, q.(column := q.column + 2));
      NoBreaks(s, j, j + 2);
      BreaksAdd(s, j, j + 2, next);
      SameLastBreak(s, j, next);
    } else if s[j] != '\"' {
      PieceBreaks(s, j);
    }
  }

  lemma SameLastBreak(s: string, j: nat, next: nat)
    requires j + 2 <= next <= |s| && s[j] != '\n' && s[j + 1] != '\n'
    ensures LastBreak(s, j, next) == LastBreak(s, j + 2, next)
  {
  }

  /** What one piece adds to the breaks in strings and does to the margin. */
  lemma PieceCounted(s: string, i: nat, o: nat, before: int)
    requires i <= |s| && BlankEnd(s, i) < |s| && BlankEnd(s, i) < o
    ensures var j := BlankEnd(s, i);
      var next := Scan(s, j).next;
      && InStrings(s, i, o) == (if s[j] == '\"' then Breaks(s, j, next) else 0) + InStrings(s, next, o)
      && Margin(s, i, o, before) == Margin(s, next, o,
           if s[j] == '\n' then j
           else if BlockComment(s, j) && LastBreak(s, j, next) >= 0 then LastBreak(s, j, next) - 1
           else before)
  {
    hide Scan, BlankEnd, Breaks, LastBreak, BlockComment;
  }

  lemma NothingCounted(s: string, i: nat, before: int)
    requires i <= |s|
    ensures var j := BlankEnd(s, i); InStrings(s, i, j) == 0 && Margin(s, i, j, before) == before
  {
    hide Scan, BlankEnd, Breaks, LastBreak, BlockComment;
  }

  /** The token is the piece's own or one of those behind it. */
  lemma TokenWhere(s: string, i: nat, p: Place, k: nat)
    requires i <= |s| && k < |Tokens(s, i, p)|
    ensures var j := BlankEnd(s, i);
      var q := Place(p.line, p.column + (j - i));
      if j == |s| then k == 0 && Tokens(s, i, p)[k] == Token(EndOfFile, "", q.line, q.column) && Offset(s, i, k) == j
      else TokenBehind(s, i, p, k, j, q)
  {
    hide Scan, PlaceAfter, BlankEnd;
    TokensStep(s, i, p);
    hide Tokens;
    var j := BlankEnd(s, i);
    if j < |s| {
      ScanShort(s, j);
    }
  }

  ghost predicate TokenBehind(s: string, i: nat, p: Place, k: nat, j: nat, q: Place)
    requires i <= |s| && j < |s| && k < |Tokens(s, i, p)|
  {
    var found, next, r := Scan(s, j).lexemes, Scan(s, j).next, PlaceAfter(s, j, q);
    && |found| <= 1
    && (if found != [] && k == 0
        then Tokens(s, i, p)[k] == Token(found[0].kind, found[0].value, q.line, q.column) && Offset(s, i, k) == j
        else var l := k - |found|;
          && 0 <= l < |Tokens(s, next, r)| && Tokens(s, i, p)[k] == Tokens(s, next, r)[l]
          && Offset(s, i, k) == Offset(s, next, l))
  }

  /** The place at `i` is that of the source, with the breaks of strings counted out. */
  lemma {:induction false} PlacesFrom(s: string, i: nat, p: Place, k: nat)
    requires i <= |s| && k < |Tokens(s, i, p)|
    ensures var t, o := Tokens(s, i, p)[k], Offset(s, i, k);
      && BlankEnd(s, i) <= o <= |s|
      && t.line + InStrings(s, i, o) == p.line + Breaks(s, i, o)
      && t.column == o - Margin(s, i, o, i - p.column)
      && (if o == |s| then Bare(t) == EOF else Scan(s, o).lexemes == [Bare(t)])
    decreases |s| - i
  {
    hide Scan, PlaceAfter, BlankEnd, Breaks, LastBreak, BlockComment, Tokens, Offset, InStrings, Margin;
    TokenWhere(s, i, p, k);
    NothingCounted(s, i, i - p.column);
    var j := BlankEnd(s, i);
    var q := Place(p.line, p.column + (j - i));
    NoBreaks(s, i, j);
    if j < |s| {
      var next := Scan(s, j).next;
      if Scan(s, j).lexemes == [] || k > 0 {
        PlacesFrom(s, next, PlaceAfter(s, j, q), k - |Scan(s, j).lexemes|);
        PieceLaw(s, j, q);
        if s[j] == '\n' {
          OneBreak(s, j);
        }
        var o := Offset(s, i, k);
        PieceCounted(s, i, o, i - p.column);
        BreaksAdd(s, i, j, next);
        BreaksAdd(s, i, next, o);
      }
    }
  }

  lemma ScanShort(s: string, j: nat)
    requires j < |s|
    ensures |Scan(s, j).lexemes| <= 1
    ensures forall q :: |Located(Scan(s, j).lexemes, q)| == |Scan(s, j).lexemes|
  {
    ScanValid(s, j);
    hide Scan;
  }

  /** Every token's line is one more than the line breaks before it, strings left out; its column counts the
      characters from the last line break that is not in a string, one too many if that is in a block comment. */
  lemma TokenPlaces(s: string, k: nat)
    requires k < |Tokens(s, 0, Place(1, 1))|
    ensures var t, o := Tokens(s, 0, Place(1, 1))[k], Offset(s, 0, k);
      && o <= |s| && (if o == |s| then Bare(t) == EOF else Scan(s, o).lexemes == [Bare(t)])
      && t.line + InStrings(s, 0, o) == 1 + Breaks(s, 0, o)
      && t.column == o - Margin(s, 0, o, -1)
  {
    hide Tokens, Scan, InStrings, Margin, Breaks, Offset;
    PlacesFrom(s, 0, Place(1, 1), k);
  }
}
