/** Character classes of the "C" locale, and the scanning loops both lexers share. */
module Chars {

  predicate IsSpace(c: char) {
    c == ' ' || '\t' <= c <= '\r'
  }

  predicate IsDigit(c: char) {
    '0' <= c <= '9'
  }

  predicate IsAlpha(c: char) {
    'a' <= c <= 'z' || 'A' <= c <= 'Z'
  }

  predicate IsAlnum(c: char) {
    IsAlpha(c) || IsDigit(c)
  }

  /** The character at `i`, or NUL past the end. */
  function Peek(s: string, i: nat): char {
    if i < |s| then s[i] else '\0'
  }

  /** After a run of white space other than line breaks. */
  function BlankEnd(s: string, i: nat): (j: nat)
    requires i <= |s|
    ensures i <= j <= |s| && (forall k | i <= k < j :: IsSpace(s[k]) && s[k] != '\n')
    ensures j < |s| ==> !IsSpace(s[j]) || s[j] == '\n'
    decreases |s| - i
  {
    if i < |s| && IsSpace(s[i]) && s[i] != '\n' then BlankEnd(s, i + 1) else i
  }

  function LineEnd(s: string, i: nat): (j: nat)
    requires i <= |s|
    ensures i <= j <= |s| && (forall k | i <= k < j :: s[k] != '\n') && (j < |s| ==> s[j] == '\n')
    decreases |s| - i
  {
    if i < |s| && s[i] != '\n' then LineEnd(s, i + 1) else i
  }

  /** After the closing delimiter; an unclosed comment stops one character early. */
  function CommentEnd(s: string, i: nat): (j: nat)
    requires i <= |s|
    ensures i <= j <= |s|
    decreases |s| - i
  {
    if i + 1 >= |s| then i
    else if s[i] == '*' && s[i + 1] == '/' then i + 2
    else CommentEnd(s, i + 1)
  }

  /** After the closing quote, or the end of the source; a backslash takes the next character along. */
  function QuoteEnd(s: string, i: nat, quote: char): (j: nat)
    requires i <= |s|
    ensures i <= j <= |s|
    decreases |s| - i
  {
    if i == |s| then i
    else if s[i] == quote then i + 1
    else if s[i] == '\\' && i + 1 < |s| then QuoteEnd(s, i + 2, quote)
    else QuoteEnd(s, i + 1, quote)
  }

  /** Line breaks in s[i..j]. */
  function Breaks(s: string, i: nat, j: nat): nat
    requires i <= j <= |s|
    decreases j - i
  {
    if i == j then 0 else (if s[i] == '\n' then 1 else 0) + Breaks(s, i + 1, j)
  }

  lemma {:induction false} BreaksAdd(s: string, i: nat, j: nat, k: nat)
    requires i <= j <= k <= |s|
    ensures Breaks(s, i, k) == Breaks(s, i, j) + Breaks(s, j, k)
    decreases j - i
  {
    if i < j {
      BreaksAdd(s, i + 1, j, k);
    }
  }

  lemma {:induction false} NoBreaks(s: string, i: nat, j: nat)
    requires i <= j <= |s| && forall k | i <= k < j :: s[k] != '\n'
    ensures Breaks(s, i, j) == 0
    decreases j - i
  {
    if i < j {
      NoBreaks(s, i + 1, j);
    }
  }
}
