/** Which characters make which tokens of the real lexer, in plain characters. */
module Vocabulary {
  import opened Chars
  import opened Lexer

  /** What is left of a text in which one turn of the tokenizer took everything. */
  lemma OnePiece(s: string, lexemes: seq<Lexeme>)
    requires s != "" && BlankEnd(s, 0) == 0 && Scan(s, 0) == Piece(lexemes, |s|)
    ensures Lexemes(s, 0) == lexemes + [EOF]
  {
    hide Scan;
    assert BlankEnd(s, |s|) == |s|;
    assert Lexemes(s, |s|) == [EOF];
  }

  /** Every number is one token. */
  lemma NumberSource(v: string)
    requires v != "" && '0' <= v[0] <= '9' && forall k | 0 <= k < |v| :: '0' <= v[k] <= '9' || v[k] == '.'
    ensures Lexemes(v, 0) == [Lexeme(Number, v), EOF]
  {
    hide Lexemes;
    NumberEndIs(v, 0, |v|);
    hide NumberEnd;
    assert v[0..|v|] == v;
    OnePiece(v, [Lexeme(Number, v)]);
  }

  lemma WordPiece(v: string)
    requires v != "" && forall k | 0 <= k < |v| :: Letter(v[k]) || (k > 0 && '0' <= v[k] <= '9')
    ensures BlankEnd(v, 0) == 0 && Scan(v, 0) == Piece([WordLexeme(v)], |v|)
  {
    hide WordLexeme;
    WordEndIs(v, 0, |v|);
    hide WordEnd;
    assert v[0..|v|] == v;
  }

  /** Every word is one token: a keyword, an attribute or a name. */
  lemma WordSource(v: string)
    requires v != "" && forall k | 0 <= k < |v| :: Letter(v[k]) || (k > 0 && '0' <= v[k] <= '9')
    ensures Lexemes(v, 0) ==
      [Lexeme(if v == "manifest" then Manifest else if v == "create" then Create else if v[0] == '@' then At
              else Identifier, v), EOF]
  {
    hide Lexemes, Scan;
    WordPiece(v);
    OnePiece(v, [WordLexeme(v)]);
  }

  /** Text without quotes and backslashes, between quotes, is a string with that value. */
  lemma StringSource(v: string)
    requires '\"' !in v && '\\' !in v
    ensures Lexemes("\"" + v + "\"", 0) == [Lexeme(String, v), EOF]
  {
    var s := "\"" + v + "\"";
    PlainString(s, 1, v);
    OnePiece(s, [Lexeme(String, v)]);
  }

  /** Left open, it runs to the end; a last backslash is then part of it. */
  lemma OpenStringSource(v: string)
    requires '\"' !in v && '\\' !in v
    ensures Lexemes("\"" + v, 0) == [Lexeme(String, v), EOF]
    ensures Lexemes("\"" + v + "\\", 0) == [Lexeme(String, v + "\\"), EOF]
  {
    hide StringValue, QuoteEnd;
    var s, t := "\"" + v, "\"" + v + "\\";
    OpenString(s, 1, v);
    OpenString(t, 1, v);
    OnePiece(s, [Lexeme(String, v)]);
    OnePiece(t, [Lexeme(String, v + "\\")]);
  }

  lemma {:induction false} OpenString(s: string, i: nat, v: string)
    requires i <= |s| && (s[i..] == v || s[i..] == v + "\\") && '\"' !in v && '\\' !in v
    ensures StringValue(s, i) == s[i..] && QuoteEnd(s, i, '\"') == |s|
    decreases |v|
  {
    if v != "" {
      assert s[i] == s[i..][0] == v[0] && s[i + 1..] == s[i..][1..];
      assert (v + "\\")[1..] == v[1..] + "\\";
      OpenString(s, i + 1, v[1..]);
      assert s[i..] == [s[i]] + s[i + 1..];
    } else if i < |s| {
      assert s[i..] == "\\" && s[i] == s[i..][0];
      assert StringValue(s, i + 1) == "";
    }
  }

  lemma {:induction false} PlainString(s: string, i: nat, v: string)
    requires i + |v| < |s| && s[i..i + |v|] == v && s[i + |v|] == '\"' && '\"' !in v && '\\' !in v
    ensures StringValue(s, i) == v && QuoteEnd(s, i, '\"') == i + |v| + 1
    decreases |v|
  {
    if v != "" {
      assert s[i] == v[0] && s[i + 1..i + |v|] == v[1..];
      PlainString(s, i + 1, v[1..]);
    }
  }

  /** What a backslash and a character stand for. */
  lemma EscapeSource(c: char)
    ensures Lexemes("\"\\" + [c] + "\"", 0) ==
      [Lexeme(String, if c == 'n' then "\n" else if c == 't' then "\t" else if c == 'r' then "\r" else [c]), EOF]
  {
    var s := "\"\\" + [c] + "\"";
    assert s[1] == '\\' && s[2] == c && s[3] == '\"' && |s| == 4;
    assert StringValue(s, 3) == "" && QuoteEnd(s, 3, '\"') == 4;
    assert StringValue(s, 1) == [Unescape(c)] && QuoteEnd(s, 1, '\"') == 4;
    OnePiece(s, [Lexeme(String, [Unescape(c)])]);
  }

  /** Comments leave nothing behind. */
  lemma CommentSource(text: string)
    ensures '\n' !in text ==> Lexemes("//" + text, 0) == [EOF]
    ensures Unclosed(text + "*") ==> Lexemes("/*" + text + "*/", 0) == [EOF]
  {
    if '\n' !in text {
      var s := "//" + text;
      LineEndIs(s, 2, |s|);
      hide LineEnd;
      OnePiece(s, []);
    }
    if Unclosed(text + "*") {
      var s := "/*" + text + "*/";
      forall k | 2 <= k < |text| + 2 ensures !(s[k] == '*' && s[k + 1] == '/') {
        assert s[k] == (text + "*")[k - 2] && s[k + 1] == (text + "*")[k - 1];
      }
      CommentEndIs(s, 2, |text| + 2);
      hide CommentEnd;
      OnePiece(s, []);
    }
  }

  /** What one character by itself is. */
  ghost function Single(c: char): seq<Lexeme> {
    if c == '{' then [Lexeme(LBrace, "{")]
    else if c == '}' then [Lexeme(RBrace, "}")]
    else if c == '[' then [Lexeme(LBracket, "[")]
    else if c == ']' then [Lexeme(RBracket, "]")]
    else if c == ':' then [Lexeme(Colon, ":")]
    else if c == ',' then [Lexeme(Comma, ",")]
    else if c == ';' then [Lexeme(Semicolon, ";")]
    else if c == '\n' then [Lexeme(Newline, "\n")]
    else if c == '\"' then [Lexeme(String, "")]
    else if '0' <= c <= '9' then [Lexeme(Number, [c])]
    else if c == '@' then [Lexeme(At, "@")]
    else if 'a' <= c <= 'z' || 'A' <= c <= 'Z' || c == '_' then [Lexeme(Identifier, [c])]
    else []
  }

  /** Every other character, white space among them, leaves nothing. */
  lemma OneCharacter(c: char)
    ensures Lexemes([c], 0) == Single(c) + [EOF]
    ensures Lexemes("->", 0) == [Lexeme(Arrow, "->"), EOF]
  {
    hide Lexemes;
    Arrows();
    var s := [c];
    if c in {' ', '\t', '\U{0B}', '\U{0C}', '\r'} {
      BlankSource(c);
    } else if Letter(c) {
      WordSource(s);
    } else if '0' <= c <= '9' {
      NumberSource(s);
    } else {
      assert Scan(s, 0) == Piece(Single(c), 1);
      OnePiece(s, Single(c));
    }
  }

  lemma Arrows()
    ensures Lexemes("->", 0) == [Lexeme(Arrow, "->"), EOF]
  {
    hide Lexemes;
    OnePiece("->", [Lexeme(Arrow, "->")]);
  }

  lemma BlankSource(c: char)
    requires c in {' ', '\t', '\U{0B}', '\U{0C}', '\r'}
    ensures Lexemes([c], 0) == [EOF]
  {
    var s := [c];
    assert BlankEnd(s, 0) == BlankEnd(s, 1) == 1;
  }
}
