/** HTML escaping, as written twice in the repository: three regular-expression
    passes (`html_escape`) and a table of in-place replacement passes
    (`escape_html`).  Both are compared with one character-wise substitution
    and with an entity decoder.
 */
module Escaping {

  /** One pass: every occurrence of `c` becomes `rep`. */
  function Substitute(s: string, c: char, rep: string): string {
    if s == "" then "" else (if s[0] == c then rep else [s[0]]) + Substitute(s[1..], c, rep)
  }

  /** Left-to-right decoding of the four named entities, each decoded once. */
  function Decode(s: string): string {
    if s == "" then ""
    else if "&amp;" <= s then "&" + Decode(s[5..])
    else if "&lt;" <= s then "<" + Decode(s[4..])
    else if "&gt;" <= s then ">" + Decode(s[4..])
    else if "&quot;" <= s then "\"" + Decode(s[6..])
    else [s[0]] + Decode(s[1..])
  }

  // ---------- html_escape: three passes ----------

  function Entity(c: char): string {
    match c
    case '&' => "&amp;"
    case '<' => "&lt;"
    case '>' => "&gt;"
    case _ => [c]
  }

  function Entities(s: string): string {
    if s == "" then "" else Entity(s[0]) + Entities(s[1..])
  }

  method HtmlEscape(input: string) returns (result: string)
    ensures result == Entities(input)
  {
    result := input;
    result := Substitute(result, '&', "&amp;");
    result := Substitute(result, '<', "&lt;");
    result := Substitute(result, '>', "&gt;");
    ThreePasses(input);
  }

  lemma {:induction false} SubstituteConcat(a: string, b: string, c: char, rep: string)
    ensures Substitute(a + b, c, rep) == Substitute(a, c, rep) + Substitute(b, c, rep)
  {
    if a == "" {
      assert a + b == b;
    } else {
      SubstituteConcat(a[1..], b, c, rep);
      assert (a + b)[1..] == a[1..] + b && (a + b)[0] == a[0];
      var first := if a[0] == c then rep else [a[0]];
      assert first + (Substitute(a[1..], c, rep) + Substitute(b, c, rep)) ==
          first + Substitute(a[1..], c, rep) + Substitute(b, c, rep);
    }
  }

  /** A text that does not contain `c` is left alone. */
  lemma {:induction false} SubstituteAbsent(s: string, c: char, rep: string)
    requires c !in s
    ensures Substitute(s, c, rep) == s
  {
    if s != "" {
      SubstituteAbsent(s[1..], c, rep);
    }
  }

  /** The passes, in the order & < >, never touch each other's output. */
  lemma {:induction false} ThreePasses(s: string)
    ensures Substitute(Substitute(Substitute(s, '&', "&amp;"), '<', "&lt;"), '>', "&gt;") == Entities(s)
  {
    if s != "" {
      var amp := if s[0] == '&' then "&amp;" else [s[0]];
      var t := Substitute(s[1..], '&', "&amp;");
      SubstituteConcat(amp, t, '<', "&lt;");
      var lt := if s[0] == '<' then "&lt;" else amp;
      assert Substitute(amp, '<', "&lt;") == lt by {
        if s[0] == '<' { assert amp[1..] == ""; } else { SubstituteAbsent(amp, '<', "&lt;"); }
      }
      SubstituteConcat(lt, Substitute(t, '<', "&lt;"), '>', "&gt;");
      assert Substitute(lt, '>', "&gt;") == Entity(s[0]) by {
        if s[0] == '>' { assert lt[1..] == ""; } else { SubstituteAbsent(lt, '>', "&gt;"); }
      }
      ThreePasses(s[1..]);
    }
  }

  lemma DecodeEntity(c: char, rest: string)
    ensures Decode(Entity(c) + rest) == [c] + Decode(rest)
  {
    var s := Entity(c) + rest;
    assert s[|Entity(c)|..] == rest;
    if c !in {'&', '<', '>'} {
      assert s[0] == c;
    } else {
      assert s[..|Entity(c)|] == Entity(c);
      assert "&lt;" <= s ==> s[1] == 'l';
      assert "&amp;" <= s ==> s[1] == 'a';
      assert "&gt;" <= s ==> s[1] == 'g';
    }
  }

  /** `html_escape` loses nothing: decoding gives the input back, for every input. */
  lemma {:induction false} HtmlEscapeDecodes(s: string)
    ensures Decode(Entities(s)) == s
  {
    if s != "" {
      DecodeEntity(s[0], Entities(s[1..]));
      HtmlEscapeDecodes(s[1..]);
    }
  }

  // ---------- escape_html: in-place passes in key order ----------

  /** The replacement table; a `std::map` is walked in ascending key order. */
  const REPLACEMENTS: seq<(char, string)> :=
    [('\"', "&quot;"), ('&', "&amp;"), ('<', "&lt;"), ('>', "&gt;")]

  function Passes(s: string, table: seq<(char, string)>): string
    decreases |table|
  {
    if table == [] then s else Passes(Substitute(s, table[0].0, table[0].1), table[1..])
  }

  /** First index from `pos` on that holds `c`, or the length. */
  function FindFrom(s: string, c: char, pos: nat): (k: nat)
    requires pos <= |s|
    ensures pos <= k <= |s| && c !in s[pos..k] && (k < |s| ==> s[k] == c)
    decreases |s| - pos
  {
    if pos == |s| || s[pos] == c then pos
    else
      var k := FindFrom(s, c, pos + 1);
      assert s[pos..k] == [s[pos]] + s[pos + 1..k];
      k
  }

  lemma SkipTo(s: string, c: char, rep: string, pos: nat, k: nat)
    requires pos <= k <= |s| && c !in s[pos..k]
    ensures Substitute(s[pos..], c, rep) == s[pos..k] + Substitute(s[k..], c, rep)
  {
    assert s[pos..] == s[pos..k] + s[k..];
    SubstituteConcat(s[pos..k], s[k..], c, rep);
    SubstituteAbsent(s[pos..k], c, rep);
  }

  /** What is left to do, written as the part already done and the part still to come. */
  ghost predicate Remaining(input: string, c: char, rep: string, output: string, pos: nat) {
    pos <= |output| && Substitute(input, c, rep) == output[..pos] + Substitute(output[pos..], c, rep)
  }

  lemma ReplaceStep(input: string, c: char, rep: string, output: string, pos: nat)
    requires Remaining(input, c, rep, output, pos) && pos < |output| && output[pos] == c
    ensures Remaining(input, c, rep, output[..pos] + rep + output[pos + 1..], pos + |rep|)
  {
    var next := output[..pos] + rep + output[pos + 1..];
    assert output[pos..][1..] == output[pos + 1..] == next[pos + |rep|..];
    assert next[..pos + |rep|] == output[..pos] + rep;
  }

  lemma SkipStep(input: string, c: char, rep: string, output: string, pos: nat, next: nat)
    requires Remaining(input, c, rep, output, pos) && pos <= next <= |output| && c !in output[pos..next]
    ensures Remaining(input, c, rep, output, next)
  {
    SkipTo(output, c, rep, pos, next);
    assert output[..next] == output[..pos] + output[pos..next];
  }

  method ReplaceInPlace(input: string, c: char, rep: string) returns (output: string)
    ensures output == Substitute(input, c, rep)
  {
    output := input;
    assert input[0..] == input && input[..0] == "";
    var pos := FindFrom(output, c, 0);
    SkipStep(input, c, rep, output, 0, pos);
    while pos < |output|
      invariant 0 <= pos <= |output| && (pos < |output| ==> output[pos] == c)
      invariant Remaining(input, c, rep, output, pos)
      decreases |output| - pos
    {
      ReplaceStep(input, c, rep, output, pos);
      output := output[..pos] + rep + output[pos + 1..];
      pos := pos + |rep|;
      var next := FindFrom(output, c, pos);
      SkipStep(input, c, rep, output, pos, next);
      pos := next;
    }
    assert output[..pos] == output && output[pos..] == "";
  }

  /** What one character becomes after all four passes: the entity written for a
      double quote has its ampersand escaped again by the second pass. */
  function TwiceEscaped(c: char): string {
    if c == '\"' then "&amp;quot;" else Entity(c)
  }

  function Escaped(s: string): string {
    if s == "" then "" else TwiceEscaped(s[0]) + Escaped(s[1..])
  }

  method EscapeHtml(input: string) returns (output: string)
    ensures output == Escaped(input)
  {
    output := input;
    var i := 0;
    while i < |REPLACEMENTS|
      invariant 0 <= i <= |REPLACEMENTS|
      invariant Passes(output, REPLACEMENTS[i..]) == Passes(input, REPLACEMENTS)
    {
      output := ReplaceInPlace(output, REPLACEMENTS[i].0, REPLACEMENTS[i].1);
      i := i + 1;
    }
    FourPasses(input);
  }

  lemma {:induction false} EscapedAfterQuotes(s: string)
    ensures Entities(Substitute(s, '\"', "&quot;")) == Escaped(s)
  {
    if s != "" {
      var t := Substitute(s[1..], '\"', "&quot;");
      EscapedAfterQuotes(s[1..]);
      if s[0] == '\"' {
        EntitiesOfQuote(t);
      } else {
        assert ([s[0]] + t)[1..] == t;
      }
    }
  }

  lemma EntitiesAmp(rest: string)
    ensures Entities("&" + rest) == "&amp;" + Entities(rest)
  {
    assert ("&" + rest)[1..] == rest;
  }

  lemma EntitiesOfQuote(t: string)
    ensures Entities("&quot;" + t) == "&amp;quot;" + Entities(t)
  {
    hide Entities;
    EntitiesPlain("quot;", t);
    EntitiesAmp("quot;" + t);
    assert "&quot;" + t == "&" + ("quot;" + t);
    assert "&amp;" + ("quot;" + Entities(t)) == "&amp;quot;" + Entities(t);
  }

  lemma {:induction false} EntitiesPlain(p: string, t: string)
    requires '&' !in p && '<' !in p && '>' !in p
    ensures Entities(p + t) == p + Entities(t)
  {
    if p == "" {
      assert p + t == t;
    } else {
      assert (p + t)[1..] == p[1..] + t;
      EntitiesPlain(p[1..], t);
    }
  }

  lemma FourPasses(s: string)
    ensures Passes(s, REPLACEMENTS) == Escaped(s)
  {
    var q := Substitute(s, '\"', "&quot;");
    var a := Substitute(q, '&', "&amp;");
    var l := Substitute(a, '<', "&lt;");
    var g := Substitute(l, '>', "&gt;");
    var r := REPLACEMENTS;
    assert r[1..][0] == r[1] && r[2..][0] == r[2] && r[3..][0] == r[3];
    assert r[1..][1..] == r[2..] && r[2..][1..] == r[3..] && r[3..][1..] == [];
    assert Passes(l, r[3..]) == Passes(g, []) == g;
    assert Passes(a, r[2..]) == g;
    assert Passes(q, r[1..]) == g;
    ThreePasses(q);
    EscapedAfterQuotes(s);
  }

  /** No character that could open or close a tag, or an attribute value, is left. */
  lemma {:induction false} EscapedIsInert(s: string)
    ensures '<' !in Escaped(s) && '>' !in Escaped(s) && '\"' !in Escaped(s)
  {
    if s != "" {
      EscapedIsInert(s[1..]);
    }
  }

  /** Decoding undoes everything but the double quotes, which come back as the
      six characters of their entity. */
  lemma {:induction false} EscapeDecodesToQuoted(s: string)
    ensures Decode(Escaped(s)) == Substitute(s, '\"', "&quot;")
  {
    if s != "" {
      EscapeDecodesToQuoted(s[1..]);
      if s[0] == '\"' {
        DecodeQuote(Escaped(s[1..]));
      } else {
        DecodeEntity(s[0], Escaped(s[1..]));
      }
    }
  }

  lemma DecodeAmp(rest: string)
    ensures Decode("&amp;" + rest) == "&" + Decode(rest)
  {
    hide Decode;
    DecodeEntity('&', rest);
  }

  lemma DecodeQuote(t: string)
    ensures Decode("&amp;quot;" + t) == "&quot;" + Decode(t)
  {
    hide Decode;
    DecodeAmp("quot;" + t);
    DecodePlain("quot;", t);
    assert "&amp;quot;" + t == "&amp;" + ("quot;" + t);
    assert "&" + ("quot;" + Decode(t)) == "&quot;" + Decode(t);
  }

  lemma DecodeOther(s: string)
    requires s != "" && s[0] != '&'
    ensures Decode(s) == [s[0]] + Decode(s[1..])
  {
  }

  lemma {:induction false} DecodePlain(p: string, t: string)
    requires '&' !in p
    ensures Decode(p + t) == p + Decode(t)
  {
    hide Decode;
    if p == "" {
      assert p + t == t;
    } else {
      var s := p + t;
      assert s[1..] == p[1..] + t && s[0] == p[0] != '&';
      DecodePlain(p[1..], t);
      DecodeOther(s);
      assert [p[0]] + (p[1..] + Decode(t)) == p + Decode(t);
    }
  }

  lemma {:induction false} SubstituteLength(s: string)
    ensures |Substitute(s, '\"', "&quot;")| >= |s|
    ensures '\"' in s ==> |Substitute(s, '\"', "&quot;")| > |s|
  {
    if s != "" {
      SubstituteLength(s[1..]);
    }
  }

  /** `escape_html` is undone by decoding exactly on the texts without a double quote. */
  lemma EscapeDecodesIffQuoteFree(s: string)
    ensures Decode(Escaped(s)) == s <==> '\"' !in s
  {
    EscapeDecodesToQuoted(s);
    SubstituteLength(s);
    if '\"' !in s {
      SubstituteAbsent(s, '\"', "&quot;");
    }
  }

  // ---------- both escapers, spelled out ----------

  lemma {:induction false} EscapedConcat(a: string, b: string)
    ensures Escaped(a + b) == Escaped(a) + Escaped(b)
  {
    if a == "" {
      assert a + b == b;
    } else {
      assert (a + b)[1..] == a[1..] + b && (a + b)[0] == a[0];
      EscapedConcat(a[1..], b);
      assert TwiceEscaped(a[0]) + (Escaped(a[1..]) + Escaped(b)) == TwiceEscaped(a[0]) + Escaped(a[1..]) + Escaped(b);
    }
  }

  lemma {:induction false} EntitiesConcat(a: string, b: string)
    ensures Entities(a + b) == Entities(a) + Entities(b)
  {
    if a == "" {
      assert a + b == b;
    } else {
      assert (a + b)[1..] == a[1..] + b && (a + b)[0] == a[0];
      EntitiesConcat(a[1..], b);
      assert Entity(a[0]) + (Entities(a[1..]) + Entities(b)) == Entity(a[0]) + Entities(a[1..]) + Entities(b);
    }
  }

  /** What each single character becomes; `EntitiesConcat` and `EscapedConcat` give every text from that. */
  lemma EachCharacter(c: char)
    ensures Entities("") == Escaped("") == ""
    ensures Entities([c]) ==
      if c == '&' then "&amp;" else if c == '<' then "&lt;" else if c == '>' then "&gt;" else [c]
    ensures Escaped([c]) == if c == '\"' then "&amp;quot;" else Entities([c])
  {
    assert [c][1..] == "" && Entity(c) + "" == Entity(c) && TwiceEscaped(c) + "" == TwiceEscaped(c);
  }
}
