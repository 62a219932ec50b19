/** How the transpiler takes the text of an array apart again, and when that gives back
    the items the parser put into it. */
module ListItems {
  import opened Escaping
  import opened Surface

  // ---------- trimming ----------

  predicate IsMark(c: char) {
    c == ' ' || c == '\t' || c == '\"'
  }

  /** Blanks, tabs and double quotes only. */
  ghost predicate Marks(s: string) {
    forall k | 0 <= k < |s| :: s[k] in {' ', '\t', '\"'}
  }

  /** No blank, tab or double quote at either end. */
  ghost predicate Bare(s: string) {
    s != "" ==> s[0] !in {' ', '\t', '\"'} && s[|s| - 1] !in {' ', '\t', '\"'}
  }

  function FrontCut(s: string): (k: nat)
    ensures k <= |s| && Marks(s[..k]) && (k < |s| ==> !IsMark(s[k]))
  {
    if s == "" || !IsMark(s[0]) then 0 else FrontCut(s[1..]) + 1
  }

  function BackCut(s: string): (k: nat)
    ensures k <= |s| && Marks(s[k..]) && (k > 0 ==> !IsMark(s[k - 1]))
  {
    if s == "" || !IsMark(s[|s| - 1]) then |s| else BackCut(s[..|s| - 1])
  }

  /** The two `erase` calls. */
  function Trim(s: string): string {
    var t := s[FrontCut(s)..];
    t[..BackCut(t)]
  }

  /** What is left has no mark at its ends, and only marks went. */
  lemma TrimCuts(s: string)
    ensures Bare(Trim(s)) && exists a, b :: Marks(a) && Marks(b) && s == a + Trim(s) + b
  {
    hide FrontCut, BackCut;
    var k := FrontCut(s);
    var t := s[k..];
    var j := BackCut(t);
    if j > 0 {
      assert t[0] == s[k];
    }
    var a, b := s[..k], t[j..];
    assert t == Trim(s) + b;
    assert s == a + Trim(s) + b;
    assert Marks(a) && Marks(b);
  }

  lemma {:induction false} FrontIs(a: string, rest: string)
    requires Marks(a) && (rest != "" ==> !IsMark(rest[0]))
    ensures FrontCut(a + rest) == |a|
  {
    if a == "" {
      assert a + rest == rest;
    } else {
      FrontIs(a[1..], rest);
      assert (a + rest)[1..] == a[1..] + rest;
    }
  }

  lemma {:induction false} BackIs(t: string, b: string)
    requires Marks(b) && (t != "" ==> !IsMark(t[|t| - 1]))
    ensures BackCut(t + b) == |t|
  {
    if b == "" {
      assert t + b == t;
    } else {
      BackIs(t, b[..|b| - 1]);
      assert (t + b)[..|t + b| - 1] == t + b[..|b| - 1];
    }
  }

  /** And that determines it. */
  lemma TrimIs(a: string, t: string, b: string)
    requires Marks(a) && Marks(b) && Bare(t)
    ensures Trim(a + t + b) == t
  {
    hide FrontCut, BackCut;
    var s := a + t + b;
    if t == "" {
      MarksConcat(a, b);
      assert s == (a + b) + "";
      FrontIs(a + b, "");
      BackIs("", "");
    } else {
      FrontIs(a, t + b);
      assert s == a + (t + b);
      assert s[|a|..] == t + b;
      BackIs(t, b);
    }
  }

  lemma MarksConcat(a: string, b: string)
    requires Marks(a) && Marks(b)
    ensures Marks(a + b)
  {
  }

  // ---------- splitting ----------

  /** The items `getline` finds: nothing after a last comma. */
  function Split(s: string): seq<string> {
    if s == "" then []
    else
      var k := FindFrom(s, ',', 0);
      if k == |s| then [s] else [s[..k]] + Split(s[k + 1..])
  }

  function Trimmed(items: seq<string>): (r: seq<string>)
    ensures |r| == |items| && forall k | 0 <= k < |r| :: r[k] == Trim(items[k])
  {
    seq(|items|, k requires 0 <= k < |items| => Trim(items[k]))
  }

  /** The text of an `items` attribute, taken apart. */
  function Recovered(text: string): seq<string> {
    if text != "" && text[0] == '[' && text[|text| - 1] == ']' then Trimmed(Split(text[1..|text| - 1]))
    else []
  }

  method RecoverItems(text: string) returns (found: seq<string>)
    ensures found == Recovered(text)
  {
    hide Split, Trim;
    found := [];
    if text != "" && text[0] == '[' && text[|text| - 1] == ']' {
      var items := text[1..|text| - 1];
      var pos := 0;
      assert items[0..] == items;
      while pos < |items|
        invariant pos <= |items| && Pending(items, pos, found)
        decreases |items| - pos
      {
        PendingStep(items, pos, found);
        var k := FindFrom(items, ',', pos);
        var item := items[pos..k];
        pos := if k < |items| then k + 1 else k;
        found := found + [Trim(item)];
      }
      assert items[pos..] == "";
      NothingSplits();
    }
  }

  /** `found` and what the rest of the text gives make up all its items. */
  ghost predicate Pending(items: string, pos: nat, found: seq<string>) {
    pos <= |items| && found + Trimmed(Split(items[pos..])) == Trimmed(Split(items))
  }

  lemma PendingStep(items: string, pos: nat, found: seq<string>)
    requires Pending(items, pos, found) && pos < |items|
    ensures var k := FindFrom(items, ',', pos);
      pos <= k <= |items| && Pending(items, if k < |items| then k + 1 else k, found + [Trim(items[pos..k])])
  {
    hide Trim, Split;
    SplitStep(items, pos);
    var k := FindFrom(items, ',', pos);
    var rest := Split(items[if k < |items| then k + 1 else k..]);
    assert Trimmed([items[pos..k]] + rest) == [Trim(items[pos..k])] + Trimmed(rest);
    assert found + ([Trim(items[pos..k])] + Trimmed(rest)) == found + [Trim(items[pos..k])] + Trimmed(rest);
  }

  lemma FindIs(s: string, pos: nat, k: nat)
    requires pos <= k <= |s| && ',' !in s[pos..k] && (k < |s| ==> s[k] == ',')
    ensures FindFrom(s, ',', pos) == k
  {
    NotWithin(s, pos, k);
    NotWithin(s, pos, FindFrom(s, ',', pos));
  }

  lemma NotWithin(s: string, i: nat, j: nat)
    requires i <= j <= |s| && ',' !in s[i..j]
    ensures forall k | i <= k < j :: s[k] != ','
  {
    forall k | i <= k < j ensures s[k] != ',' {
      assert s[i..j][k - i] == s[k];
    }
  }

  lemma SplitStep(s: string, pos: nat)
    requires pos < |s|
    ensures var k := FindFrom(s, ',', pos);
      pos <= k <= |s| && Split(s[pos..]) == [s[pos..k]] + Split(s[if k < |s| then k + 1 else k..])
  {
    hide Split;
    var k := FindFrom(s, ',', pos);
    Slices(s, pos, k);
    SplitAt(s[pos..], k - pos);
    if k == |s| {
      NothingSplits();
    }
  }

  lemma Slices(s: string, pos: nat, k: nat)
    requires pos <= k <= |s|
    ensures s[pos..][..k - pos] == s[pos..][0..k - pos] == s[pos..k]
    ensures
      if k < |s| then s[pos..][k - pos] == s[k] && s[pos..][k - pos + 1..] == s[k + 1..]
      else s[k..] == "" && s[pos..] == s[pos..k]
  {
  }

  lemma SplitAt(t: string, k: nat)
    requires t != "" && k <= |t| && ',' !in t[0..k] && (k < |t| ==> t[k] == ',')
    ensures Split(t) == if k == |t| then [t] else [t[..k]] + Split(t[k + 1..])
  {
    FindIs(t, 0, k);
  }

  lemma {:induction false} SplitHasNoComma(s: string)
    ensures forall k | 0 <= k < |Split(s)| :: ',' !in Split(s)[k]
    decreases s
  {
    if s != "" {
      var k := FindFrom(s, ',', 0);
      assert s[0..k] == s[..k];
      if k < |s| {
        SplitHasNoComma(s[k + 1..]);
      }
    }
  }

  lemma SplitFirst(v: string, rest: string)
    requires ',' !in v
    ensures Split(v + ("," + rest)) == [v] + Split(rest)
  {
    var s := v + ("," + rest);
    assert s[0..|v|] == v;
    FindIs(s, 0, |v|);
    assert s[..|v|] == v && s[|v| + 1..] == rest;
  }

  lemma SplitOne(v: string)
    requires ',' !in v && v != ""
    ensures Split(v) == [v]
  {
    assert v[0..|v|] == v;
    FindIs(v, 0, |v|);
  }

  /** The pieces of a bracketed text: one up to each comma, trimmed, and none after a last comma; a text
      without brackets has none. */
  lemma PiecesSpelled(v: string, rest: string, other: string)
    requires ',' !in v && (other == "" || other[0] != '[' || other[|other| - 1] != ']')
    ensures Recovered("[]") == [] == Recovered(other)
    ensures v != "" ==> Recovered("[" + v + "]") == [Trim(v)]
    ensures Recovered("[" + (v + ("," + rest)) + "]") == [Trim(v)] + Recovered("[" + rest + "]")
  {
    hide Split, Trim;
    NothingSplits();
    Within("");
    Within(v);
    Within(rest);
    Within(v + ("," + rest));
    assert "[" + "" + "]" == "[]";
    if v != "" {
      SplitOne(v);
    }
    SplitFirst(v, rest);
    assert Trimmed([v] + Split(rest)) == [Trim(v)] + Trimmed(Split(rest));
  }

  lemma Within(inner: string)
    ensures Recovered("[" + inner + "]") == Trimmed(Split(inner))
  {
    hide Split, Trim;
    var text := "[" + inner + "]";
    assert text[1..|text| - 1] == inner;
  }

  // ---------- joining, then taking apart ----------

  function More(vs: seq<string>): string {
    if vs == [] then "" else ", " + vs[0] + More(vs[1..])
  }

  /** The items joined as the parser joins them. */
  function Join(vs: seq<string>): string {
    if vs == [] then "" else vs[0] + More(vs[1..])
  }

  function Values(elements: seq<Element>): (vs: seq<string>)
    ensures |vs| == |elements| && forall k | 0 <= k < |vs| :: vs[k] == ElementValue(elements[k])
  {
    seq(|elements|, k requires 0 <= k < |elements| => ElementValue(elements[k]))
  }

  lemma {:induction false} JoinedMore(elements: seq<Element>)
    ensures Joined(elements, false) == More(Values(elements))
  {
    hide ElementValue;
    if elements != [] {
      JoinedMore(elements[1..]);
      assert Values(elements)[1..] == Values(elements[1..]);
    }
  }

  lemma ArrayText(elements: seq<Element>, close: nat)
    ensures ExprValue(List(elements, close)) == "[" + Join(Values(elements)) + "]"
  {
    hide ElementValue;
    if elements != [] {
      JoinedMore(elements[1..]);
      assert Values(elements)[1..] == Values(elements[1..]);
      assert "" + ElementValue(elements[0]) + Joined(elements[1..], false) == Join(Values(elements));
    }
  }

  lemma {:induction false} MoreAppend(vs: seq<string>, w: string)
    ensures More(vs + [w]) == More(vs) + ", " + w
  {
    if vs == [] {
      assert vs + [w] == [w] && [w][1..] == [];
      assert ", " + w + "" == "" + ", " + w;
    } else {
      MoreAppend(vs[1..], w);
      assert (vs + [w])[1..] == vs[1..] + [w];
      assert ", " + vs[0] + (More(vs[1..]) + ", " + w) == ", " + vs[0] + More(vs[1..]) + ", " + w;
    }
  }

  /** The text of an array: brackets around its values, a comma and a blank between two of them. */
  lemma ArraySpelled(elements: seq<Element>, e: Element, close: nat)
    ensures ExprValue(List([], close)) == "[]"
    ensures ExprValue(List([e], close)) == "[" + ExprValue(e.expr) + "]"
    ensures elements != [] ==> exists inner ::
      ExprValue(List(elements, close)) == "[" + inner + "]"
      && ExprValue(List(elements + [e], close)) == "[" + inner + ", " + ExprValue(e.expr) + "]"
  {
    hide ExprValue, More;
    ArrayText([], close);
    ArrayText([e], close);
    ArrayText(elements, close);
    ArrayText(elements + [e], close);
    var vs, w := Values(elements), ElementValue(e);
    assert Values([e]) == [w] && Values(elements + [e]) == vs + [w] && Values([]) == [];
    NothingMore([w][1..]);
    assert w + "" == w && "[" + "" + "]" == "[]";
    if elements != [] {
      MoreAppend(vs[1..], w);
      assert (vs + [w])[1..] == vs[1..] + [w];
      assert Join(vs + [w]) == Join(vs) + ", " + w;
      assert "[" + (Join(vs) + ", " + w) + "]" == "[" + Join(vs) + ", " + w + "]";
    }
  }

  function Spaced(vs: seq<string>): (r: seq<string>)
    ensures |r| == |vs| && forall k | 0 <= k < |r| :: r[k] == " " + vs[k]
  {
    seq(|vs|, k requires 0 <= k < |vs| => " " + vs[k])
  }

  ghost predicate CommaFree(vs: seq<string>) {
    forall k | 0 <= k < |vs| :: ',' !in vs[k]
  }

  lemma {:induction false} SplitMore(v: string, rest: seq<string>)
    requires ',' !in v && CommaFree(rest) && (v != "" || rest != [])
    ensures Split(v + More(rest)) == [v] + Spaced(rest)
    decreases rest
  {
    hide Split;
    if rest == [] {
      assert v + "" == v;
      SplitOne(v);
    } else {
      var w, tail := " " + rest[0], rest[1..];
      assert v + More(rest) == v + ("," + (w + More(tail)));
      SplitFirst(v, w + More(tail));
      SplitMore(w, tail);
      assert [w] + Spaced(tail) == Spaced(rest);
    }
  }

  /** Items an array can carry to the list and back. */
  ghost predicate Carried(vs: seq<string>) {
    CommaFree(vs) && (forall k | 0 <= k < |vs| :: Bare(vs[k])) && vs != [""]
  }

  lemma TrimSpaced(v: string)
    requires Bare(v)
    ensures Trim(v) == v && Trim(" " + v) == v
  {
    hide Trim;
    TrimIs("", v, "");
    TrimIs(" ", v, "");
    assert "" + v + "" == v && " " + v + "" == " " + v;
  }

  lemma CarriedRecovers(vs: seq<string>)
    requires Carried(vs)
    ensures Trimmed(Split(Join(vs))) == vs
  {
    hide Trim, Split, More;
    if vs != [] {
      if vs[1..] == [] {
        assert vs == [vs[0]];
      }
      SplitMore(vs[0], vs[1..]);
      var found := [vs[0]] + Spaced(vs[1..]);
      forall k | 0 <= k < |vs| ensures Trim(found[k]) == vs[k] {
        TrimSpaced(vs[k]);
      }
    } else {
      NothingSplits();
    }
  }

  lemma NothingSplits()
    ensures Split("") == []
  {
  }

  /** The list shows exactly the items of the array if and only if none holds a comma or
      begins or ends with a blank, a tab or a quote, and the array is not one empty item. */
  lemma ItemsRecoveredIff(elements: seq<Element>, close: nat)
    ensures Recovered(ExprValue(List(elements, close))) == Values(elements) <==> Carried(Values(elements))
  {
    hide Split, Trim, ExprValue, Join, More, Values;
    ArrayText(elements, close);
    var vs := Values(elements);
    var text := "[" + Join(vs) + "]";
    assert text[1..|text| - 1] == Join(vs);
    var found := Trimmed(Split(Join(vs)));
    assert Recovered(text) == found;
    if Carried(vs) {
      CarriedRecovers(vs);
    }
    if found == vs {
      RecoveredCarried(vs);
    }
  }

  lemma RecoveredCarried(vs: seq<string>)
    requires Trimmed(Split(Join(vs))) == vs
    ensures Carried(vs)
  {
    hide Trim, Split, More;
    var parts := Split(Join(vs));
    SplitHasNoComma(Join(vs));
    forall k | 0 <= k < |vs| ensures Bare(vs[k]) && ',' !in vs[k] {
      TrimCuts(parts[k]);
      var a, b :| Marks(a) && Marks(b) && parts[k] == a + Trim(parts[k]) + b;
      assert vs[k] == Trim(parts[k]);
    }
    if vs == [""] {
      NothingMore(vs[1..]);
      NothingSplits();
    }
  }

  lemma NothingMore(vs: seq<string>)
    ensures vs == [] ==> "" + More(vs) == ""
  {
  }
}
