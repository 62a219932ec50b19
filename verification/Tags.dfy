/** A reader of start and end tags, to say what well-nested HTML is: tags run from `<` to
    `>`, attribute values stand in double quotes, and every end tag closes the last open one. */
module Tags {

  datatype Mode = InText | InTag(written: string) | InQuotes(written: string)

  datatype Reader = Reader(mode: Mode, open: seq<string>) | Broken

  /** A start tag's name ends at the first blank. */
  function NameIn(written: string): string {
    if written == "" || written[0] == ' ' then "" else [written[0]] + NameIn(written[1..])
  }

  function EndTag(written: string, open: seq<string>): Reader {
    if written != "" && written[0] == '/' then
      if open != [] && open[|open| - 1] == written[1..] then Reader(InText, open[..|open| - 1]) else Broken
    else if NameIn(written) == "" then Broken
    else Reader(InText, open + [NameIn(written)])
  }

  function Feed(r: Reader, c: char): Reader {
    match r
    case Broken => Broken
    case Reader(InText, open) => if c == '<' then Reader(InTag(""), open) else r
    case Reader(InTag(written), open) =>
      if c == '>' then EndTag(written, open)
      else if c == '<' then Broken
      else if c == '\"' then Reader(InQuotes(written), open)
      else Reader(InTag(written + [c]), open)
    case Reader(InQuotes(written), open) => if c == '\"' then Reader(InTag(written), open) else r
  }

  function Run(r: Reader, s: string): Reader
    decreases s
  {
    if s == "" then r else Run(Feed(r, s[0]), s[1..])
  }

  /** Every tag opened is closed, in order, whatever is open around it. */
  ghost predicate Balanced(s: string) {
    forall open: seq<string> :: Run(Reader(InText, open), s) == Reader(InText, open)
  }

  lemma {:induction false} RunConcat(r: Reader, a: string, b: string)
    ensures Run(r, a + b) == Run(Run(r, a), b)
    decreases a
  {
    hide Feed;
    if a == "" {
      assert a + b == b;
    } else {
      RunConcat(Feed(r, a[0]), a[1..], b);
      assert (a + b)[1..] == a[1..] + b;
    }
  }

  lemma BalancedConcat(a: string, b: string)
    requires Balanced(a) && Balanced(b)
    ensures Balanced(a + b)
  {
    hide Run;
    forall open: seq<string> ensures Run(Reader(InText, open), a + b) == Reader(InText, open) {
      RunConcat(Reader(InText, open), a, b);
    }
  }

  lemma {:induction false} TextRun(open: seq<string>, s: string)
    requires '<' !in s
    ensures Run(Reader(InText, open), s) == Reader(InText, open)
    decreases s
  {
    if s != "" {
      TextRun(open, s[1..]);
    }
  }

  lemma TextBalanced(s: string)
    requires '<' !in s
    ensures Balanced(s)
  {
    hide Run;
    forall open: seq<string> ensures Run(Reader(InText, open), s) == Reader(InText, open) {
      TextRun(open, s);
    }
  }

  /** Characters that neither end a tag nor open a value. */
  predicate Plain(s: string) {
    '<' !in s && '>' !in s && '\"' !in s
  }

  lemma {:induction false} PlainRun(open: seq<string>, written: string, s: string)
    requires Plain(s)
    ensures Run(Reader(InTag(written), open), s) == Reader(InTag(written + s), open)
    decreases s
  {
    if s == "" {
      assert written + s == written;
    } else {
      PlainRun(open, written + [s[0]], s[1..]);
      assert written + s == written + [s[0]] + s[1..];
    }
  }

  lemma {:induction false} QuotedRun(open: seq<string>, written: string, s: string)
    requires '\"' !in s
    ensures Run(Reader(InQuotes(written), open), s) == Reader(InQuotes(written), open)
    decreases s
  {
    if s != "" {
      QuotedRun(open, written, s[1..]);
    }
  }

  // ---------- elements ----------

  /** A name an element can have. */
  predicate ElementName(name: string) {
    Plain(name) && ' ' !in name && name != "" && name[0] != '/'
  }

  function Open(name: string): string {
    "<" + (name + ">")
  }

  function OpenWith(name: string, attribute: string, value: string): string {
    "<" + ((name + " " + attribute + "=") + ("\"" + (value + "\">")))
  }

  function Close(name: string): string {
    "</" + (name + ">")
  }

  lemma {:induction false} NameAlone(name: string, rest: string)
    requires ' ' !in name
    ensures NameIn(name) == name && NameIn(name + (" " + rest)) == name
  {
    var all := name + (" " + rest);
    if name != "" {
      NameAlone(name[1..], rest);
      assert all[1..] == name[1..] + (" " + rest);
    }
  }

  lemma RunOne(r: Reader, c: char, rest: string)
    ensures Run(r, [c] + rest) == Run(Feed(r, c), rest)
  {
    hide Feed;
    assert ([c] + rest)[1..] == rest;
  }

  lemma RunNone(r: Reader)
    ensures Run(r, "") == r
  {
  }

  lemma OpenRun(open: seq<string>, name: string)
    requires ElementName(name)
    ensures Run(Reader(InText, open), Open(name)) == Reader(InText, open + [name])
  {
    hide Run, NameIn;
    RunOne(Reader(InText, open), '<', name + ">");
    RunConcat(Reader(InTag(""), open), name, ">");
    PlainRun(open, "", name);
    assert "" + name == name && ">" == ['>'] + "";
    RunOne(Reader(InTag(name), open), '>', "");
    NameAlone(name, "");
    RunNone(EndTag(name, open));
  }

  lemma CloseRun(open: seq<string>, name: string)
    requires ElementName(name)
    ensures Run(Reader(InText, open + [name]), Close(name)) == Reader(InText, open)
  {
    hide Run, NameIn;
    var inside := open + [name];
    assert Close(name) == ['<'] + (("/" + name) + ">");
    RunOne(Reader(InText, inside), '<', ("/" + name) + ">");
    RunConcat(Reader(InTag(""), inside), "/" + name, ">");
    PlainRun(inside, "", "/" + name);
    assert "" + ("/" + name) == "/" + name && ">" == ['>'] + "";
    RunOne(Reader(InTag("/" + name), inside), '>', "");
    assert ("/" + name)[1..] == name && inside[..|inside| - 1] == open;
    RunNone(EndTag("/" + name, inside));
  }

  /** An end tag for anything but the last open element breaks the reader off. */
  lemma WrongClose(open: seq<string>, last: string, name: string)
    requires ElementName(name) && name != last
    ensures Run(Reader(InText, open + [last]), Close(name)) == Broken
  {
    hide Run, NameIn;
    var inside := open + [last];
    assert Close(name) == ['<'] + (("/" + name) + ">");
    RunOne(Reader(InText, inside), '<', ("/" + name) + ">");
    RunConcat(Reader(InTag(""), inside), "/" + name, ">");
    PlainRun(inside, "", "/" + name);
    assert "" + ("/" + name) == "/" + name && ">" == ['>'] + "";
    RunOne(Reader(InTag("/" + name), inside), '>', "");
    assert ("/" + name)[1..] == name;
    RunNone(EndTag("/" + name, inside));
  }

  lemma OpenWithRun(open: seq<string>, name: string, attribute: string, value: string)
    requires ElementName(name) && Plain(attribute) && '\"' !in value
    ensures Run(Reader(InText, open), OpenWith(name, attribute, value)) == Reader(InText, open + [name])
  {
    hide Run, NameIn;
    var written := name + " " + attribute + "=";
    var quoted := "\"" + (value + "\">");
    RunOne(Reader(InText, open), '<', written + quoted);
    RunConcat(Reader(InTag(""), open), written, quoted);
    PlainRun(open, "", written);
    assert "" + written == written;
    RunOne(Reader(InTag(written), open), '\"', value + "\">");
    RunConcat(Reader(InQuotes(written), open), value, "\">");
    QuotedRun(open, written, value);
    assert "\">" == ['\"'] + ">" && ">" == ['>'] + "";
    RunOne(Reader(InQuotes(written), open), '\"', ">");
    RunOne(Reader(InTag(written), open), '>', "");
    NameAlone(name, attribute + "=");
    assert written == name + (" " + (attribute + "="));
    RunNone(EndTag(written, open));
  }

  /** Whatever opens `name`, balanced content and the end tag are balanced together. */
  lemma Enclosed(start: string, name: string, inner: string)
    requires forall open: seq<string> :: Run(Reader(InText, open), start) == Reader(InText, open + [name])
    requires ElementName(name) && Balanced(inner)
    ensures Balanced(start + (inner + Close(name)))
  {
    hide Run, Close, ElementName;
    forall open: seq<string> ensures Run(Reader(InText, open), start + (inner + Close(name))) == Reader(InText, open) {
      RunConcat(Reader(InText, open), start, inner + Close(name));
      RunConcat(Reader(InText, open + [name]), inner, Close(name));
      CloseRun(open, name);
    }
  }

  lemma ElementBalanced(name: string, inner: string)
    requires ElementName(name) && Balanced(inner)
    ensures Balanced(Open(name) + (inner + Close(name)))
  {
    hide Run, Open, Close, ElementName, Balanced;
    forall open: seq<string> ensures Run(Reader(InText, open), Open(name)) == Reader(InText, open + [name]) {
      OpenRun(open, name);
    }
    Enclosed(Open(name), name, inner);
  }

  lemma ElementWithBalanced(name: string, attribute: string, value: string, inner: string)
    requires ElementName(name) && Plain(attribute) && '\"' !in value && Balanced(inner)
    ensures Balanced(OpenWith(name, attribute, value) + (inner + Close(name)))
  {
    hide Run, OpenWith, Close, ElementName, Balanced, Plain;
    forall open: seq<string> ensures Run(Reader(InText, open), OpenWith(name, attribute, value)) ==
        Reader(InText, open + [name]) {
      OpenWithRun(open, name, attribute, value);
    }
    Enclosed(OpenWith(name, attribute, value), name, inner);
  }

  // ---------- one run decides ----------

  /** The same reader with more elements open outside. */
  function Within(base: seq<string>, r: Reader): Reader {
    match r
    case Broken => Broken
    case Reader(mode, open) => Reader(mode, base + open)
  }

  lemma FeedWithin(base: seq<string>, r: Reader, c: char)
    requires Feed(r, c) != Broken
    ensures Feed(Within(base, r), c) == Within(base, Feed(r, c))
  {
    hide NameIn;
    if r.Reader? && r.mode.InTag? && c == '>' {
      EndTagWithin(base, r.mode.written, r.open);
    }
  }

  lemma EndTagWithin(base: seq<string>, written: string, open: seq<string>)
    requires EndTag(written, open) != Broken
    ensures EndTag(written, base + open) == Within(base, EndTag(written, open))
  {
    hide NameIn;
    if written != "" && written[0] == '/' {
      assert (base + open)[..|base + open| - 1] == base + open[..|open| - 1];
    } else {
      assert base + open + [NameIn(written)] == base + (open + [NameIn(written)]);
    }
  }

  lemma {:induction false} BrokenStays(s: string)
    ensures Run(Broken, s) == Broken
  {
    if s != "" {
      BrokenStays(s[1..]);
    }
  }

  lemma {:induction false} RunWithin(base: seq<string>, r: Reader, s: string)
    requires Run(r, s) != Broken
    ensures Run(Within(base, r), s) == Within(base, Run(r, s))
    decreases s
  {
    hide Feed, Within;
    if s != "" {
      if Feed(r, s[0]) == Broken {
        BrokenStays(s[1..]);
      } else {
        FeedWithin(base, r, s[0]);
        RunWithin(base, Feed(r, s[0]), s[1..]);
      }
    }
  }

  /** One run, with nothing open outside, decides whether a text is balanced. */
  lemma BalancedIff(s: string)
    ensures Balanced(s) <==> Run(Reader(InText, []), s) == Reader(InText, [])
  {
    hide Run;
    if Run(Reader(InText, []), s) == Reader(InText, []) {
      forall open: seq<string> ensures Run(Reader(InText, open), s) == Reader(InText, open) {
        RunWithin(open, Reader(InText, []), s);
        assert open + [] == open;
      }
    }
  }

  lemma CloseElsewhere(open: seq<string>, name: string)
    requires ElementName(name) && !(open != [] && open[|open| - 1] == name)
    ensures Run(Reader(InText, open), Close(name)) == Broken
  {
    hide Run, NameIn, Close;
    if open == [] {
      CloseNothing(name);
    } else {
      assert open == open[..|open| - 1] + [open[|open| - 1]];
      WrongClose(open[..|open| - 1], open[|open| - 1], name);
    }
  }

  lemma CloseNothing(name: string)
    requires ElementName(name)
    ensures Run(Reader(InText, []), Close(name)) == Broken
  {
    hide Run, NameIn;
    assert Close(name) == ['<'] + (("/" + name) + ">");
    RunOne(Reader(InText, []), '<', ("/" + name) + ">");
    RunConcat(Reader(InTag(""), []), "/" + name, ">");
    PlainRun([], "", "/" + name);
    assert "" + ("/" + name) == "/" + name && ">" == ['>'] + "";
    RunOne(Reader(InTag("/" + name), []), '>', "");
    RunNone(EndTag("/" + name, []));
  }

  /** Inert text and an end tag lead back to text exactly from text with that element open. */
  lemma EndsOnlyFrom(r: Reader, text: string, name: string, open: seq<string>)
    requires Plain(text) && ElementName(name)
    ensures Run(r, text + Close(name)) == Reader(InText, open) <==> r == Reader(InText, open + [name])
  {
    hide Run, Close, ElementName;
    RunConcat(r, text, Close(name));
    match r
    case Broken => BrokenStays(text + Close(name));
    case Reader(InText, all) =>
      TextRun(all, text);
      if all != [] && all[|all| - 1] == name {
        assert all == all[..|all| - 1] + [name];
        CloseRun(all[..|all| - 1], name);
        assert (open + [name])[..|open|] == open;
      } else {
        CloseElsewhere(all, name);
        assert (open + [name])[|open|] == name;
      }
    case Reader(InTag(written), all) =>
      PlainRun(all, written, text);
      CloseInTag(all, written + text, name);
    case Reader(InQuotes(written), all) =>
      CloseHasNoQuote(name);
      QuotedRun(all, written, text);
      QuotedRun(all, written, Close(name));
  }

  lemma CloseInTag(open: seq<string>, written: string, name: string)
    ensures Run(Reader(InTag(written), open), Close(name)) == Broken
  {
    hide Run;
    assert Close(name) == ['<'] + ("/" + (name + ">"));
    RunOne(Reader(InTag(written), open), '<', "/" + (name + ">"));
    BrokenStays("/" + (name + ">"));
  }

  lemma CloseHasNoQuote(name: string)
    requires ElementName(name)
    ensures '\"' !in Close(name)
  {
  }

  /** The start tag up to its value. */
  lemma OpenWithBegins(open: seq<string>, name: string, attribute: string, value: string)
    requires ElementName(name) && Plain(attribute)
    ensures Run(Reader(InText, open), OpenWith(name, attribute, value)) ==
            Run(Reader(InQuotes(name + " " + attribute + "="), open), value + "\">")
  {
    hide Run, NameIn;
    var written := name + " " + attribute + "=";
    var rest := value + "\">";
    RunOne(Reader(InText, open), '<', written + ("\"" + rest));
    RunConcat(Reader(InTag(""), open), written, "\"" + rest);
    PlainRun(open, "", written);
    assert "" + written == written;
    RunOne(Reader(InTag(written), open), '\"', rest);
  }
}
