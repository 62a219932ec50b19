# Lamia: a model and its proofs

Lamia is a small language for building web pages, with a compiler, an editor and a
server-side function library around it.  This project models the parts of it that
are algorithms and proves what they do, for every input, run or reachable state.

| file | what it models |
|---|---|
| `Chars`, `Segments`, `Common`, `Order` | character classes and scanning loops both lexers share; stretches of a sequence; a first match and an optional value; the order of texts in maps and sets |
| `Lexer` | the lexer of the real compiler: class `LamiaLexer`, and text printed from tokens is read back |
| `Vocabulary`, `Places` | which characters make which of its tokens, and what their lines and columns are |
| `Parser` | its recursive-descent parser: class `LamiaParser` with one shared cursor, and exactly when it returns |
| `Surface` | canonical programs as tokens, any nesting, line breaks and optional commas; the parser reads them back |
| `Forms` | the forms of the language one by one, in its own words and marks, and what becomes of broken ones |
| `Trees`, `Unclosed` | exactly which trees the parser builds from a text, and how to write each of them down, those of texts that break off included |
| `ListItems` | how an array flattened by the parser is split and trimmed into list items |
| `Tags`, `Transpiler` | a reader of start and end tags, and the HTML written for a tree |
| `Shown` | a reader of what a page shows, and what it reads for each kind of widget |
| `Pipeline`, `Pages` | text to tokens to tree to HTML, and back; from the source of a widget to what its page shows |
| `LosslessLexer`, `Shapes` | the nine-handler lexer that keeps every character, and which stretch of the source each token takes |
| `Escaping` | both HTML escapers, against one-pass substitutions and a decoder |
| `Transactions` | transactions, rollback, undo and redo |
| `ExtensionRegistry` | extensions, their dependencies, and the command and schema tables |
| `Forest`, `BlockEditor` | the block list, its id index and nested blocks: first on values, then class `BlockEditor` |
| `DragDrop` | drag state and the choice of the drop zone |
| `FunctionCache` | the memoising function, its cache key and its registry |
| `Optimizer`, `Rewriting` | the rewrite-until-gold optimiser, and that its rewrite preserves programs |
| `Bytes`, `AllowList` | allow-list matching and authentication over bytes |

The recipe is the same everywhere.  What the source does step by step on fields is a
class; its methods are proved equal to recursive functions over positions; the theorems
are lemmas about those functions.  Methods that a mutex guards are one atomic step.

## What turned out to be false or conditional

- The parser does not return on every token sequence: after `->` it waits for `{` and
  steps over nothing but names and `@` words.  `Parser.ParserReturnsIff` says exactly when
  it returns, by one flat pass over the tokens, and `Parser.StuckIsEndless` that otherwise
  the loop behind some arrow makes turn after turn without end.
- `escape_html` replaces `"` before `&`, because the table is ordered by character, so a
  quote becomes `&amp;quot;`.  Decoding gives the text back if and only if it has no quote
  (`Escaping.EscapeDecodesIffQuoteFree`).
- A list shows the items of its array if and only if no item has a comma or a blank, tab or
  quote at an end, and the array is not the one empty item (`ListItems.ItemsRecoveredIff`).
- A button's `action` is not escaped.  Its HTML nests if and only if one reading of the
  action, from its opening quote on, ends the tag with just the button open inside its box
  (`Transpiler.FragmentBalancedIff`); an action without quotes always does, and
  `Transpiler.QuoteBreaksNesting` names some that do not.
- The comments on the cache speak of the least recently used entry; the code evicts the
  smallest key.  A set of calls is answered as without the cache, in every run, if and only
  if no two of them clash: share a key, the first valid and with a text, and their own answers
  differ (`FunctionCache.TransparentIff`).  With `;` in a value that happens.
- A parameter added later is not asked for calls that are cached; the answer is wrong if and
  only if the call does not meet it (`FunctionCache.CachedCallsIgnoreNewParameters`).
- Undos that write saved values back restore a document if and only if it has those values
  in the cells of the transaction (`Transactions.RestoresIff`).
- `redo` moves the index on even when the transaction fails again; flags and index stay in
  step if and only if it does not (`Transactions.RedoKeepsFlagsIff`).
- A block dropped inside, or in place of, itself is lost (`Forest.DropOntoItselfLosesBlock`).
- More than one drop zone can stay highlighted (`DragDrop.MarksAreExactIff`).
- The comparison that claims constant time mixes in only eight bits of the lengths.  It accepts
  two texts if and only if one is the other followed by NULs, their number a multiple of 256
  (`AllowList.AlikeIff`); so the matcher decides membership exactly for the addresses that are
  no entry with such a tail (`AllowList.MatcherDecidesMembershipIff`).
- The optimiser's rewrite adds comment lines.  A program stays the same if and only if it does not break
  off after `return_light`, which takes the added line break for its value
  (`Rewriting.RewriteKeepsProgramIff`).
- The optimiser's recursion has no end on some texts, the empty one among them; `Optimizer.ReturnsIff`
  says on which.

## Model

| member | source | states |
|---|---|---|
| `Pipeline.ReparseIsStable` | lamia_real_compiler.cpp:770-796 | for every source text on which the parser returns: writing its trees down as text and compiling that again gives the same trees |
| `Pipeline.ParsedIff` | lamia_real_compiler.cpp:80-481 | the forests that some text is parsed to are exactly the writable ones: canonical trees, the last of them perhaps broken off |
| `Pipeline.TextReadsBack` | lamia_real_compiler.cpp:80-481 | lexer and parser together invert printing: every writable forest, under any layout of blanks and comments, is read back exactly |
| `Pipeline.TreeTextReadsBack` | lamia_real_compiler.cpp:80-481 | every writable forest has a text that is parsed to it |
| `Pipeline.TextGivesTokens` | lamia_real_compiler.cpp:142-144 | for every source the parser's unguarded reads are safe: valid tokens, one end mark, last |
| `Pipeline.NoReturnIsEndless` | lamia_real_compiler.cpp:308-316 | on every text on which the parser does not return, the loop behind some arrow makes any number of turns and there is always another, from some turn on at the same token |
| `Pipeline.TextThatHangs` | lamia_real_compiler.cpp:308-316 | texts `manifest NAME -> NUMBER`, the shortest failing inputs: the loop makes every turn on the number |
| `Pipeline.Compile` | lamia_real_compiler.cpp:785-796 | lexer object, parser object and transpiler chained: the page body is that of the parsed tree, whenever the flat pass says the parser returns, and shows what the leaves of that tree show, in order |
| `Pages.WidgetPages` | lamia_real_compiler.cpp:80-633 | from literal source to page: the text `create RADIANT_TEXT { content : "v" }`, for every v, shows v in a `p` in its box; likewise headings in `h1`, quotes in `blockquote`, commands in `pre` |
| `Pages.WidgetParsed` | lamia_real_compiler.cpp:80-389 | that text, for every widget name, key and value, is parsed to exactly that widget |
| `Pages.SpelledTokens` | lamia_real_compiler.cpp:80-144 | valid tokens with one blank before each are tokenized back |
| `Pages.ArrayPage` | lamia_real_compiler.cpp:586-611 | a list whose last attribute is an array that can be taken apart again shows its title and then the array's values, one list item each, in order |
| `Pipeline.LastAssigned` | lamia_real_compiler.cpp:366-389 | of several values for a key the last one counts |
| `Pipeline.ArrayIsShown` | lamia_real_compiler.cpp:586-611 | a list widget whose last attribute is an array that can be taken apart again shows one list item for each element, in order, behind its title |
| `Parser.ParserReturnsIff` | lamia_real_compiler.cpp:241-333 | the mutually recursive parser returns if and only if one non-recursive pass over the tokens meets no bad header; otherwise it stays on the token that pass names |
| `Parser.OpenArrowsReturn` | lamia_real_compiler.cpp:308-316 | it returns whenever only names and `@` words stand between an arrow and the next `{` or the end, whatever else the tokens are |
| `Parser.StuckIsEndless` | lamia_real_compiler.cpp:308-316 | where the parser is stuck, the header loop behind some arrow has no end, on that token |
| `Parser.TypesIsTheLoop` | lamia_real_compiler.cpp:308-316 | the specification of the header tokens is what the turns of the loop come to: it is done exactly where the loop ends, with that result |
| `Parser.NumberAfterArrowHangs` | lamia_real_compiler.cpp:308-316 | a number after an arrow is never passed, whatever follows: every turn of the loop leaves cursor and attributes alone |
| `Parser.StatementFollows` | lamia_real_compiler.cpp:276-296 | a statement leaves the fate of the rest unchanged, or meets its own |
| `Parser.Statement` | lamia_real_compiler.cpp:276-296 | from any position but the end the cursor strictly advances and stays inside the tokens; at most one node |
| `Parser.ManifestAt` | lamia_real_compiler.cpp:298-333 | a manifest that is read leaves the cursor further on and in range |
| `Parser.Types` | lamia_real_compiler.cpp:308-316 | the header loop ends on `{` or the end, or is stuck on a token that is none of `{`, end, name, `@` word |
| `Parser.Value` | lamia_real_compiler.cpp:391-413 | a value takes at least one token, except at the end, and never leaves the tokens |
| `Parser.LamiaParser.Parse` | lamia_real_compiler.cpp:241-255 | the object returns the tree of the whole token sequence with the cursor on the end mark |
| `Parser.LamiaParser.ParseStatement` | lamia_real_compiler.cpp:276-296 | node and cursor are those of the specification |
| `Parser.LamiaParser.ParseManifest` | lamia_real_compiler.cpp:298-333 | likewise, body loop included |
| `Parser.LamiaParser.ParseHeader` | lamia_real_compiler.cpp:299-316 | likewise for a manifest up to its body |
| `Parser.LamiaParser.ParseTypes` | lamia_real_compiler.cpp:308-316 | the loop behind the arrow computes the specified attributes, whenever they are not stuck |
| `Parser.LamiaParser.ParseCreate` | lamia_real_compiler.cpp:335-364 | likewise for widgets |
| `Parser.LamiaParser.ParseAttributes` | lamia_real_compiler.cpp:366-389 | likewise for the attribute loop; it stops on `}` or the end |
| `Parser.LamiaParser.ParseValue` | lamia_real_compiler.cpp:391-413 | likewise for values |
| `Parser.LamiaParser.ParseArray` | lamia_real_compiler.cpp:415-439 | likewise for arrays, nested ones included |
| `Parser.LamiaParser.ParseElement` | lamia_real_compiler.cpp:425-432 | one turn of its loop: separator, value and an optional comma |
| `Parser.LamiaParser.ParseStartup` | lamia_real_compiler.cpp:441-453 | likewise for `@startup` |
| `Parser.LamiaParser.ParseReturnLight` | lamia_real_compiler.cpp:455-464 | likewise for `return_light` |
| `Parser.LamiaParser.ParseNeural` | lamia_real_compiler.cpp:466-480 | likewise for `neural` |
| `Parser.LamiaParser.SkipNewlines` | lamia_real_compiler.cpp:263-267 | the cursor is on the first token that is not a line break |
| `Forms.WidgetKinds` | lamia_real_compiler.cpp:344-352 | which eight names select which widget kinds, and that all others give a plain widget |
| `Forms.WidgetForm` | lamia_real_compiler.cpp:335-389 | `create W { K: V }` is a widget with its type and exactly that attribute |
| `Forms.PlainValueForms` | lamia_real_compiler.cpp:391-413 | a string, a number or a name behind the colon is its own text |
| `Forms.ArrayForm` | lamia_real_compiler.cpp:415-439 | `[A, B]`, with or without its comma, is the text `[A, B]` |
| `Forms.ManifestForm` | lamia_real_compiler.cpp:298-333 | `manifest M -> A @B { S }` keeps the name, remembers `A @B ` as what it returns and holds the statement |
| `Forms.StartupForm` | lamia_real_compiler.cpp:441-453 | `@startup manifest M { S }` holds that manifest |
| `Forms.LeafForms` | lamia_real_compiler.cpp:455-480 | `return_light V`, `neural N : V` and `neural N`, with the attribute each sets |
| `Forms.NamelessForms` | lamia_real_compiler.cpp:298-480 | the same forms without a name |
| `Forms.InOrder` | lamia_real_compiler.cpp:241-255 | two statements give two trees in their order |
| `Forms.BareWidget` | lamia_real_compiler.cpp:335-364 | `create W` without braces is that widget |
| `Forms.BareManifest` | lamia_real_compiler.cpp:298-333 | `manifest M` without a body is that manifest |
| `Forms.StrayAttribute` | lamia_real_compiler.cpp:366-389 | a name without a colon, or a token that is no name, assigns nothing in a widget |
| `Forms.NoValue` | lamia_real_compiler.cpp:391-413 | a token that is no value, behind a colon or `return_light`, is taken and gives the empty text; at the end of the text nothing is set |
| `Forms.OpenForms` | lamia_real_compiler.cpp:366-439 | widgets and lists left open at the end are read as far as they go; an open list has no closing bracket in its text |
| `Forms.StraysAreSkipped` | lamia_real_compiler.cpp:241-333 | tokens no statement starts with are passed over one by one, in bodies and at the top |
| `Surface.ProgramReads` | lamia_real_compiler.cpp:241-481 | every canonical program, with any nesting, line breaks, separators and optional commas, is parsed to exactly the trees it stands for |
| `Surface.ProgramReturns` | lamia_real_compiler.cpp:241-481 | the parser returns on all canonical programs |
| `Surface.StmtReads` | lamia_real_compiler.cpp:276-296 | each statement form is read back as its node, up to line breaks behind it |
| `Surface.BlockReads` | lamia_real_compiler.cpp:298-333 | each manifest is read back, header and body |
| `Surface.ClausesRead` | lamia_real_compiler.cpp:319-330 | a list of statements is read back in order up to the closing brace or the end |
| `Surface.WidgetReads` | lamia_real_compiler.cpp:335-364 | a widget is read back with its kind and its attributes assigned in order |
| `Surface.ExprReads` | lamia_real_compiler.cpp:391-439 | every value, arrays nested to any depth included, is read back as its text |
| `Surface.ProgramIsBody` | lamia_real_compiler.cpp:241-255 | the top level reads what a manifest body that runs to the end reads |
| `Trees.ForestReadsBack` | lamia_real_compiler.cpp:241-481 | for every forest of canonical trees: printing it as tokens and parsing gives it back |
| `Trees.WriteReads` | lamia_real_compiler.cpp:298-480 | what a tree is written as stands for that tree, attribute maps in any order |
| `Trees.ForestValid` | lamia_real_compiler.cpp:80-227 | only tokens a text can contain are written |
| `Trees.ProgramShaped` | lamia_real_compiler.cpp:241-481 | on every text the parser builds canonical trees only, except that the last is broken off if the text breaks off after `return_light` |
| `Trees.ProgramCanonical` | lamia_real_compiler.cpp:241-481 | on every other text it builds canonical trees only |
| `Unclosed.TreesReadBack` | lamia_real_compiler.cpp:241-481 | for every writable forest: printing it as tokens, blocks left open where it is broken off, and parsing gives it back |
| `Unclosed.BrokenReads` | lamia_real_compiler.cpp:298-333 | every program whose last blocks are never closed is read back as the trees it stands for |
| `Unclosed.TailWrites` | lamia_real_compiler.cpp:298-464 | what a broken-off tree is written as stands for that tree |
| `Unclosed.TreeTokensValid` | lamia_real_compiler.cpp:80-227 | only tokens a text can contain are written |
| `Trees.EmotionUnreachable` | lamia_real_compiler.cpp:352 | no word of a text names the 3D widget |
| `Lexer.PrintThenTokenize` | lamia_real_compiler.cpp:80-227 | any valid tokens, printed with any blanks and closed comments (and none where tokens cannot run together), are tokenized to the same kinds and values and one END_OF_FILE |
| `Lexer.TokenizeIsStable` | lamia_real_compiler.cpp:80-144 | for every source, printing its tokens and tokenizing that changes nothing |
| `Lexer.LexemesValid` | lamia_real_compiler.cpp:80-144 | every source gives valid tokens, then exactly one END_OF_FILE, which is last |
| `Lexer.EscapeReadsBack` | lamia_real_compiler.cpp:191-215 | every string value, escaped, is read back, and the reader stops after the closing quote |
| `Lexer.UnclosedCommentLeaks` | lamia_real_compiler.cpp:162-172 | an unclosed comment leaves its last character to the tokenizer |
| `Lexer.BareTokens` | lamia_real_compiler.cpp:80-144 | tokens with their places, places dropped, are the lexemes |
| `Lexer.LamiaLexer.Tokenize` | lamia_real_compiler.cpp:80-144 | the object returns the specified tokens with line and column |
| `Lexer.LamiaLexer.ReadPiece` | lamia_real_compiler.cpp:88-139 | one turn of the loop: the token, the next position and the next place |
| `Lexer.LamiaLexer.SkipBlockComment` | lamia_real_compiler.cpp:162-172 | where a block comment ends and on which line and column |
| `Lexer.LamiaLexer.ReadIdentifierOrKeyword` | lamia_real_compiler.cpp:174-189 | the longest word, its kind and its place |
| `Lexer.LamiaLexer.ReadString` | lamia_real_compiler.cpp:191-215 | the unescaped value and the position after the closing quote |
| `Lexer.LamiaLexer.ReadNumber` | lamia_real_compiler.cpp:217-226 | the longest run of digits and dots |
| `Vocabulary.NumberSource` | lamia_real_compiler.cpp:217-226 | every text of the digits 0 to 9 and dots that starts with a digit is one number token |
| `Vocabulary.WordSource` | lamia_real_compiler.cpp:174-189 | every text of letters, digits, `_` and `@` that starts with no digit is one token: `manifest`, `create`, an `@` word or a name |
| `Vocabulary.StringSource` | lamia_real_compiler.cpp:191-215 | text without quotes and backslashes, between quotes, is a string with that value |
| `Vocabulary.OpenStringSource` | lamia_real_compiler.cpp:191-215 | without its closing quote it runs to the end, a last backslash included |
| `Vocabulary.EscapeSource` | lamia_real_compiler.cpp:191-215 | what a backslash and any character stand for |
| `Vocabulary.CommentSource` | lamia_real_compiler.cpp:156-172 | line comments and closed block comments leave no token |
| `Vocabulary.OneCharacter` | lamia_real_compiler.cpp:117-139 | what each single character is: one of the marks, a number, a word, an open string, or nothing |
| `Places.TokenPlaces` | lamia_real_compiler.cpp:80-226 | each token's line is one more than the line breaks before it, those in strings left out; its column counts from the last line break outside strings, one too many if that is in a block comment |
| `ListItems.ItemsRecoveredIff` | lamia_real_compiler.cpp:415-439 | flattening an array and taking it apart again gives back its items, in order and number, if and only if none holds a comma or has a mark at an end and the array is not one empty item |
| `ListItems.RecoverItems` | lamia_real_compiler.cpp:592-604 | the `getline` loop finds exactly the trimmed pieces between commas, with nothing after a last comma |
| `ListItems.TrimCuts` | lamia_real_compiler.cpp:600-602 | the two erasures remove marks only and leave none at either end |
| `ListItems.TrimIs` | lamia_real_compiler.cpp:600-602 | and that determines the result |
| `ListItems.PiecesSpelled` | lamia_real_compiler.cpp:590-604 | one piece up to each comma, trimmed, none behind a last comma, and none at all without brackets |
| `ListItems.ArraySpelled` | lamia_real_compiler.cpp:415-439 | the text of an array of any length: brackets, and a comma and a blank between values |
| `Transpiler.PagesNestIff` | lamia_real_compiler.cpp:555-633 | whatever is built from a stock of leaves is well nested if and only if every button of the stock has an action that nests |
| `Transpiler.HtmlIsWellNested` | lamia_real_compiler.cpp:555-633 | every tree whose button actions nest becomes HTML in which every tag is closed in order, whatever the other attributes say |
| `Transpiler.QuoteFreeHtmlIsWellNested` | lamia_real_compiler.cpp:555-633 | so does every tree whose button actions hold no double quote |
| `Transpiler.HtmlOfLeaves` | lamia_real_compiler.cpp:555-565 | the HTML of a tree is that of its leaves one after the other, at one indent, however deep they nest |
| `Transpiler.QuoteBreaksNesting` | lamia_real_compiler.cpp:579-583 | a quote in an action can open an element that stays open |
| `Transpiler.FragmentBalancedIff` | lamia_real_compiler.cpp:567-627 | the fragment of a leaf nests, at every indent, if and only if it is no button or its action, read on from its opening quote, ends the tag with just box and button open |
| `Transpiler.ButtonBalancedIff` | lamia_real_compiler.cpp:579-583 | a button on its own nests if and only if its action does, whatever its content |
| `Transpiler.HoldersAddNothing` | lamia_real_compiler.cpp:559-565 | manifests and startup marks add nothing to the HTML of their children, which stand in order |
| `Shown.HeadingShows` | lamia_real_compiler.cpp:567-571 | a reader of the page finds the heading's content in an `h1` in its box |
| `Shown.TextShows` | lamia_real_compiler.cpp:573-577 | the text's content in a `p` |
| `Shown.QuoteShows` | lamia_real_compiler.cpp:613-620 | the quote's content in a `blockquote`, then whom it is by, if it says so, in a `cite` |
| `Shown.GcodeShows` | lamia_real_compiler.cpp:622-627 | the title of the block in an `h4`, then its commands in a `pre` |
| `Shown.ListShows` | lamia_real_compiler.cpp:586-611 | the list's title in an `h3`, then each piece of its items in an `li`, in order |
| `Shown.PlainButtonShows` | lamia_real_compiler.cpp:579-584 | a button whose action has no quote: the action as its `onclick`, then its content |
| `Shown.ButtonShows` | lamia_real_compiler.cpp:579-584 | every button whose action nests: what the action gives, then the content behind the text the action leaves |
| `Shown.OthersShowNothing` | lamia_real_compiler.cpp:629-632 | the other leaves show nothing |
| `Shown.QuoteFreeAsRead` | lamia_real_compiler.cpp:729-745 | a text is shown as it is written if and only if it has no double quote |
| `Shown.PageShows` | lamia_real_compiler.cpp:555-633 | a page shows what its leaves show, one after the other |
| `Tags.ElementWithBalanced` | lamia_real_compiler.cpp:579-583 | balanced content between a start tag with a quoted value and its end tag is balanced |
| `Tags.BalancedIff` | lamia_real_compiler.cpp:555-633 | one run of the tag reader, with nothing open outside, decides whether a text is balanced whatever is open around it |
| `Tags.EndsOnlyFrom` | lamia_real_compiler.cpp:579-583 | inert text and an end tag lead back to text exactly from text with that element open |
| `Tags.WrongClose` | lamia_real_compiler.cpp:579-583 | an end tag for anything but the last open element is rejected |
| `LosslessLexer.Lossless` | lamia_compiler.cpp:52-387 | for every source, unclosed strings and comments too, the token texts put together are the source |
| `LosslessLexer.TokensDetermineSource` | lamia_compiler.cpp:52-387 | different sources have different tokens |
| `LosslessLexer.Positions` | lamia_compiler.cpp:375-386 | the stored position is where the text stands, except that a line break is stored two characters early and an unknown character one |
| `LosslessLexer.Lines` | lamia_compiler.cpp:104-387 | the stored line is the true one, less the line breaks hidden behind backslashes before it |
| `LosslessLexer.TokenBreaks` | lamia_compiler.cpp:104-387 | how many line breaks each token accounts for |
| `LosslessLexer.LamiaLexer.Tokenize` | lamia_compiler.cpp:52-90 | the object's tokens are the specified ones and spell the source |
| `LosslessLexer.LamiaLexer.HandleWhitespace` | lamia_compiler.cpp:104-128 | the handler's token, position and line |
| `LosslessLexer.LamiaLexer.HandleSingleLineComment` | lamia_compiler.cpp:130-144 | likewise |
| `LosslessLexer.LamiaLexer.HandleMultiLineComment` | lamia_compiler.cpp:146-172 | likewise, unclosed comments included |
| `LosslessLexer.LamiaLexer.HandleStringLiteral` | lamia_compiler.cpp:174-219 | likewise, escapes and unclosed strings included |
| `LosslessLexer.LamiaLexer.HandleTemplateLiteral` | lamia_compiler.cpp:221-255 | likewise for templates |
| `LosslessLexer.LamiaLexer.HandleNumberLiteral` | lamia_compiler.cpp:257-296 | likewise for numbers |
| `LosslessLexer.LamiaLexer.HandleIdentifierOrKeyword` | lamia_compiler.cpp:298-328 | likewise for words and keywords |
| `LosslessLexer.LamiaLexer.HandleOperator` | lamia_compiler.cpp:330-364 | likewise, the longest operator of the tables wins |
| `LosslessLexer.LamiaLexer.AddToken` | lamia_compiler.cpp:375-386 | one token is appended, its position the cursor less its length, wrapped |
| `Shapes.BlankShape` | lamia_compiler.cpp:104-128 | white space other than line breaks is one token up to the next other character |
| `Shapes.BreakShape` | lamia_compiler.cpp:104-128 | a line break is a token of its own, written as a backslash and an n |
| `Shapes.LineCommentShape` | lamia_compiler.cpp:130-144 | a line comment goes up to the line break |
| `Shapes.BlockCommentShape` | lamia_compiler.cpp:146-172 | a block comment ends with the first `*/` behind its start |
| `Shapes.OpenCommentShape` | lamia_compiler.cpp:146-172 | without one it stops a character before the end of the source |
| `Shapes.QuotedShape` | lamia_compiler.cpp:174-255 | strings and templates: plain characters and pairs of a backslash and any character up to the closing quote; a string is an interpolation if and only if it has a dollar sign and a brace next to each other, neither behind a backslash |
| `Shapes.UnitsFrom` | lamia_compiler.cpp:174-255 | every quote of every source starts such a text |
| `Shapes.NumberShape` | lamia_compiler.cpp:257-296 | a number is the longest run of digits, exponent marks, at most one dot and signs right behind exponent marks; it is a decimal if and only if it has the dot |
| `Shapes.WordShape` | lamia_compiler.cpp:298-328 | a word is the longest one, a keyword if and only if the table has it |
| `Shapes.OperatorShape` | lamia_compiler.cpp:330-364 | of the operators with three, two and one characters the longest is taken |
| `Shapes.SingleShape` | lamia_compiler.cpp:78-86 | punctuation, and every character nothing else takes, is taken one by one |
| `Escaping.HtmlEscapeDecodes` | lamia_compiler.cpp:801-812 | entity decoding inverts `html_escape` on every text |
| `Escaping.ThreePasses` | lamia_compiler.cpp:801-812 | its three passes equal one character-wise substitution |
| `Escaping.HtmlEscape` | lamia_compiler.cpp:801-812 | the method computes that substitution |
| `Escaping.FourPasses` | lamia_real_compiler.cpp:729-745 | four in-place passes in table order equal one substitution, in which a quote is escaped twice |
| `Escaping.EscapeDecodesIffQuoteFree` | lamia_real_compiler.cpp:729-745 | decoding gives the text back if and only if it has no double quote |
| `Escaping.EscapeDecodesToQuoted` | lamia_real_compiler.cpp:729-745 | in general decoding leaves quotes as `&quot;` |
| `Escaping.EscapedIsInert` | lamia_real_compiler.cpp:729-745 | no `<`, `>` or `"` is left |
| `Escaping.EscapeHtml` | lamia_real_compiler.cpp:729-745 | the method computes the four passes |
| `Escaping.ReplaceInPlace` | lamia_real_compiler.cpp:736-742 | the find-and-replace loop equals a substitution |
| `Escaping.EachCharacter` | lamia_real_compiler.cpp:729-745 | what every single character becomes in both escapers |
| `Escaping.EscapedConcat` | lamia_real_compiler.cpp:729-745 | and that texts are escaped character by character |
| `Escaping.EntitiesConcat` | lamia_compiler.cpp:801-812 | likewise for `html_escape` |
| `Transactions.HistoryRuns` | lamia_extensible_architecture.hpp:282-331 | from the empty history on, after any mix of apply, undo and redo, the document is the first one with the history before the index replayed, and a transaction is flagged if and only if it is before the index |
| `Transactions.RunsStayConsistent` | lamia_extensible_architecture.hpp:282-331 | every run keeps that invariant from any state that has it |
| `Transactions.RestoresIff` | lamia_extensible_architecture.hpp:190-218 | undos that write saved values restore exactly the documents that agree with the saved one on the cells of the transaction, from any failure point |
| `Transactions.FailureIsAtomicIff` | lamia_extensible_architecture.hpp:190-218 | a transaction one of whose operations throws leaves document, history and index as they were if and only if the document has the values it saved |
| `Transactions.FailureIsAtomic` | lamia_extensible_architecture.hpp:190-218 | so it does when it was built on that document, although every undo runs |
| `Transactions.SavedValuesRestore` | lamia_extensible_architecture.hpp:190-218 | saved values restore the document they were saved from |
| `Transactions.UndosThenRedos` | lamia_extensible_architecture.hpp:306-331 | k undos then k redos are the identity |
| `Transactions.ApplyDropsRedoTail` | lamia_extensible_architecture.hpp:282-300 | a new transaction drops exactly the redo tail |
| `Transactions.RedoKeepsFlagsIff` | lamia_extensible_architecture.hpp:321-331 | redo keeps flags and index in step if and only if the operations succeed again |
| `Transactions.StaleValuesDoNotRestore` | lamia_extensible_architecture.hpp:209-218 | for any two documents that differ there is a transaction built on the one that rollback does not undo on the other |
| `Transactions.UndoConsistent` | lamia_extensible_architecture.hpp:306-315 | undo keeps the invariant, and redo takes it back |
| `Transactions.RedoConsistent` | lamia_extensible_architecture.hpp:321-331 | redo keeps the invariant, and undo takes it back |
| `Transactions.Transaction.Apply` | lamia_extensible_architecture.hpp:190-204 | document and flag after success, failure with rollback, and a second application |
| `Transactions.Transaction.Rollback` | lamia_extensible_architecture.hpp:209-218 | every undo runs, last first, and the flag is cleared |
| `Transactions.EditorState.ApplyTransaction` | lamia_extensible_architecture.hpp:282-300 | the whole new state |
| `Transactions.EditorState.UndoLast` | lamia_extensible_architecture.hpp:306-315 | the whole new state, and when it succeeds |
| `Transactions.EditorState.RedoNext` | lamia_extensible_architecture.hpp:321-331 | the whole new state, and when it succeeds |
| `Transactions.OpsInOrder` | lamia_extensible_architecture.hpp:190-204 | operations run first to last, and stop where one throws |
| `Transactions.UndosInReverse` | lamia_extensible_architecture.hpp:209-218 | undos run last to first, whatever they throw |
| `Transactions.AtMostOne` | lamia_extensible_architecture.hpp:190-218 | none and one of them |
| `Transactions.OneMoreStep` | lamia_extensible_architecture.hpp:182-218 | a step added to a transaction runs last and is undone first |
| `Transactions.ReplayInOrder` | lamia_extensible_architecture.hpp:282-300 | a history is replayed from its first transaction on |
| `Transactions.RedoKeepsDocument` | lamia_extensible_architecture.hpp:321-331 | a redo that fails again, or meets a transaction flagged as applied, changes the index only |
| `ExtensionRegistry.RegistryRuns` | lamia_extensible_architecture.hpp:768-847 | from the empty registry on, after any proper run: dependencies closed and free of cycles, registration order topological, tables the union over the registered extensions |
| `ExtensionRegistry.RunsKeepOrderAndTables` | lamia_extensible_architecture.hpp:768-847 | every proper run keeps order and tables from any state that has them |
| `ExtensionRegistry.NoCycles` | lamia_extensible_architecture.hpp:933-940 | such an order rules out dependency cycles |
| `ExtensionRegistry.RegisterThenUnregisterIff` | lamia_extensible_architecture.hpp:768-847 | registering then unregistering restores the registry if and only if id and names were new |
| `ExtensionRegistry.UnregisterKeepsClosedIff` | lamia_extensible_architecture.hpp:811-847 | unregistering keeps dependencies closed if and only if nothing else needs the extension |
| `ExtensionRegistry.TablesStep` | lamia_extensible_architecture.hpp:768-847 | each proper step keeps the tables in step with the extensions |
| `ExtensionRegistry.Registry.RegisterExtension` | lamia_extensible_architecture.hpp:768-806 | accepted if and only if every dependency is registered and it loads; what it defines is entered, and otherwise nothing changes |
| `ExtensionRegistry.Registry.UnregisterExtension` | lamia_extensible_architecture.hpp:811-847 | a registered extension goes with all names it defines; otherwise nothing changes |
| `ExtensionRegistry.Registry.CheckDependencies` | lamia_extensible_architecture.hpp:933-940 | true exactly when every dependency is registered |
| `ExtensionRegistry.EnterMeaning` | lamia_extensible_architecture.hpp:785-798 | each name an extension defines gets the last definition it gives; the other names keep theirs |
| `ExtensionRegistry.LeaveMeaning` | lamia_extensible_architecture.hpp:821-834 | exactly the names it defines are erased |
| `Forest.RunKeepsDistinct` | lamia_block_editor.hpp:1055-1126 | over any run of adds with fresh ids, removes, moves and drops the structure is a forest in which each block stands once |
| `Forest.StepConserves` | lamia_block_editor.hpp:1362-1415 | what each operation adds to and takes from the blocks, exactly |
| `Forest.GentleRunsConserve` | lamia_block_editor.hpp:1055-1126 | runs of adds, moves and harmless drops lose no block |
| `Forest.MoveIsDrop` | lamia_block_editor.hpp:1384-1415 | before and after: the index is in range and the move is the intended placement |
| `Forest.ReplaceIsDrop` | lamia_block_editor.hpp:1399-1415 | replace: after the target is removed the index is in range and the move puts the block in its place |
| `Forest.Placement` | lamia_block_editor.hpp:1384-1415 | the dragged block is next to the target or in its place, a nesting target stays where it is, the others keep their order |
| `Forest.DropOnItself` | lamia_block_editor.hpp:1384-1415 | before or after itself: nothing moves |
| `Forest.DropOntoItselfLosesBlock` | lamia_block_editor.hpp:1394-1403 | inside or in place of itself: the block is gone |
| `Forest.Placed` | lamia_block_editor.hpp:1055-1059 | an element is put in at the index, or last if there is no such index, the others in their order around it |
| `Forest.Moved` | lamia_block_editor.hpp:1106-1120 | a moved element stands at the index, the others in their order around it |
| `BlockEditor.Release` | lamia_block_editor.hpp:812-851 | the last move of the pointer and the release: the dragged block is dropped on the target of the first of the nearest zones that cover the pointer, if that zone is valid, and otherwise nothing moves |
| `BlockEditor.EndDrag` | lamia_block_editor.hpp:1307-1314 | ending a drag hands exactly the reported drop to the editor |
| `BlockEditor.BlockEditor.HandleBlockDrop` | lamia_block_editor.hpp:1362-1415 | list, index, forest, selection and child lists after every kind of drop; the invariant is kept |
| `BlockEditor.AfterDropShows` | lamia_block_editor.hpp:1362-1415 | the list after a drop, by ids and neighbours: right before or after the target, in its place, or no longer listed; unknown ids change nothing |
| `BlockEditor.BlockEditor.DropReplacing` | lamia_block_editor.hpp:1399-1415 | the replacing drop: the target goes, the block takes its place |
| `BlockEditor.BlockEditor.DropInside` | lamia_block_editor.hpp:1394-1398 | the target gains the block as last child, the list and the index lose it |
| `BlockEditor.BlockEditor.AddBlock` | lamia_block_editor.hpp:1055-1072 | the block stands at the index, or last if there is no such index, all others as before around it; the id index; the invariant for fresh ids |
| `BlockEditor.BlockEditor.RemoveBlock` | lamia_block_editor.hpp:1077-1101 | list and index lose the block, its id is toggled in the selection, where the first id left becomes the primary one |
| `BlockEditor.BlockEditor.MoveBlock` | lamia_block_editor.hpp:1106-1126 | it moves if and only if it is listed and the index is in range; then it stands there, the others in their order |
| `BlockEditor.BlockEditor.DeleteSelected` | lamia_block_editor.hpp:1266-1273 | exactly the unselected blocks stay, in order, and nothing is selected, no block as the primary one |
| `BlockEditor.BlockEditor.SelectAll` | lamia_block_editor.hpp:1257-1264 | every listed block is selected, what was selected stays so, and the last block is the primary one |
| `BlockEditor.BlockEditor.NavigateBlocks` | lamia_block_editor.hpp:1334-1357 | the neighbour becomes focus, selection and primary selection, or nothing changes |
| `BlockEditor.BlockEditor.UpdateBlockPositions` | lamia_block_editor.hpp:1319-1329 | each stored position is the root, the list index and the path to it, without extent |
| `BlockEditor.BlockSelection.ToggleBlock` | lamia_block_editor.hpp:261-273 | an id is taken out or added; the primary selection follows |
| `BlockEditor.BlockSelection.SelectBlock` | lamia_block_editor.hpp:232-241 | an id is selected alone or in addition, and becomes the primary one |
| `Order.LeqIs` | lamia_block_editor.hpp:261-273 | the order in which ids are kept, and the first of them chosen: a beginning comes first, and otherwise the first difference decides |
| `DragDrop.EndDragMeaning` | lamia_block_editor.hpp:830-851 | whatever happened to the zones since the last update: the drop succeeds if and only if the first nearest covering zone of that update is still there and valid, and it goes to that zone |
| `DragDrop.ChosenIsFirstNearest` | lamia_block_editor.hpp:979-1016 | the current zone is the first of the covering zones with the least distance, or none |
| `DragDrop.MarksAreExactIff` | lamia_block_editor.hpp:979-1016 | only the current zone is highlighted if and only if no zone before it covers the pointer |
| `DragDrop.ChosenInThePlane` | lamia_block_editor.hpp:979-1016 | the same in plane geometry: the current zone has the pointer within its borders, no other such zone has a nearer centre, and none before it one as near |
| `DragDrop.MarksMean` | lamia_block_editor.hpp:979-1016 | a zone is highlighted if and only if it was the nearest so far; nothing else about zones changes |
| `DragDrop.WithoutInOrder` | lamia_block_editor.hpp:879-889 | removing a zone id keeps the other zones in their order |
| `DragDrop.DragDropManager.RemoveDropZone` | lamia_block_editor.hpp:879-889 | exactly the zones with another id stay |
| `DragDrop.DragDropManager.UpdateDrag` | lamia_block_editor.hpp:812-825 | the whole new state |
| `DragDrop.DragDropManager.UpdateCurrentDropZone` | lamia_block_editor.hpp:979-1016 | the loop's choice and marks |
| `DragDrop.DragDropManager.EndDrag` | lamia_block_editor.hpp:830-851 | when it succeeds, what it reports, and that state and zones are cleared in every case |
| `DragDrop.DragDropManager.StartDrag` | lamia_block_editor.hpp:782-807 | block, its type, the operation and the positions are stored; a second drag is refused and changes nothing |
| `DragDrop.DragDropManager.CancelDrag` | lamia_block_editor.hpp:856-866 | state and zones are cleared if something was dragged |
| `FunctionCache.TransparentIff` | lamia_server_client_functions.hpp:263-314 | a set of calls is answered exactly as without the cache, in every run from the empty cache and across evictions, if and only if no two of its calls clash |
| `FunctionCache.RunsAreTransparent` | lamia_server_client_functions.hpp:263-314 | in any run of calls from a set without clashes, from any cache such calls made, every call answers exactly as without the cache, and the cache stays within 1000 entries |
| `FunctionCache.PlainRunsAreTransparent` | lamia_server_client_functions.hpp:263-314 | calls whose argument names have no `=` and values no `;` are always answered as without the cache |
| `FunctionCache.FixedBodyRuns` | lamia_server_client_functions.hpp:263-314 | with the fixed texts of the repository two calls clash exactly when they share a key and only the first is valid; otherwise every valid call of a run gets the text of its context |
| `FunctionCache.CallIsTransparent` | lamia_server_client_functions.hpp:263-314 | one call from a set without clashes, on a cache made by that set, answers as without it and keeps it so |
| `FunctionCache.KeyInjective` | lamia_server_client_functions.hpp:617-634 | argument maps whose names have no `=` and values no `;` are equal if their keys are |
| `FunctionCache.InsertBounded` | lamia_server_client_functions.hpp:637-646 | insertion never exceeds 1000 entries |
| `FunctionCache.SharedKeyBreaksTransparency` | lamia_server_client_functions.hpp:617-634 | a clash, shown: with `;` in a value a call that must be rejected is answered |
| `FunctionCache.CachedCallsIgnoreNewParameters` | lamia_server_client_functions.hpp:263-280 | a parameter added after a call is not asked when that call is made again; the answer is right if and only if the call meets it |
| `FunctionCache.LamiaFunction.Execute` | lamia_server_client_functions.hpp:263-314 | outcome, cache, call count and compiled flag |
| `FunctionCache.LamiaFunction.ValidateParameters` | lamia_server_client_functions.hpp:600-612 | for each parameter: an absent value needs it to be optional, a validator decides alone, and otherwise a non-empty list must hold the value |
| `FunctionCache.ListsDecide` | lamia_server_client_functions.hpp:139-149 | over whole runs of plain calls: values that stand in the lists get the text of the body, one that does not, or is required and missing, is rejected |
| `FunctionCache.KeySpelled` | lamia_server_client_functions.hpp:617-623 | how the key is spelled, argument by argument in the order of names |
| `FunctionCache.InsertMeaning` | lamia_server_client_functions.hpp:637-646 | a new result changes nothing else, except that a cache of 1000 loses the entry whose key comes first |
| `FunctionCache.LamiaFunction.GenerateCacheKey` | lamia_server_client_functions.hpp:617-634 | the loop over the map in key order builds the specified key |
| `FunctionCache.LamiaFunctionRegistry.RegisterFunction` | lamia_server_client_functions.hpp:827-854 | only new names are registered; the three maps stay in step |
| `FunctionCache.LamiaFunctionRegistry.ExecuteFunction` | lamia_server_client_functions.hpp:859-875 | an unknown name is an error; otherwise the call is the function's own |
| `FunctionCache.PushKeepsPartition` | lamia_server_client_functions.hpp:827-854 | each name stands in the list of its class and in no other |
| `Optimizer.ReturnsIff` | lamia_complete_revolutionary_framework.hpp:103-134 | the recursion ends if and only if the text or its single rewrite is gold standard, after at most one recursive call |
| `Optimizer.RewriteIsMonotoneAndStable` | lamia_complete_revolutionary_framework.hpp:164-247 | no score goes down, performance reaches 90 and AI 95, a second rewrite changes nothing |
| `Optimizer.RewriteScores` | lamia_complete_revolutionary_framework.hpp:164-247 | the scores of the rewritten text from those of the text |
| `Optimizer.EmptyTextNeverReturns` | lamia_complete_revolutionary_framework.hpp:103-134 | on the empty text no number of calls is enough |
| `Optimizer.HybridNeoJ4Optimizer.OptimizeComponent` | lamia_complete_revolutionary_framework.hpp:103-134 | result and stored scores, both names included |
| `Optimizer.HybridNeoJ4Optimizer.GetFrameworkScore` | lamia_complete_revolutionary_framework.hpp:139-161 | the field-wise average of the stored scores, gold score included |
| `Optimizer.ScoresByTable` | lamia_complete_revolutionary_framework.hpp:164-232 | the five scores by base, words and points, capped at 100 |
| `Optimizer.ReturnsByScores` | lamia_complete_revolutionary_framework.hpp:82-94 | the end of the recursion by the five scores alone, with weights 25, 20, 20, 20 and 15 hundredths |
| `Optimizer.TotalByField` | lamia_complete_revolutionary_framework.hpp:139-161 | the sums behind the average, field by field |
| `Rewriting.RewriteKeepsProgramIff` | lamia_complete_revolutionary_framework.hpp:234-250 | however a program is laid out: the rewritten text compiles to the same trees if and only if nothing was rewritten or the program does not break off after `return_light` |
| `Optimizer.MeanOfHybrids` | lamia_complete_revolutionary_framework.hpp:82-88 | the weighted score of averages is the average of weighted scores |
| `AllowList.AlikeIff` | lamia_enhanced_implementation.cpp:53-65 | the comparison accepts exactly the pairs of which one text is the other followed by NULs, their number a multiple of 256 |
| `AllowList.ListedIff` | lamia_enhanced_implementation.cpp:67-87 | for every address and NUL-free list: the matcher accepts exactly the non-empty trimmed segments, each followed by any multiple of 256 NULs |
| `AllowList.MatcherDecidesMembershipIff` | lamia_enhanced_implementation.cpp:67-87 | it decides membership exactly for the addresses that are no entry followed by a positive multiple of 256 NULs |
| `AllowList.PaddedEntryIsListed` | lamia_enhanced_implementation.cpp:67-87 | the failing input: every entry followed by 256 NULs is accepted and is no entry |
| `AllowList.AuthenticateUser` | lamia_enhanced_implementation.cpp:274-281 | a user is let in exactly when both credentials are set and each input is the configured text, perhaps followed by a multiple of 256 NULs |
| `AllowList.JoinThenMatch` | lamia_enhanced_implementation.cpp:67-87 | joining entries with any runs of delimiters and matching accepts exactly the entries, each followed by any multiple of 256 NULs |
| `AllowList.JoinThenMatchIsMembership` | lamia_enhanced_implementation.cpp:67-87 | for NUL-free addresses that is membership |
| `AllowList.ListedIsMembership` | lamia_enhanced_implementation.cpp:67-87 | for NUL-free addresses the matcher decides membership among the non-empty trimmed segments |
| `AllowList.AddressMatches` | lamia_enhanced_implementation.cpp:67-87 | the splitting loop finds a hit exactly when some segment is one |
| `AllowList.AlikeIsEquality` | lamia_enhanced_implementation.cpp:53-65 | for NUL-free texts of any length the comparison is equality |
| `AllowList.NulsBreakEquality` | lamia_enhanced_implementation.cpp:53-65 | with NUL bytes it is not: 256 of them and the empty text are accepted |
| `AllowList.ConstantTimeEqual` | lamia_enhanced_implementation.cpp:53-65 | the OR-accumulating loop decides: equal lengths modulo 256 and equal bytes after padding |
| `AllowList.TrimMeaning` | lamia_enhanced_implementation.cpp:36-51 | trimming removes exactly the white space at the ends |
| `Bytes.XorZero` | lamia_enhanced_implementation.cpp:59-63 | two bytes have equal bits if and only if they are equal |

## Left out

- Files, console, clocks, sleeping, `system`, `dlopen`, mutexes: not modelled; a guarded method is one step.
- The generators (documentation, libraries, GitHub, release, marketplace, bridges), browser validation and the command lines: they write fixed text or return fixed data.
- The page around the body, the style sheet, the script and `transpile_to_javascript`: fixed text and copies of attributes without structure to prove.
- Tree nodes are values, not shared pointers; `operator[]` on a missing attribute inserts an empty one, which nothing observes, so reading gives `""`.
- Parser: the parser object takes tokens without line and column, which it never reads.
- Locale and signed characters in `isspace`, `isalpha`, `isalnum`, `isdigit`: the "C" locale on plain characters.
- Transpiler.HtmlIsWellNested: for a single page the condition is sufficient only; the exact one is a run of the tag reader over the page (`Tags.BalancedIff`), and `PagesNestIff` is exact for all pages built from the same leaves.
- LosslessLexer.LamiaLexer.AddToken: the column field is not modelled, because it is computed before the cursor advances; positions and lines are, and the AI hints are an enumeration instead of texts.
- Transactions: operations and undos are writes to cells of a document, or throw; selection, variables, cursors and time stamps are left out.
- ExtensionRegistry: unloading, the loaded and unloaded callbacks and version strings are left out; whether `load` succeeds is an input.
- BlockEditor: rendering, metadata, styles, animation, AI suggestions and range selection are left out; a block is its id, its children and its position.
- DragDrop: coordinates are exact reals and squared distances stand for distances; of a position only the coordinates are kept; update and cancel callbacks and AI suggestions are left out.
- FunctionCache.KeyInjective: argument maps with `=` in a name or `;` in a value are excluded; some of them still have a key of their own, and `TransparentIff` needs no such condition.
- FunctionCache: the body is a function parameter, which stands for the five execution contexts; timing and statistics are left out.
- Optimizer: scores are exact reals; clock readings and progress texts are left out.
- Rewriting: the optimised text is a layout of a program's tokens; texts that end inside a string or a comment, which swallow the added line, are left out.
- Shown: blanks and line breaks between boxes, list items and their tags are read over.
- AllowList: how long the comparison takes is not modelled, only what it decides.
