# C++Py-Tree in Dafny

C++Py-Tree reads *tree expressions* such as `P(.x=A().y=Q())`, checks them against the type table of
an AST library, builds the objects that they denote in pool-allocated memory, and prints objects back.
This project models that pipeline and proves what its parts promise each other.

* **Text to tree.** `Lexer` says what the scanner reads next as functions of the unread input, `Syntax`
  gives the grammar as the symbols that a tree derives, `Grammar` parses a stream of tokens and `Parser`
  is the parser object with its cursor, its position, its token of lookahead and its `arg_ctxt` flag.
  `ErrorReport` is the verbose error report with its line table and its caret. `Spelling` says how symbols
  are spelled and is the language of tree expressions character by character, without the scanner;
  `Places` says where the tokens of a text stand, `Errors` which token an error names.
* **Tree to text.** `Printer` is the terse and the pretty source printer; `RoundTrip` proves printing and
  parsing inverse. `Layout` reads the layout of pretty output off its characters: a reader with a stack of
  open brackets that knows nothing of the printer accepts what it prints.
* **Tree to object.** `Types` holds type tables and casts, `Eval` evaluates without a stack, `Machine` is
  the visitor, the object stack and the makers, proved to compute what `Eval` computes. `EvalProofs` and
  `Elaboration` prove what evaluation guarantees, the latter against a relation (`Elab`) that says which
  object a tree denotes without evaluating anything.
* **Object to text.** `Objects` prints the objects of any library and proves when the text builds the
  object again; `Abc` instantiates it for the abc library, with the printer class by class, and `ObjectTexts`
  proves that two abc objects never print the same text. `Pipeline` is a whole run on a text, and `Inputs`
  holds the texts that do not survive a second run; `Session` is the session of test/test-abc.sh and
  `Listing` the listing of a type table.
* **Memory.** `Pool` is the bump allocator with its rollback and its address index, `Memory` the blocks that
  an object takes from it, `Ast` the node graph built on it, `Addresses` evaluation with pointers into that
  graph, `Bases` chains of base types on any table, `Search` the binary search both indices use, `Numbers`
  the range-checked conversions.

A class of the source that updates its fields is a class here; each of its methods is proved to do what a
function of the old state says, and the theorems are about that function. Exceptions are `Result` and
`Outcome` values. Pools are part of the evaluated state, so that running out of them is an ordinary error.

The main results, for all inputs:

1. The stack machine and the stackless evaluator agree on the value, on the first error and on the pools,
   and no error of the stack machine itself can occur (`Machine.Evaluator.EvalTree`,
   `EvalProofs.EvaluationIsProper`).
2. Building succeeds with an object exactly when the tree denotes the object and the pools have room for
   it (`Elaboration.BuildIsElaboration`).
3. Type checking foretells building (`EvalProofs.TypeCheckForetellsBuild`); strict casts accept less than
   relaxed ones, with the same results (`EvalProofs.StrictResultIsRelaxed`).
4. The parser is the grammar, and printing and parsing are inverse exactly when the literals can stand
   between single quotes (`Grammar.ParserIsTheGrammar`, `RoundTrip.PrintThenParse`).
5. A built abc object is built again by what it prints exactly when it holds no `M` and no string that a
   single-quoted literal cannot hold (`Abc.AbcRoundTrip`); under the same condition, and no other, a second
   run prints the text of the first (`Pipeline.OutputIsFixed`).
6. The parser accepts exactly the texts in which the symbols of a tree are spelled in order, and returns that
   tree (`Spelling.ParserIsTheLanguage`). When it fails, its error names the first of the tokens placed in the
   text with which no sentence of the grammar goes on, and asks for a kind of token with which one does
   (`Errors.FirstBadToken`, `Places.OnlyTokensArePlaced`).
7. Pretty output is indented by four characters for each bracket that is open, with arguments, elements and
   closing brackets on lines of their own (`Layout.NodeReads`, `Layout.LinesAreIndented`).
8. With pointers in place of objects, evaluation never meets an invalid pointer, and what the graph of the
   AST unfolds to from the root is the object (`Addresses.BuiltInTheGraph`).

## What the code does not do

Some properties that one would expect are false of the code; each has its exact condition or a
counterexample here.

* Literals are stored raw and always printed between single quotes, so a literal with an unescaped `'` does
  not print and parse back (`RoundTrip.PrintThenParse` is an equivalence). An input may hold such a literal
  between double quotes: `RoundTrip.QuoteIsLostInput` for trees, `Inputs.UnsafeInput` for objects. The output
  may even be read as another object without any error: `Inputs.CommentSwallowsText`.
* Pretty output with dots in its indentation parses back only when nothing is indented
  (`RoundTrip.DotsDoNotParse`).
* A comment is accepted only when it runs to the end of the input (`Lexer.CommentsRunToTheEnd`), apart from one
  last newline (`RoundTrip.LastComment`).
* A number too large for an index is not what an error names when the text after it is no token: that is scanned
  first (`Errors.FirstBadToken` has both cases).
* A rendered line does not tell what was in it, since a backslash is shown as it is
  (`ErrorReport.RenderingIsAmbiguous`); each character that is rendered does (`ErrorReport.ReprMeans`).
* The abc printer writes the field `c` of an `M` without its name, which the grammar refuses; `M` is the
  only such class (`Abc.StringsBesideOthers`), and `Inputs.MInput` is a text that builds one.
* Rolling back does not undo an allocation: the padding stays used (`Pool.RollbackLeaksPadding`), enough to
  exhaust the pool (`Pool.RoundsExhaustThePool`, with `Pool.RoundIsTwoCalls`).
* The test for cycles among base types sees only cycles through the type that it starts from
  (`Bases.InnerCyclesAreMissed`). Whether the cast ends on a table can be told within as many steps as there
  are types (`Bases.WalkEndsExactlyWhen`), and `Bases.WalkAnswers` says what it answers when it does. The
  tables of both libraries are acyclic.
* A failed count of arguments leaves `narg_error` set, and the next node that the same maker builds then
  leaves its arguments on the stack (`Machine.Maker.MakeNode`). The program never meets this: each run makes
  one maker (src/tree/eval-impl.hpp:207, 226, 249) and stops at the first error.
* `check_limits` does not look at signs when two types have equal widths; that is right for the integer
  formats that C++ has and wrong beyond them (`Numbers.CheckLimitsNeedsRealFormats`).

## Model

| member | source | states |
|---|---|---|
| `Chars.FindIfNot` | src/tree/parser.cpp:116-120 | a forward search stops at the first character outside the class, or at the end |
| `Chars.ClassesAreListed` | src/tree/parser.cpp:143-156 | the character classes by character code, as the C locale has them |
| `Position.PosWithin` | src/grammar/parser-base.hpp:94-95 | moving over text without a newline adds to the column only |
| `Position.Advance` | src/grammar/parser-base.hpp:97-113 | from the true position of one offset, adding a range gives the true position of the other, line and column |
| `Position.LineStartsPrefix` | src/tree/parser.cpp:318-327 | the line table of a text extends that of each prefix, and its next entry is after the first newline that follows |
| `Position.BuildLinePtrs` | src/tree/parser.cpp:318-327 | the table holds the start of every line, in order |
| `Lexer.ScanLiteralClosesAtFirstQuote` | src/tree/parser.cpp:190-213 | a literal scan succeeds exactly at the first unescaped matching quote with no newline and no unescaped non-plain character before it |
| `Lexer.ClosesAtIsBody` | src/tree/parser.cpp:190-213 | the text before the closing quote is a literal body, and only then does the quote close it |
| `Lexer.QuotedLexeme` | src/tree/parser.cpp:252-262 | a quoted lexeme is the body between two equal quotes; a fault means that no such body exists |
| `Lexer.ScanLiteralBreaksAtFirstFault` | src/tree/parser.cpp:190-213 | a literal scan fails exactly at the end of the input, at a newline, or at an unescaped non-plain character, whichever is first, with that reason |
| `Lexer.BodySplitsUniquely` | src/tree/parser.cpp:185-213 | a text is a literal body exactly when it splits into plain characters and escape pairs, and then in one way |
| `Lexer.CommentsRunToTheEnd` | src/tree/parser.cpp:113-141 | a comment is the end of the input when no newline follows it, and a lexical error otherwise |
| `Grammar.SymsOfTokens` | src/tree/parser.cpp:215-280 | the token stream with its positions carries exactly the symbols of the unread text |
| `Grammar.SoundNode` | src/tree/parser.cpp:480-491 | what was parsed derives the symbols that were consumed |
| `Grammar.SoundArgList` | src/tree/parser.cpp:519-527 | the arguments parsed, in order, derive the symbols consumed |
| `Grammar.SoundArg` | src/tree/parser.cpp:543-556 | an argument derives its dot, its name, its sign and its value |
| `Grammar.SoundValue` | src/tree/parser.cpp:576-611 | each of the three kinds of value derives the symbols consumed |
| `Grammar.SoundElem` | src/tree/parser.cpp:616-629 | a list element derives its index within 8 bits and its node |
| `Grammar.CompleteNode` | src/tree/parser.cpp:480-491 | a derivation of the symbols ahead is found, and nothing after it is consumed |
| `Grammar.CompleteArgList` | src/tree/parser.cpp:516-527 | every argument of a derivation is found, in order |
| `Grammar.CompleteValue` | src/tree/parser.cpp:582-605 | the value of a derivation is found by one token of lookahead |
| `Grammar.CompleteList` | src/tree/parser.cpp:586-600 | a list of a derivation is found, empty or not |
| `Grammar.ParserIsTheGrammar` | src/tree/grammar.g++:35-63 | parsing succeeds with a tree exactly when the symbols of the input are the yield of that tree and then the end; `Spelling` fixes which symbols a text has |
| `Grammar.GrammarIsUnambiguous` | src/tree/grammar.g++:35-63 | no input has two derivations |
| `Spelling.ScanSpells` | src/tree/parser.cpp:215-280 | what is taken off the front of a text is a spelling of the symbol reported: each mark its character, the keyword "list", a word itself, a number digits of its value, a string its body between equal quotes |
| `Spelling.ScannedIsWritten` | src/tree/parser.cpp:215-280 | a text that scans without a fault spells its symbols in order, with blanks between them and a comment at most at the end |
| `Spelling.WrittenIsScanned` | src/tree/parser.cpp:215-280 | a text that spells symbols in order scans as them, if no word runs into the next and "list" is a name exactly after a dot |
| `Spelling.ParserIsTheLanguage` | src/tree/grammar.g++:35-63 | parsing succeeds with a tree exactly on the texts that spell the symbols of the tree in order |
| `Spelling.TerseIsSpelled` | src/tree/printer.cpp:709-797 | the terse text of a tree is its symbols in the spelling of the printers, with nothing between them |
| `Spelling.AcceptedTextIsTheTersePrint` | src/tree/printer.cpp:709-797 | an accepted text is the terse print of its tree up to blanks, a last comment, the quotes of literals and leading zeros |
| `Places.TokensArePlaced` | src/tree/parser.cpp:215-280 | every token stands after blanks only at its position, is spelled there, and is as long as can be; the stream is torn exactly where no token stands |
| `Places.OnlyTokensArePlaced` | src/tree/parser.cpp:215-280 | and no other stream of tokens is placed so in the text |
| `Errors.FirstBadToken` | src/grammar/parser-base.cpp:109-124 | an error names the first token, at its position, with which no sentence goes on, and says what could stand there; a number too large for an index is such a token, unless what follows it is no token |
| `Errors.FirstBadIsUnique` | src/grammar/parser-base.cpp:109-124 | there is one such token |
| `Errors.NodeFails` | src/tree/parser.cpp:480-491 | when parsing a node fails, the symbols before the one to blame can be completed to a node, and no tokens with the same symbols up to that one parse |
| `Errors.ListFails` | src/tree/parser.cpp:586-600 | the same for a list |
| `Errors.ElemFails` | src/tree/parser.cpp:616-629 | the same for a list element, whose index may be too large |
| `Errors.LateNameIsBlamed` | src/tree/parser.cpp:510-538 | an input whose error is on its second line, and the position of that error |
| `Parser.ScanLiteral` | src/tree/parser.cpp:190-213 | the scanning loop finds the closing quote, or the error with its true position, that the specification names |
| `Parser.ScanLexeme` | src/tree/parser.cpp:226-275 | the next lexeme, its kind in and out of argument context, where it ends, or the error with its true position |
| `Parser.Parser.constructor` | src/grammar/parser-base.cpp:27-76 | a newline that ends the input is folded into its end, and the first position is line 1, column 1 |
| `Parser.Parser.SkipSpaces` | src/tree/parser.cpp:113-141 | blanks and at most one comment are passed, and the position stays the true position of the cursor |
| `Parser.Parser.NextToken` | src/tree/parser.cpp:215-280 | the next token of the specified stream becomes current, and the position stays true |
| `Parser.Parser.EatToken` | src/grammar/parser-base.hpp:216-220 | the current token becomes the previous one and the next is scanned |
| `Parser.Parser.NeedToken` | src/grammar/parser-base.cpp:109-117 | a token of the wanted kind is needed, any other is an error at its position; it is consumed unless it is the last |
| `Parser.Parser.ParseTreeNode` | src/tree/parser.cpp:480-504 | does to the parser what the grammar function does to the tokens ahead: same tree, same rest, same error |
| `Parser.Parser.ParseNodeArgs` | src/tree/parser.cpp:510-538 | the same, for arguments or a literal |
| `Parser.Parser.ParseNodeArg` | src/tree/parser.cpp:543-569 | the same, and the context flag is set exactly while the token after the dot is scanned, so that fields may be named `list` |
| `Parser.Parser.ParseArgValue` | src/tree/parser.cpp:576-611 | the same, for a node, a list or a literal |
| `Parser.Parser.ParseNodeList` | src/tree/parser.cpp:586-600 | the same, for a list with its base |
| `Parser.Parser.ParseElems` | src/tree/parser.cpp:591-598 | the same, for the elements of a list in order |
| `Parser.Parser.ParseListElem` | src/tree/parser.cpp:616-629 | the same, and the index is checked before the closing bracket is needed |
| `Parser.Parser.Parse` | src/tree/parser.cpp:412-438 | the tree of the whole input, or the first error |
| `Parser.ListElemIndex` | src/tree/parser.cpp:445-451 | an index is its decimal value when that fits 8 bits, and an error at its position otherwise |
| `Numbers.CheckLimitsIsRepresentable` | include/std-ext.hpp:172-279 | for all pairs of real integer formats, the range check passes exactly when the target represents the value |
| `Numbers.CheckLimitsNeedsRealFormats` | include/std-ext.hpp:172-179 | formats that C++ does not have show that equal widths alone are not enough |
| `Numbers.DecValueOfDec` | src/tree/printer.cpp:430-433 | the decimal digits that are printed for a number denote the number |
| `Numbers.DecHasNoLeadingZero` | src/tree/printer.cpp:430-433 | and have no leading zero |
| `Numbers.StrToULL` | src/std-ext.cpp:92-100 | the value of the leading digits and the rest, or a range error, as section 7.22.1.4 of ISO/IEC 9899:2011 says |
| `Numbers.StrToLL` | src/std-ext.cpp:70-78 | the value of a sign and digits and the rest, nothing read without digits, or a range error |
| `Numbers.ParseNum` | include/std-ext.hpp:690-722 | for every signed and unsigned type: a numeral gives its value when the type holds it and a range error otherwise; nothing else succeeds |
| `Printer.SourcePrinter.PrintEndl` | src/tree/printer.cpp:207-228 | a line break and one unit of indentation for each level, dotted or blank; nothing when terse |
| `Printer.SourcePrinter.VisitTreeNode` | src/tree/printer.cpp:786-792 | appends the text of the node and leaves the indentation level as it was |
| `Printer.SourcePrinter.VisitLiteral` | src/tree/printer.cpp:715-718 | appends the raw literal between single quotes |
| `Printer.SourcePrinter.VisitListArgs` | src/tree/printer.cpp:442-455 | appends the arguments in order, each on its line one level deeper, and a last break unless there are none |
| `Printer.SourcePrinter.VisitNodeArg` | src/tree/printer.cpp:740-769 | appends the name, the sign and the value |
| `Printer.SourcePrinter.VisitNodeList` | src/tree/printer.cpp:731-738 | appends the base and the elements between their brackets |
| `Printer.SourcePrinter.VisitElems` | src/tree/printer.cpp:442-455 | appends the elements in order, with the breaks of a list |
| `Printer.SourcePrinter.VisitListElem` | src/tree/printer.cpp:435-440 | appends the index as it was parsed, the sign and the node |
| `Printer.SourcePrinter.PrintAst` | src/tree/printer.cpp:248-252 | a fresh printer writes the text of the whole tree and one newline |
| `Layout.NodeReads` | src/tree/printer.cpp:786-792 | a reader of characters that checks the layout accepts the pretty text of every tree: each argument and element on its own line, indented by four characters for each open bracket, dotted or blank; a bracket closed on its own line exactly when a line was broken inside it; signs between two blanks |
| `Layout.LinesAreIndented` | src/tree/printer.cpp:207-228 | after each newline come four characters for each bracket open there and an argument or an element, or four less and a closing bracket |
| `Layout.ExamplePrints` | src/tree/printer.cpp:442-455 | the pretty text of a tree of three levels with a node and a list, in both forms |
| `RoundTrip.LexMark` | src/tree/parser.cpp:158-178 | text that starts with a mark scans as the mark and what the rest scans as, in the context that the mark sets |
| `RoundTrip.LexWord` | src/tree/parser.cpp:234-250 | the same for identifiers, names and the keyword |
| `RoundTrip.LexNumber` | src/tree/parser.cpp:264-273 | the same for a printed number, whose value is kept |
| `RoundTrip.LexQuoted` | src/tree/parser.cpp:252-262 | a string between two equal quotes scans as itself exactly when it is a literal body for that quote |
| `RoundTrip.LexBlanks` | src/tree/parser.cpp:113-141 | blanks between tokens change no symbol |
| `RoundTrip.LexPrint` | src/tree/printer.cpp:786-792 | printed text scans as the yield of the tree, and then as the rest, exactly when all literals fit |
| `RoundTrip.LexPrintArg` | src/tree/printer.cpp:740-769 | the same for an argument, a field named `list` included |
| `RoundTrip.LexPrintElem` | src/tree/printer.cpp:435-440 | the same for a list element and its index |
| `RoundTrip.ParsedWordsFit` | src/tree/parser.cpp:234-250 | the identifiers and names of any parsed tree are lexically valid |
| `RoundTrip.PrintThenParse` | src/tree/printer.cpp:709-797 | terse text, and pretty text without dots, parses back as the tree exactly when its literals can stand between single quotes |
| `RoundTrip.ReprintKeepsTokens` | src/tree/printer.cpp:709-797 | reprinting accepted input keeps its tokens, up to quote kind and leading zeros, under the same exact condition |
| `RoundTrip.DotsDoNotParse` | src/tree/printer.cpp:207-231 | pretty text with dots parses back exactly when, besides, nothing is indented |
| `RoundTrip.LastComment` | src/grammar/parser-base.cpp:57-76 | a comment may follow a tree exactly when no newline is in it but one that ends the input |
| `RoundTrip.DoubleQuotedParses` | src/tree/parser.cpp:252-262 | a node with a double-quoted literal parses as its text exactly when that is a body between double quotes |
| `RoundTrip.QuoteIsLost` | src/tree/printer.cpp:715-718 | such an input, with an unescaped single quote in its literal, parses to a tree that no printer writes back |
| `RoundTrip.QuoteIsLostInput` | src/tree/printer.cpp:715-718 | `D("a'b")` is an input of this kind |
| `ErrorReport.ReprPrint.Repr` | include/std-ext.hpp:896-981 | writes the representation of a character and returns the number of characters written |
| `ErrorReport.QuoteNonPlain` | src/tree/parser.cpp:329-356 | renders the line, and the count returned is what rendering adds before the pointer |
| `ErrorReport.HexDenotes` | include/std-ext.hpp:964-981 | the hexadecimal digits that are printed denote the number |
| `ErrorReport.ReprMeans` | include/std-ext.hpp:896-981 | the representation of a character, read as C reads escapes, means that character |
| `ErrorReport.RenderingIsAmbiguous` | src/tree/parser.cpp:329-356 | two lines that are rendered alike |
| `ErrorReport.PosNamesOffset` | src/tree/parser.cpp:376-395 | the position of an offset indexes a real line of the table, and names the offset and the end of its line |
| `ErrorReport.PositionsAreDistinct` | src/grammar/parser-base.hpp:79-126 | no two offsets share a position |
| `ErrorReport.VError` | src/tree/parser.cpp:358-410 | no assertion fails, the line shown is that of the error, and the caret stands right after the rendering of what comes before the error |
| `Search.EqualRange` | src/grammar/ast-base.cpp:99-101 | the binary search returns the range of the keys equal to the one sought |
| `Search.RangeIsLinearFind` | src/grammar/ast-base.cpp:102-105 | in a strictly sorted table that range holds at most one key, the one that a linear search finds |
| `Search.StrLessIsStrictTotal` | src/tree/eval.hpp:1168-1170 | the comparison by `strcmp` is a strict total order |
| `Pool.EveryRunIsOk` | src/grammar/ast-base.cpp:154-186 | after any allocations and rollbacks, live blocks are aligned, disjoint, inside the pool, increasing in address and within the limit of their number |
| `Pool.AllocateIs` | src/grammar/ast-base.cpp:154-178 | an allocation succeeds exactly when an object more is allowed and the block fits after the next aligned address, and fails for the first of the two otherwise; the block has the size and the alignment asked for |
| `Pool.BlocksHoldWhatWasAsked` | src/grammar/ast-base.cpp:154-186 | after any allocations and rollbacks, each live block has the bytes that were asked for it |
| `Pool.ObjectsDoNotOverlap` | src/grammar/ast-base.cpp:154-186 | after any run on a fresh pool, the bytes asked for each live object end before the next object and inside the pool |
| `Memory.NodeTakes` | src/grammar/ast-base-impl.hpp:42-79 | a node takes a block of the size and alignment of its class, and each of its strings one byte more than its length |
| `Memory.ListTakes` | src/tree/eval-impl.hpp:159-169 | a list takes eight bytes for each element, aligned, and an empty one nothing |
| `Memory.ObjectTakes` | src/tree/eval-impl.hpp:112-178 | building an object adds exactly these blocks for all its nodes, lists and strings, children first |
| `Pool.RollbackLeaksPadding` | src/grammar/ast-base.cpp:180-186 | rolling an allocation back restores the index but never the bump pointer |
| `Pool.RoundIsTwoCalls` | src/grammar/ast-base.cpp:154-186 | a round is one call to allocate and one call to roll the new block back |
| `Pool.RoundsExhaustThePool` | src/grammar/ast-base.cpp:154-186 | from the second round on, allocating and rolling back costs a whole alignment unit, which bounds the number of rounds |
| `Pool.AllocateAppends` | src/grammar/ast-base.cpp:168-170 | an allocation adds one block after the live ones, and rolling it back leaves those |
| `Pool.PoolAllocator.Allocate` | src/grammar/ast-base.cpp:154-178 | the new state and the address, or the reason of the failure and no change; no operation leaves the range of machine arithmetic |
| `Pool.PoolAllocator.Rollback` | src/grammar/ast-base.cpp:180-186 | only the youngest block can be rolled back, and nothing changes otherwise |
| `Pool.PoolAllocator.Find` | src/grammar/ast-base.cpp:87-132 | exact membership among live blocks and the ordinal, the same on the linear and on the binary path |
| `Pool.PoolAllocator.Destroy` | src/grammar/ast-base.cpp:134-152 | live blocks are destroyed from the youngest to the oldest |
| `Ast.WalksAreShallow` | src/grammar/ast-base.hpp:227-233 | a walk from a node ends, and never nests deeper than the ordinal of the node plus one |
| `Ast.UnfoldIsStable` | src/grammar/ast-base.hpp:227-233 | the tree at a node does not change when younger nodes are added |
| `Ast.ParentsGoFirst` | src/grammar/ast-base.cpp:150-151 | no node is destroyed while a node that refers to it lives |
| `Ast.NewNodeIsOk` | src/grammar/ast-base.hpp:227-233 | children stay live, not null and older than their parent; a new node is live, the youngest, and older nodes keep their places |
| `Ast.BaseAst.CheckKids` | src/grammar/ast-base-impl.hpp:52-79 | passes when all children are live, and otherwise names the first that is not |
| `Ast.BaseAst.NewRaw` | src/grammar/ast-base-impl.hpp:42-49 | memory for a string or a list comes from the raw pool alone, or the AST stays as it was |
| `Ast.BaseAst.NewNode` | src/grammar/ast-base.hpp:227-233 | the address and the new state of the AST, or the error and the old state; a constructor that throws leaves the graph as it was |
| `Ast.BaseAst.SetRoot` | src/tree/ast.cpp:150-155 | a live node becomes the root and the tree nodes are counted; any other is refused |
| `Types.Table.Lookup` | src/tree/eval.hpp:1158-1180 | a name that is found is the name of an entry of the table, with its type; one that is not found is the name of no entry |
| `Types.Table.ExtendsIsReachability` | src/tree/eval.cpp:567-584 | relaxed casts decide the reflexive and transitive closure of the base relation |
| `Types.Table.ExtendsIsTransitive` | src/tree/eval.cpp:567-584 | extension is transitive |
| `Types.Table.CastsAreIsA` | src/tree/eval.cpp:567-584 | a type casts to another exactly when it is that type (strict) or has it on its chain of bases (relaxed); what trees denote and what objects hold is stated with the latter |
| `Bases.WalkAnswers` | src/tree/eval.cpp:571-584 | on any table of bases: the loop says yes exactly when the target is on the chain, no exactly when it is not and the chain ends, reports a cycle exactly when it is not and the chain comes back to its start, and otherwise never ends |
| `Bases.AcyclicEnds` | src/tree/eval.cpp:571-584 | on every acyclic table each chain ends and none comes back, so the loop ends with the right answer |
| `Bases.TypeCast` | src/tree/eval.cpp:567-584 | on any table on which the loop ends, it decides equality (strict) or the reflexive and transitive closure of the base relation (relaxed), or reports the cycle |
| `Types.NodeTypeCast` | src/tree/eval.cpp:567-584 | on the tables of libraries the loop decides whether one type casts to another |
| `Types.ListTypeCast` | src/tree/eval.cpp:586-592 | an element must be a node whose type casts to the base of the list |
| `Types.ObjTypeCast` | src/tree/eval.cpp:602-616 | kinds must agree; nodes and lists cast as their types do, and any C string to any other |
| `Bases.WalkEndsExactlyWhen` | src/tree/eval.cpp:571-583 | the loop ends exactly when one of the first types of the chain, no more than the table has, is the target, has no base, or has the start as its base |
| `Bases.InnerCyclesAreMissed` | src/tree/eval.cpp:579-583 | a table of bases on which the loop never ends, beside one on which it reports the cycle |
| `Types.Finder.Find` | src/tree/eval.hpp:1158-1180 | whatever was looked up before, the cached binary search answers what a linear search would; a failed lookup keeps the cache |
| `Types.CacheIsRight` | src/tree/eval.hpp:1164-1165 | an entry of a strictly sorted table is the one that its name finds |
| `EvalProofs.EvaluationIsProper` | src/tree/eval.cpp:164-183 | no evaluation meets an error of the stack or a type mismatch, only building meets errors of building, and every value carries what its type says |
| `EvalProofs.ProperFields` | src/tree/eval-impl.hpp:112-137 | fields of checked arguments can fail on a C string value only |
| `EvalProofs.TypeCheckForetellsBuild` | src/tree/eval-impl.hpp:52-66 | if building succeeds, type checking gives the same type; if it fails, it fails on a C string value, on a full pool, or with the error of type checking |
| `EvalProofs.MakeNodeForetells` | src/tree/abc/abc.cpp:269-377 | the same for making one node of values of the same types |
| `EvalProofs.MakeListForetells` | src/tree/eval-impl.hpp:159-178 | the same for making one list |
| `EvalProofs.ChecksSeeTypesOnly` | src/tree/eval.cpp:433-462 | the checks of arguments see types and names only, so that they agree in both modes |
| `EvalProofs.StrictResultIsRelaxed` | src/tree/eval.cpp:416-480 | what strict casts accept, relaxed casts accept with the same value and the same pools, in both modes |
| `EvalProofs.NodeErrorsComeInOrder` | src/tree/eval.cpp:353-390 | a node fails with the error of its first argument that fails; its own name is looked up and its arguments are checked only when all evaluate |
| `EvalProofs.ListErrorsComeInOrder` | src/tree/eval.cpp:232-245 | a list fails with the error of its first element that fails, an element out of order before it is evaluated; its base is looked up after that |
| `Elaboration.BuildIsElaboration` | src/tree/eval.cpp:353-390 | building succeeds with an object exactly when the tree denotes it and the pools hold what it takes |
| `Elaboration.MakeNodeIs` | src/tree/eval.cpp:434-462 | a node is made exactly when the count, the names and the casts agree, with each field from the argument of its place in the source |
| `Elaboration.MakeListIs` | src/tree/eval-impl.hpp:159-178 | a list is made exactly when every element casts to its base, with the elements in source order |
| `Elaboration.CheckPasses` | src/tree/eval.cpp:448-458 | the check of arguments passes exactly when every name and every cast agrees |
| `Elaboration.ElemCheckPasses` | src/tree/eval.cpp:474-480 | the check of elements passes exactly when every element is a node that casts to the base |
| `Elaboration.FirstBadArg` | src/tree/eval.cpp:448-458 | the check of arguments fails exactly with the first that has another name, or else a value that does not cast, numbered from 1 |
| `Elaboration.FirstBadElem` | src/tree/eval.cpp:474-480 | the check of elements fails exactly with the first that is no node of the base, numbered from 0 |
| `Elaboration.DenotesOne` | src/tree/eval.cpp:353-390 | a tree denotes at most one object |
| `Elaboration.BuiltIsWellTyped` | src/tree/eval-impl.hpp:112-178 | every node field and every list element, at any depth, has exactly its declared type with strict casts, and a type with the declared one on its chain of bases with relaxed ones |
| `Elaboration.ListIndicesCount` | src/tree/eval.cpp:232-245 | a list evaluates only with the indices 0, 1, 2 and so on in order, and never with more than 256 elements |
| `Addresses.BuiltInTheGraph` | src/tree/eval-impl.hpp:112-178 | building with pointers in an AST never meets an invalid pointer; on success the graph unfolds from the root to the built object and the pools are those of the model without pointers, on failure the error is the same |
| `Addresses.MakeNodeMatches` | src/tree/abc/abc.cpp:269-377 | the same for making one node from pointers that lead to its arguments |
| `Addresses.MakeListMatches` | src/tree/eval-impl.hpp:159-178 | the same for making one list |
| `Addresses.NewMatches` | src/tree/abc/ast.cpp:111-170 | a `new_*` call on live children succeeds when the pools have room, and the new pointer leads to the new object |
| `Addresses.New` | src/grammar/ast-base-impl.hpp:32-79 | on the AST itself: strings are copied, children checked and the node allocated, with the state that the specification gives |
| `Addresses.ShapesDiffer` | src/grammar/ast-base.hpp:227-233 | what the graph unfolds to determines the object |
| `Machine.ObjStack.At` | src/tree/eval.cpp:199-204 | the entry at an index from the top, or the range error |
| `Machine.ObjStack.Pop` | src/tree/eval.cpp:206-212 | drops entries from the top, or reports the size and drops nothing |
| `Machine.ObjStack.NameTop` | src/tree/eval.cpp:320-327 | names the top entry if it has no name, and changes no other |
| `Machine.ObjStack.Result` | src/tree/eval.cpp:221-230 | the only entry when it is a node, and the error that the source reports otherwise |
| `Machine.StackedAt` | src/tree/eval.cpp:454-458 | counting down from the top visits entries in source order |
| `Machine.Maker.CheckNodeArgs` | src/tree/eval.cpp:433-462 | the result of the specified check, and the miscount flag is set exactly by a miscount |
| `Machine.Maker.CheckListArgs` | src/tree/eval.cpp:473-480 | the result of the specified check of elements |
| `Machine.Maker.PopArgs` | src/tree/eval.cpp:482-490 | drops the arguments, unless the flag was set, and always clears the flag |
| `Machine.Maker.NodeFields` | src/tree/eval-impl.hpp:112-137 | reversed indexing reads the fields in the order of the class |
| `Machine.Maker.NewNode` | src/tree/abc/abc.cpp:269-377 | the value and the pools that the specification gives, or its error |
| `Machine.Maker.MakeNode` | src/tree/eval.hpp:1182-1187 | the specified value, pools or error; the arguments leave the stack once the checks have passed, even if building then fails; a stale miscount flag keeps them there |
| `Machine.Maker.ListObjs` | src/tree/eval-impl.hpp:159-169 | the array holds the elements in source order |
| `Machine.Maker.MakeList` | src/tree/eval.hpp:1189-1194 | the specified list, pools or error; the elements leave the stack once the checks have passed, even if building then fails |
| `Machine.Evaluator.VisitLiteral` | src/tree/eval.cpp:284-291 | pushes one unnamed C string |
| `Machine.Evaluator.VisitTreeNode` | src/tree/eval.cpp:382-390 | from any stack, adds exactly one unnamed entry, the value of the node, or fails with the specified error |
| `Machine.Evaluator.VisitListArgs` | src/tree/eval.cpp:366-374 | adds one named entry for each argument, in order, above the untouched rest |
| `Machine.Evaluator.VisitNodeArg` | src/tree/eval.cpp:353-358 | adds the value of the argument under its name |
| `Machine.Evaluator.VisitArgValue` | src/tree/eval.cpp:335-351 | adds the value of a node, a list or a literal |
| `Machine.Evaluator.VisitNodeList` | src/tree/eval.cpp:305-318 | adds exactly one entry, the list |
| `Machine.Evaluator.VisitElems` | src/tree/eval.cpp:232-245 | adds one unnamed entry for each element, or reports the first index out of order |
| `Machine.Evaluator.EvalTree` | src/tree/eval.cpp:220-230 | the value of the root or the first error, equal to the stackless evaluation, and never an error of the stack |
| `Objects.ShowIsPrint` | src/tree/ext-printer.hpp:68-109 | the object printer writes what the terse printer writes for the tree of the object |
| `Objects.TreeDenotes` | src/tree/ext-printer.hpp:96-109 | the tree that an object should read as denotes the object with relaxed casts, lists named by their static type included |
| `Objects.TreeFits` | src/tree/ext-printer.hpp:71-72 | that tree is lexically valid |
| `Objects.ReadObj` | src/tree/ext-printer.hpp:68-109 | whatever tree reads the printed text as the object proves the object sayable, and the text is read to its end |
| `Objects.ShowThenRead` | src/tree/ext-printer.hpp:68-109 | the printed text reads back as the object exactly when its strings are literal bodies and no string stands beside other fields |
| `Objects.BuiltObjectsRoundTrip` | src/tree/eval-impl.hpp:237-254 | whatever was built is built again by what it prints, from as much pool space, exactly under that condition |
| `Abc.FuncsAreSorted` | src/tree/abc/abc.cpp:380-397 | the function table is strictly sorted by `strcmp` |
| `Abc.LibraryIsValid` | src/tree/abc/abc.cpp:52-265 | bases come before what extends them, all references resolve, and the tables are in order |
| `Abc.NamesFindTypes` | src/tree/abc/abc.cpp:250-265 | each name finds the type of that name |
| `Abc.LibraryIsCoherent` | src/tree/abc/abc.cpp:52-265 | both tables agree on names, and names and spellings are lexically valid |
| `Abc.ClassesDiffer` | src/tree/abc/ast.cpp:66-81 | no two classes share a name, so the graph of an AST determines the object built in it |
| `Abc.Kinds` | src/tree/abc/abc.cpp:52-248 | which abc class casts to which, with strict and with relaxed casts |
| `Abc.BoolReads` | src/tree/abc/abc.cpp:44-50 | a `bool` is read from "0" as 0 and from "1" as 1, and from nothing else |
| `Listing.PrintTypes` | src/tree/eval.cpp:802-839 | prints the listing of a type table |
| `Listing.AbcTypes` | src/tree/abc/abc.cpp:52-248 | the abc table is listed line by line as the session of the tests records it |
| `Abc.StringsBesideOthers` | src/tree/abc/abc.cpp:168-172 | `M` is the only class with a string beside other fields |
| `Abc.SayableIsQuotable` | src/tree/abc/printer.cpp:103-112 | an abc object reads back exactly when it holds no `M` and no unsafe string |
| `Abc.AbcRoundTrip` | src/tree/abc/printer.cpp:59-149 | any abc object that was built is built again from its printed text with relaxed casts exactly under that condition |
| `ObjectTexts.TextsAreDistinct` | src/tree/abc/printer.cpp:59-149 | well-typed objects that print the same text are the same object, whatever their strings hold |
| `Abc.ObjectPrinter.PrintNode` | src/grammar/ast-base-printer.hpp:163-167 | visits by class, appends the text of the object, and restores the level |
| `Abc.ObjectPrinter.AttrNode` | src/tree/ext-printer.hpp:71-72 | appends the name of the field and the node |
| `Abc.ObjectPrinter.AttrList` | src/tree/ext-printer.hpp:88-90 | appends the name of the field and the list under its static type |
| `Abc.ObjectPrinter.PrintList` | src/tree/ext-printer.hpp:96-109 | appends the elements in order with their indices |
| `Abc.ObjectPrinter.Repr` | src/grammar/ast-base-printer.hpp:114-125 | appends the raw string between single quotes, without a name |
| `Abc.ObjectPrinter.AttrBool` | src/tree/ext-printer.hpp:36-47 | appends the spelling of the value that the cast of `bool` reads |
| `Abc.ObjectPrinter.VisitEmpty` | src/tree/abc/printer.cpp:59-132 | appends the name and two parentheses |
| `Abc.ObjectPrinter.VisitB` | src/tree/abc/printer.cpp:69-75 | appends the text of a `B` |
| `Abc.ObjectPrinter.VisitC` | src/tree/abc/printer.cpp:77-83 | appends the text of a `C` |
| `Abc.ObjectPrinter.VisitD` | src/tree/abc/printer.cpp:85-89 | appends the text of a `D`, in the literal form |
| `Abc.ObjectPrinter.VisitN` | src/tree/abc/printer.cpp:91-101 | appends the text of an `N` |
| `Abc.ObjectPrinter.VisitM` | src/tree/abc/printer.cpp:103-112 | appends the text of an `M`, its last field without a name |
| `Abc.ObjectPrinter.VisitP` | src/tree/abc/printer.cpp:114-122 | appends the text of a `P` |
| `Abc.ObjectPrinter.VisitL` | src/tree/abc/printer.cpp:134-140 | appends the text of an `L` |
| `Abc.ObjectPrinter.VisitS` | src/tree/abc/printer.cpp:142-148 | appends the text of an `S` |
| `Abc.ObjectPrinter.PrintRoot` | src/tree/ext-printer.hpp:68-69 | a fresh printer writes the text of the whole object and one newline |
| `Pipeline.Run` | src/tree/eval-impl.hpp:237-254 | the parser, the evaluator and the printer together print what parsing, stackless evaluation and the text of objects specify |
| `Pipeline.MadeIs` | src/tree/eval-impl.hpp:237-254 | a run makes an object exactly when its text parses to a tree that denotes the object and the pools hold what it takes |
| `Pipeline.OutputIsFixed` | src/tree/eval-impl.hpp:237-254 | a run on printed text, with relaxed casts and equal pools, prints it again exactly when what was built holds no `M` and no unsafe string |
| `Inputs.UnsafeInput` | src/grammar/ast-base-printer.hpp:114-125 | an input for every string with an unescaped single quote that double quotes can hold: it builds its `D`, and a run on the output does not print the output again |
| `Inputs.CommentSwallowsText` | src/grammar/ast-base-printer.hpp:114-125 | an input for every string that closes a literal and opens a comment: a run on the output builds, without an error, another object, the `D` of what stands before |
| `Inputs.MInput` | src/tree/abc/printer.cpp:103-112 | an input that builds an `M`, whose printed text no tree reads back as the `M` |
| `Inputs.FreshInputs` | src/tree/abc/ast.cpp:49-62 | in a fresh AST of a 64-bit build both kinds of input do build their objects |
| `Inputs.FreshSwallow` | src/tree/abc/ast.cpp:49-62 | in a fresh AST `D("x') #")` prints a text of which a second run makes `D('x')` |
| `Session.BoolPrints` | test/test-abc.sh:46-47 | `S('0')` builds an object that prints as `S(.b='0')` |
| `Session.NoArgs` | test/test-abc.sh:48-50 | `S()` fails for the number of its arguments |
| `Session.WrongField` | test/test-abc.sh:51-53 | `S(.a='0')` fails for the name of its argument |
| `Session.NodeForBool` | test/test-abc.sh:54-56 | `S(.b=A())` fails since a node is no `bool` |
| `Session.StrictNode` | test/test-abc.sh:57-59 | with strict casts `P(.x=A().y=Q())` fails, since its second argument is no `A` |
| `Session.RelaxedNode` | test/test-abc.sh:60-61 | with relaxed casts it builds an object, and prints as itself |
| `Session.StrictList` | test/test-abc.sh:62-67 | with strict casts no list of `R` is a list of `Q`, empty or not |
| `Session.RelaxedList` | test/test-abc.sh:68-71 | with relaxed casts it is, and prints under the name `Q` |
| `Session.WrongElem` | test/test-abc.sh:72-77 | an `A` is no element of a list of `R`, with either casts |

## Left out

- Options, usage text, reading files and the standard input, loading of extension libraries: input is a sequence of characters, and the libraries are type tables.
- The `Printer` and `Dumper` forms of the tree printer, debug dumps and evaluation traces: they only display, and nothing reads them back.
- The cxxpy library: 44 more types of the same shape. Everything about evaluation, and the object printer of `Objects`, is proved for any type table.
- Text of error messages and its truncation to 255 characters: errors are values with their positions; the caret is stated before the truncation.
- Characters are those of the C locale, and the input holds no NUL: a NUL would end a C string where the scanner goes on.
- The order in which C++ evaluates the arguments of one constructor call is unspecified; fields are taken from left to right, and strings are copied before children are checked, which matters only for which of two errors of building comes first.
- Elaboration.BuildIsElaboration: works on objects, without the check of children that `new_*` repeats; `Addresses.BuiltInTheGraph` adds the pointers and shows that the check cannot fail.
- The pools of the tree that the parser builds: parsing never runs out of them in the model.
- Ast.BaseAst.NewNode: whether a constructor throws is an argument, since those of the source do not.
- A C string type that extends another (`cptr_type_t::list_type_cast`): no library has lists of C strings.
- Numbers.ParseNum: a text holds no NUL, and `errno` becomes the kind of the error.
- Types.NodeTypeCast: the table numbers bases before the types that extend them, as the tables of both libraries do; `Bases.TypeCast` covers all other tables.
- Line and column counts, sizes and lengths are unbounded, except in `Pool.PoolAllocator`, whose arithmetic is that of a 64-bit machine.
- `list<T>` allocation does not model the overflow of `sizeof(T) * n`: a list has at most 256 elements.
- Node iterators, `ResultCast`, `eq_t`, `cmp_t`, the visitor and cast boilerplate, moves and copies: dispatch is a match on a datatype.
