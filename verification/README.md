# Xenolith, modelled

Xenolith is an XML toolkit: an XPath 1.0 engine, an XSLT 1.0 processor and the core they stand on. This
project models the parts of it where a clever implementation has to agree with a simple definition, and
proves that it does, over all trees, strings and runs.

- **Trees and axes** (`Xdm`, `Numbering`, `Axes`, `AxisWalks`). Trees of seven node kinds, nodes by
  address, document order numbered once per tree, and the thirteen axes: defined by a relation between
  addresses and computed by walks.
- **XPath** (`Eval`, `Positions`, `XPathAst`, `XPathLexer`, `XPathParser`, `XPathPrinter`, `XPathSpelling`,
  `XPathRoundTrip`, `XPathCanonical`, `XPathGrammar`, `XPathShortText`). Paths, steps and filters over an
  arbitrary world of documents and predicates, and what positions mean; the tokens, the parser and the
  printer, and the exact round trip between text and trees, for the printer's long spelling and for the
  short one with abbreviations and few parentheses.
- **XSLT patterns and rules** (`Pattern`, `NodeTests`, `Rules`). Matching right to left against the forward
  definition of section 5.2 of XSLT 1.0, what node tests let through and which of them is preferred, and the
  rule index against the exhaustive scan.
- **The XSLT engine** (`Stylesheets`, `ResultTree`, `XsltMeaning`, `XsltLaws`, `XsltEquations`, `XsltIdentity`,
  `XsltStates`, `XsltEngine`).
  What a stylesheet means, as a function from source to result tree that hands its context down and
  has nothing to undo; the engine, which pushes, pops and numbers nodes, proved to compute just that for
  every stylesheet and source and whatever expressions, numbers, sorting and the choice of a rule answer;
  and laws of the meaning itself: what bounds a run, what every instruction comes to, and that the identity
  stylesheet means the source.
- **Import precedence** (`Imports`). Loading a stylesheet's modules and numbering them.
- **Names** (`NamePools`). Pools that share handles through forks.
- **URI references** (`Strings`, `UriPaths`, `Uris`, `UriResolution`, `UriNormalization`). RFC 3986.
- **Calendar and events** (`Calendar`, `Dispatchers`).

Code that changes things step by step is a class or a method with loops here too, proved against a
function over values; the theorems are about those functions. Code made of expressions is functions.
What the source asks of the outside world, predicates, variables, keys, expressions, loaded modules and
the answers of event consumers, are arbitrary functions or parameters.

## Where the code and its promises part

- `id('x y')` as a pattern looks up the whole literal, where the `id()` function splits it at spaces
  (crates/xenolith-xslt/src/pattern.rs:353-398). `Pattern.IdPatternMeaning` says exactly when they agree.
- `xsl:apply-templates` with `xsl:with-param` runs rules without the depth test
  (crates/xenolith-xslt/src/engine.rs:1134-1152). What such a run may then use up is the machine's stack, so
  the model has a number for it: `spare`, the templates there is room for past `max_depth`, after which a
  rule handed parameters fails. `XsltLaws.PassesTheLimitExactly` says when a run gets past `max_depth`,
  `GuardedNeverPasses` that without parameters none does, and `RelentlessPasses` that with them the room is
  the only limit.
- `relativize` is documented to invert `resolve` for every target without dot segments
  (crates/xenolith/src/uri.rs:319-324). For an absolute base that is so exactly when the target has a scheme.
- What `resolve` and `normalize` give can read differently from its text: a path may come to begin with
  two slashes without an authority, or with what looks like a scheme. `UriResolution.ResolvedReadsBack` and
  `UriNormalization.NormalFormReadsBack` say exactly for which references.
- A `Dispatcher` over its limit refuses further events as long as there is a member to ask; once every
  member has finished it answers `Ok` again (`Dispatchers.OkOverTheLimit`).
- `following` from an attribute leaves out the descendants of its element (`AxisWalks.FollowingOfAttribute`).

## Model

| member | source | states |
|---|---|---|
| Xdm.BeforeIsTotalOrder | crates/xenolith-xdm/src/dom.rs:243-257 | Document order, by address, is a strict total order on the nodes of all documents. |
| Numbering.Number | crates/xenolith-xdm/src/dom.rs:243-257 | Walking a subtree gives its nodes consecutive indices from the counter on, in the order element, namespaces, attributes, children, and gives nothing else one. |
| Numbering.PreorderMembers | crates/xenolith-xdm/src/dom.rs:243-257 | The nodes listed for a subtree are exactly the nodes under its top. |
| Numbering.PreorderAscending | crates/xenolith-xdm/src/dom.rs:243-257 | The listing is strictly increasing in document order, so no node has two indices. |
| Numbering.SubtreeIsInterval | crates/xenolith-xdm/src/dom.rs:243-257 | The listing of any subtree is one uninterrupted slice of its document's. |
| Numbering.DomModel.constructor | crates/xenolith-xdm/src/dom.rs:532-538 | A model numbers its own document at once, and shares further documents that are there already with the order they have. |
| Numbering.DomModel.AddRooted | crates/xenolith-xdm/src/dom.rs:166-189 | A document that joins is numbered at once; every node that was there keeps its position, so the order of existing nodes never changes. |
| Numbering.DomModel.DocumentOrder | crates/xenolith-xdm/src/dom.rs:627-637 | Comparing documents and then positions is exactly document order. |
| Numbering.PositionsFollowOrder | crates/xenolith-xdm/src/dom.rs:574-579 | Of two nodes of one document, the one earlier in document order has the smaller position. |
| AxisWalks.PushDescendants | crates/xenolith-xpath/src/axis.rs:58-63 | The recursion appends exactly the descendants of a node, in document order. |
| AxisWalks.Ancestors | crates/xenolith-xpath/src/axis.rs:66-77 | The walk up the parents gives the ancestors, nearest first. |
| AxisWalks.SiblingsAndIndex | crates/xenolith-xpath/src/axis.rs:80-86 | The children of the parent and where the node is among them; nothing for a root, an attribute or a namespace node. |
| AxisWalks.FollowingSiblings | crates/xenolith-xpath/src/axis.rs:38-41 | The slice after the node is the `following-sibling` axis. |
| AxisWalks.PrecedingSiblings | crates/xenolith-xpath/src/axis.rs:42-51 | The slice before the node, reversed, is the `preceding-sibling` axis. |
| AxisWalks.FollowingNodes | crates/xenolith-xpath/src/axis.rs:89-103 | Siblings at every level with all below them, sorted, are the `following` axis. |
| AxisWalks.PrecedingNodes | crates/xenolith-xpath/src/axis.rs:106-120 | The same on the other side, in reverse order, is the `preceding` axis. |
| AxisWalks.Nodes | crates/xenolith-xpath/src/axis.rs:14-55 | For each of the thirteen axes, the walk gives the nodes the axis is defined to reach, in axis order. |
| AxisWalks.FollowingOfAttribute | crates/xenolith-xpath/src/axis.rs:89-103 | From an attribute or namespace node `following` is that of its element, so it misses the element's descendants, though they come after it. |
| Axes.AxesPartition | crates/xenolith-xpath/src/axis.rs:14-120 | Self, ancestor, descendant, preceding and following of a tree node are pairwise disjoint and together are every tree node of its document. |
| Axes.AxisOrder | crates/xenolith-xpath/src/axis.rs:3-7 | Every axis is strictly increasing in document order, or strictly decreasing for the four reverse axes. |
| Eval.Filter | crates/xenolith-xpath/src/eval.rs:235-248 | One predicate keeps the nodes it holds for, each asked with its position and the size. |
| Eval.ApplyPredicates | crates/xenolith-xpath/src/eval.rs:235-248 | Predicates are applied in order, each to what the one before left. |
| Eval.EvalStep | crates/xenolith-xpath/src/eval.rs:214-232 | A step gathers what it selects from every node, normalised to document order without duplicates, or is an error if any of them is. |
| Eval.EvalPath | crates/xenolith-xpath/src/eval.rs:201-211 | A path walks its steps from its start, as the function `NodesOf` says. |
| Eval.SplicingPreservesMeaning | crates/xenolith-xpath/src/parser.rs:148-157 | `(P)/Q` spliced into one path gives the node sequence of the unspliced tree, for every world and context. |
| Eval.FoldingPreservesMeaning | crates/xenolith-xpath/src/parser.rs:299-308 | `((E)[p])[q]` folded into one filter gives the node sequence of the unfolded tree. |
| Eval.PathsAreInDocumentOrder | crates/xenolith-xpath/src/eval.rs:201-265 | A path with at least one step yields a strictly document-ordered sequence, without duplicates. |
| Eval.TokensArePartedByWhitespace | crates/xenolith-xpath/src/functions.rs:267-286 | A text without whitespace is one token for `id()`, and any whitespace parts the tokens before it from those after it. |
| Positions.KeptAreThose | crates/xenolith-xpath/src/eval.rs:251-263 | A predicate is asked of every node with its place, from one to the size of the list; what it holds of is kept, in the order it had. |
| Positions.KeptExactly | crates/xenolith-xpath/src/eval.rs:251-263 | In a list without repetitions a node is kept if and only if the predicate holds of it at its own place. |
| Positions.KeptAt | crates/xenolith-xpath/src/eval.rs:251-263 | `[k]` keeps the k-th node, counting from one, or none where there are fewer. |
| Positions.KeptLast | crates/xenolith-xpath/src/eval.rs:251-263 | `[last()]` keeps the last node. |
| Positions.PredicatesInTurn | crates/xenolith-xpath/src/eval.rs:235-248 | A second predicate counts anew in what the first left. |
| Positions.CandidatesAlongAxis | crates/xenolith-xpath/src/eval.rs:214-232 | What the predicates of a step count are all the nodes of the axis that pass its test, nearest first. |
| Positions.FirstIsNearest | crates/xenolith-xpath/src/eval.rs:214-232 | With `[1]` a step selects the nearest node that passes: on a reverse axis the last in the document. |
| Positions.LastIsFarthest | crates/xenolith-xpath/src/eval.rs:214-232 | With `[last()]` it selects the farthest. |
| Positions.FilterCountsInDocumentOrder | crates/xenolith-xpath/src/eval.rs:235-248 | A filter over an expression counts in document order, whichever way the expression came by its nodes. |
| Positions.UnionIsBoth | crates/xenolith-xpath/src/eval.rs:51-70 | A union holds exactly what either side does, in document order, and fails if either side does. |
| NodeTests.KindsAreTested | crates/xenolith-xpath/src/eval.rs:269-306 | Which kinds of thing each test lets through, `*` following the kind of node its axis is about. |
| NodeTests.WildcardIsSomeName | crates/xenolith-xpath/src/eval.rs:283-294 | `p:*` lets a node through if and only if some `p:local` does. |
| NodeTests.StarIsSomeName | crates/xenolith-xpath/src/eval.rs:283-294 | `*` lets a node through if and only if some name does, with one prefix or another bound. |
| NodeTests.NamesAreExpanded | crates/xenolith-xpath/src/eval.rs:288-294 | Two names let the same node through if and only if they are the same expanded name; without a prefix the name is in no namespace. |
| NodeTests.OnlyUnboundPrefixesRaise | crates/xenolith-xpath/src/eval.rs:269-316 | A test raises if and only if its prefix is not bound and the node is of the kind names are tested on. |
| Pattern.PatternSteps | crates/xenolith-xslt/src/pattern.rs:548-575 | The loop over a path's steps folds `//` into a mark on the step after it, and refuses the axes a pattern may not use. |
| Pattern.DescendsFrom | crates/xenolith-xslt/src/pattern.rs:413-426 | The walk up the parents answers whether a node is at or below another. |
| Pattern.TestAnchor | crates/xenolith-xslt/src/pattern.rs:373-398 | What a pattern is anchored to holds of a node as `AnchorHolds` says, for the root, `id()` and `key()`. |
| Pattern.MatchFrom | crates/xenolith-xslt/src/pattern.rs:318-351 | Matching right to left: the step tests the node, and the steps to its left test its parent or search its ancestors. |
| Pattern.SearchAncestors | crates/xenolith-xslt/src/pattern.rs:318-351 | After `//`, the first ancestor that matches ends the search, and an error on the way ends it too. |
| Pattern.BackwardIsForward | crates/xenolith-xslt/src/pattern.rs:301-488 | Walking steps forward from a set of nodes and matching their pattern backward agree on every node, for any mix of `/`, `//` and predicates. |
| Pattern.AnchorMeaning | crates/xenolith-xslt/src/pattern.rs:353-398 | A pattern without steps matches exactly the nodes its anchor selects, for the root, `id()` and `key()`. |
| Pattern.PatternMeaning | crates/xenolith-xslt/src/pattern.rs:301-488 | Section 5.2 of XSLT 1.0: with prefixes bound and predicates total, a node matches exactly when evaluating the pattern forward from some ancestor-or-self selects it. |
| Pattern.IdAgreesExactly | crates/xenolith-xslt/src/pattern.rs:353-398 | An `id()` anchor selects what the `id()` function does if and only if the whole literal finds just the element its tokens find, or neither finds any. |
| Pattern.FindTheSameForTokens | crates/xenolith-xslt/src/pattern.rs:353-398 | Where only tokens name elements, that is so exactly when the literal is one token or none of its tokens names an element. |
| Pattern.IdPatternMeaning | crates/xenolith-xslt/src/pattern.rs:353-398 | In every world, an `id()` pattern means what section 5.2 says on every node if and only if that condition holds. |
| Pattern.IdPathMeaning | crates/xenolith-xslt/src/pattern.rs:301-398 | With steps after `id()`, the pattern matches what walking them from the one element reaches, and section 5.2 selects what walking them from all of them does. |
| Pattern.TwoIdsInAPattern | crates/xenolith-xslt/src/pattern.rs:353-398 | `id('x y')` selects an element as an expression and matches no node as a pattern. |
| NodeTests.NarrowerIsPreferred | crates/xenolith-xslt/src/pattern.rs:581-596 | Of two tests on one axis, the one that lets through no more nodes, in any documents, never has the lower default priority, as long as it lets through any. |
| NodeTests.StrictlyNarrowerIsStrictlyPreferred | crates/xenolith-xslt/src/pattern.rs:581-596 | Among names, and among processing instructions, letting through strictly less is a strictly higher priority. |
| NodeTests.MoreThanATestIsPreferred | crates/xenolith-xslt/src/pattern.rs:581-596 | Whatever is more than a single test has priority 0.5, above every single test. |
| Rules.BuildIndex | crates/xenolith-xslt/src/stylesheet.rs:116-136 | Each rule is filed in the bucket of its reach and in no other, in order. |
| Rules.ReachIsNecessary | crates/xenolith-xslt/src/pattern.rs:242-275 | A node that an alternative matches is always within the alternative's reach, so the index never skips a match. |
| Rules.BestIsUnique | crates/xenolith-xslt/src/stylesheet.rs:1203-1225 | There is one best rule, whatever order rules are visited in and however many times. |
| Rules.BestOfGroup | crates/xenolith-xslt/src/stylesheet.rs:638-675 | Testing one bucket keeps the best of all rules seen. |
| Rules.BestTemplate | crates/xenolith-xslt/src/stylesheet.rs:638-675 | The rule chosen applies, and of those that apply none has a greater precedence, none of that precedence a greater priority, and none of both stands later; there is none exactly where none applies. For rules read from patterns, and when no match raises, it is the exhaustive scan's choice. |
| Rules.BestIsRight | crates/xenolith-xslt/src/stylesheet.rs:1200-1206 | The best of the rules that may be chosen, by their fields: none has a greater precedence, none of that precedence a greater priority, and none of both stands later; none is best only where none may be chosen. |
| Rules.ExhaustiveScan | crates/xenolith-xslt/src/stylesheet.rs:1358-1381 | The exhaustive scan gives the best of all rules that apply. |
| XPathLexer.Lexer.SkipSpace | crates/xenolith-xpath/src/lexer.rs:187-191 | The cursor moves past whitespace and nothing else. |
| XPathLexer.Lexer.ReadNcname | crates/xenolith-xpath/src/lexer.rs:362-379 | The longest run of name characters after a name start, or an error. |
| XPathLexer.Lexer.ReadQName | crates/xenolith-xpath/src/lexer.rs:347-360 | A name, a prefixed name or `prefix:*`; a `::` does not continue a name. |
| XPathLexer.Lexer.ReadLiteral | crates/xenolith-xpath/src/lexer.rs:258-267 | The text up to the matching quote, or an error if it is never closed. |
| XPathLexer.Lexer.ReadNumber | crates/xenolith-xpath/src/lexer.rs:269-286 | Digits with or without a fraction, as the shortest numeral of the same value. |
| XPathLexer.OnlyZerosAreDropped | crates/xenolith-xpath/src/lexer.rs:269-286 | Of a number's digits only zeros at the very beginning and the very end go, and `.5` is `0.5`. |
| XPathLexer.Lexer.ReadName | crates/xenolith-xpath/src/lexer.rs:299-343 | Which token a name is, by what precedes and what follows it (section 3.7 of XPath 1.0). |
| XPathLexer.Lexer.ReadPair | crates/xenolith-xpath/src/lexer.rs:198-214 | The two-character tokens are tried before their one-character prefixes. |
| XPathLexer.Lexer.ReadToken | crates/xenolith-xpath/src/lexer.rs:198-234 | The next token and how far it reaches are what `NextToken` says. |
| XPathLexer.Lexer.Run | crates/xenolith-xpath/src/lexer.rs:145-157 | The tokens of a whole expression are what `Tokenize` says, or there are none. |
| XPathLexer.SpaceMakesNoDifference | crates/xenolith-xpath/src/lexer.rs:187-191 | Blanks, tabs and line ends before a token make no difference. |
| XPathParser.Parser.ReadBinary | crates/xenolith-xpath/src/parser.rs:96-112 | One left-associative level: operands of the next level joined for as long as the level's operators follow. |
| XPathParser.Parser.ReadOperator | crates/xenolith-xpath/src/parser.rs:102-108 | The first operator of the level's table that is next, consumed. |
| XPathParser.Parser.ReadUnary | crates/xenolith-xpath/src/parser.rs:114-119 | Unary minus, which binds looser than union. |
| XPathParser.Parser.ReadUnion | crates/xenolith-xpath/src/parser.rs:121-128 | Paths joined by `\|`. |
| XPathParser.Parser.ReadPath | crates/xenolith-xpath/src/parser.rs:133-159 | A location path, or a filter continued by steps that are spliced into a path. |
| XPathParser.Parser.ReadLocationPath | crates/xenolith-xpath/src/parser.rs:169-181 | `//`, `/` with or without steps, or relative steps. |
| XPathParser.Parser.ReadSteps | crates/xenolith-xpath/src/parser.rs:184-196 | Steps separated by `/` or `//`. |
| XPathParser.Parser.ReadStep | crates/xenolith-xpath/src/parser.rs:215-239 | An abbreviated step, or axis, node test and predicates; no axis is the child axis. |
| XPathParser.Parser.ReadTest | crates/xenolith-xpath/src/parser.rs:241-279 | The node test, with an optional target for a processing instruction. |
| XPathParser.Parser.ReadPredicates | crates/xenolith-xpath/src/parser.rs:282-289 | The predicates that follow, in order. |
| XPathParser.Parser.ReadFilter | crates/xenolith-xpath/src/parser.rs:299-309 | A primary expression with its predicates, folded into a filter it already is. |
| XPathParser.Parser.ReadPrimary | crates/xenolith-xpath/src/parser.rs:311-342 | A variable, literal, number, parenthesised expression or call. |
| XPathParser.Parser.ReadArguments | crates/xenolith-xpath/src/parser.rs:345-358 | The arguments of a call, up to the closing parenthesis. |
| XPathParser.Parser.Run | crates/xenolith-xpath/src/parser.rs:29-39 | A tree only if every token is accounted for. |
| XPathParser.Compile | crates/xenolith-xpath/src/parser.rs:29-39 | Tokens and then the tree they spell. |
| XPathPrinter.Formatter.WriteExpr | crates/xenolith-xpath/src/ast.rs:343-388 | The formatter writes what `Print` says, with parentheses only where a subexpression would not read as one piece. |
| XPathPrinter.Formatter.EmbeddedText | crates/xenolith-xpath/src/ast.rs:337-340 | A subexpression is parenthesised when its text ends with `/` or begins with `-`. |
| XPathPrinter.Formatter.WritePath | crates/xenolith-xpath/src/ast.rs:193-212 | A path's start and its steps, with a separator before each step that needs one. |
| XPathPrinter.Formatter.WriteStep | crates/xenolith-xpath/src/ast.rs:163-169 | Axis, node test and predicates. |
| XPathSpelling.PrintedIsTokenized | crates/xenolith-xpath/src/lexer.rs:126-134 | The text of a canonical tree is tokenised into exactly the tokens the tree is written with, although `*`, `div`, names and `/` mean what their neighbours make them mean. |
| XPathRoundTrip.ExprReads | crates/xenolith-xpath/src/parser.rs:91-112 | The tokens of a canonical tree parse to that tree and leave what follows. |
| XPathRoundTrip.PrintedParses | crates/xenolith-xpath/src/ast.rs:337-386 | For every canonical tree, parsing its printed text gives the tree back. |
| XPathCanonical.TokensAreSound | crates/xenolith-xpath/src/lexer.rs:198-234 | Every token is one that can be written down: names are names, literals lack one kind of quote, numbers are shortest. |
| XPathCanonical.ParsedIsCanonical | crates/xenolith-xpath/src/parser.rs:92-358 | Every tree the parser returns is canonical: no filter of a filter, no path started by a path, steps wherever there is something to walk from. |
| XPathCanonical.ParsePrintParse | crates/xenolith-xpath/src/ast.rs:337-386 | Printing what was parsed and parsing that again gives the same tree. |
| XPathCanonical.CanonicalIsParsed | crates/xenolith-xpath/src/parser.rs:92-358 | The canonical trees are exactly those the parser returns. |
| XPathGrammar.SpelledContinues | crates/xenolith-xpath/src/parser.rs:96-128 | Where an expression of some level is due, one that binds less tightly is read in parentheses and any other without; what follows then continues it at that level, joining from the left. |
| XPathGrammar.StepIsRead | crates/xenolith-xpath/src/parser.rs:215-239 | A step spelled with no axis for `child`, `@` for `attribute`, `.` for `self::node()` and `..` for `parent::node()` is read as that step. |
| XPathGrammar.SlashedAreRead | crates/xenolith-xpath/src/parser.rs:184-196 | Steps spelled with `//` in place of a `descendant-or-self::node()` before another step are read as those steps. |
| XPathGrammar.ShortestIsRead | crates/xenolith-xpath/src/parser.rs:91-358 | Every canonical tree, spelled in tokens with all of these abbreviations, in its predicates and arguments too, and with parentheses only where the grammar calls for them or a lone `/` is an operand, is read back as that tree. |
| XPathShortText.ShortIsParsed | crates/xenolith-xpath/src/parser.rs:29-39 | The same as text: what is typed by hand for a canonical tree, the names of axes, operators and node types written out independently of the printer, parses to that tree. |
| XPathShortText.NameIsChild | crates/xenolith-xpath/src/parser.rs:228-236 | A name alone, even `or` or `div`, is a step to the children of that name. |
| XPathShortText.DoubledSlashIsParsed | crates/xenolith-xpath/src/parser.rs:169-173 | `//p:a` is what is named so anywhere below the root, for every name. |
| XPathShortText.ParentIsParsed | crates/xenolith-xpath/src/parser.rs:215-239 | `../@a` is an attribute of the parent, for every name. |
| ResultTree.AppendKeepsShape | crates/xenolith-xslt/src/engine.rs:1552-1556 | Appending a detached node to an older open one keeps the result a forest in which parents and children agree. |
| ResultTree.TextIsTextUnder | crates/xenolith-xslt/src/engine.rs:1474-1481 | The text the result document gives for a node is the text of the tree that node stands for. |
| ResultTree.TreeStays | crates/xenolith-xslt/src/engine.rs:1552-1556 | While one node gains content, every tree that node is no part of stays as it was. |
| XsltStates.KeptInside | crates/xenolith-xslt/src/engine.rs:1216-1233 | What goes on inside a node created meanwhile leaves every older node but the open one untouched. |
| XsltStates.StaysOpenable | crates/xenolith-xslt/src/engine.rs:938-955 | What a call leaves behind keeps the fragments variables hold apart from every node still being filled. |
| XsltEngine.Engine.ApplyRules | crates/xenolith-xslt/src/engine.rs:645-656 | Applies the matching rule, or the built-in one, or fails at the limit: content, bindings, messages and outcome are those of `XsltMeaning.Apply`, and depth, open nodes, scopes, attribute sets in use and current rule are put back on success and on error. The measure is remaining depth, unused attribute sets, body size, height of the source subtree. |
| XsltEngine.Engine.RunRule | crates/xenolith-xslt/src/engine.rs:664-678 | A matched rule is the current one for just as long as its body runs, one level deeper and with the parameters it was given, whatever the outcome. |
| XsltEngine.Engine.GoDeeper | crates/xenolith-xslt/src/engine.rs:664-678 | The depth is one more while a template runs and what it was afterwards, and a template is entered only where there is room for it. |
| XsltEngine.Engine.ApplyImported | crates/xenolith-xslt/src/engine.rs:685-709 | `xsl:apply-imports` keeps node and mode, reaches below the current rule's precedence, and fails without a current rule or at the limit. |
| XsltEngine.Engine.RunBuiltIn | crates/xenolith-xslt/src/engine.rs:715-729 | The root and elements pass on to their unstripped children, text and attributes give their characters, the rest nothing. |
| XsltEngine.Engine.ApplyToEach | crates/xenolith-xslt/src/engine.rs:732-737 | Every node in turn, knowing its position and the size of the list, up to the first error; the whole amounts to the contents in that order. |
| XsltEngine.Engine.RunTemplate | crates/xenolith-xslt/src/engine.rs:740-751 | The body runs in a scope that holds the parameters; the bindings afterwards are those before. |
| XsltEngine.Engine.RunBody | crates/xenolith-xslt/src/engine.rs:757-763 | The nodes of a body in order, each seeing what those before it bound; the open node gains exactly their contents in that order. |
| XsltEngine.Engine.RunNode | crates/xenolith-xslt/src/engine.rs:766-800 | Every node of a body terminates and does exactly what its meaning says: the tree of the open node, the bindings and the messages, and nothing else. |
| XsltEngine.Engine.RunInstruction | crates/xenolith-xslt/src/engine.rs:808-835 | The same for every instruction; the text of `xsl:number` is an oracle's. |
| XsltEngine.Engine.RunIf | crates/xenolith-xslt/src/engine.rs:868-874 | The body when the test is true, nothing when it is not, an error when it raises. |
| XsltEngine.Engine.RunForEach | crates/xenolith-xslt/src/engine.rs:877-882 | The selected nodes, stripped and sorted, each with a turn of the body; anything but a node-set is an error. |
| XsltEngine.Engine.TakeTurns | crates/xenolith-xslt/src/engine.rs:882-892 | The body once per node, each turn in a scope of its own with its own position; no turn sees what another bound. |
| XsltEngine.Engine.ChooseBranch | crates/xenolith-xslt/src/engine.rs:1092-1116 | The first branch whose test holds, tests after it not evaluated, or else the last `xsl:otherwise`. |
| XsltEngine.Engine.RunApplyTemplates | crates/xenolith-xslt/src/engine.rs:1118-1154 | Parameters first, then the selected nodes or the children, stripped and sorted; without parameters each goes to its rule by the guarded way, with parameters by the other. |
| XsltEngine.Engine.HandToEach | crates/xenolith-xslt/src/engine.rs:1134-1154 | Each node's rule is handed the same parameters, though what ran before may have added to the result; the built-in rules are handed none, and the depth is not tested. |
| XsltEngine.Engine.Call | crates/xenolith-xslt/src/engine.rs:1156-1173 | `xsl:call-template` evaluates its parameters where it stands, then runs the template one level deeper, the current rule staying what it was; an unknown name or the limit is an error. |
| XsltEngine.Engine.WithParams | crates/xenolith-xslt/src/engine.rs:1176-1192 | The parameters in order, each later one seeing what the earlier ones left; their fragments are new and hold the trees the meaning gives. |
| XsltEngine.Engine.Bind | crates/xenolith-xslt/src/engine.rs:1195-1207 | A declaration adds one binding to the innermost scope; a parameter that was supplied keeps its value, its default unevaluated. |
| XsltEngine.Engine.DeclaredValue | crates/xenolith-xslt/src/engine.rs:1216-1233 | The value of the expression, or the text of content run into a fragment of its own, with that fragment's tree. |
| XsltEngine.Engine.CapturedText | crates/xenolith-xslt/src/engine.rs:1474-1481 | Content run for its text puts nothing into the open node. |
| XsltEngine.Engine.Say | crates/xenolith-xslt/src/engine.rs:1410-1418 | The text is added to the messages, or the run stops. |
| XsltEngine.Engine.OpenElement | crates/xenolith-xslt/src/engine.rs:1274-1289 | One new element joins the open node, holding what its attribute sets and then its body put into it. |
| XsltEngine.Engine.BuildAttribute | crates/xenolith-xslt/src/engine.rs:1292-1312 | An attribute goes to the open element, or is an error where none is open. |
| XsltEngine.Engine.BuildLiteral | crates/xenolith-xslt/src/engine.rs:1504-1549 | A literal element, though it joins the result only after its attributes are on it, comes to the same tree: sets, then written attributes, then the body. |
| XsltEngine.Engine.UseAttributeSets | crates/xenolith-xslt/src/engine.rs:1421-1452 | The named sets in order, onto the target; one in use already, or without declarations, is an error, and the sets in use are restored on every return. |
| XsltEngine.Engine.ApplyAttributeSets | crates/xenolith-xslt/src/engine.rs:1458-1468 | Every declaration of a set, the sets it uses going before its own attributes, all on the one target. |
| XsltEngine.Engine.CopyNode | crates/xenolith-xslt/src/engine.rs:1315-1333 | `xsl:copy`: the root runs the body, an element is made again and filled by it, anything else is copied and its body not run. |
| XsltEngine.Engine.CopyDeep | crates/xenolith-xslt/src/engine.rs:1336-1372 | The walk over the source model builds the same trees as structural recursion over the source tree; an attribute needs an open element. |
| XsltEngine.Engine.CopyFragment | crates/xenolith-xslt/src/engine.rs:961-967 | The open node gains the trees of the fragment's children, and the fragment stays as it was. |
| XsltEngine.Engine.Clone | crates/xenolith-xslt/src/engine.rs:961-967 | The copy is a detached tree of new nodes equal to the original; nothing that was there changes. |
| XsltEngine.Engine.CopySelected | crates/xenolith-xslt/src/engine.rs:912-935 | A variable's fragment, the selected nodes in order, or a string. |
| XsltEngine.Engine.BindGlobals | crates/xenolith-xslt/src/engine.rs:1580-1620 | The global scope is what evaluating the unshadowed declarations in order gives, a supplied parameter not evaluating its default; every declared name is bound. |
| XsltStates.EveryGlobalIsBound | crates/xenolith-xslt/src/engine.rs:1597-1618 | Skipping shadowed declarations leaves no declared name without a value. |
| XsltEngine.Engine.Transform | crates/xenolith-xslt/src/engine.rs:473-513 | For every stylesheet, with whatever expressions, numbers, sorting and choice of rules answer, a run fails exactly when the meaning of the stylesheet does, and otherwise returns a result document whose tree is that meaning, with its messages; and the greatest depth of the run, failed or not, is the one the meaning records. |
| XsltLaws.LimitOnlyCutsOff | crates/xenolith-xslt/src/engine.rs:645-656 | Raising `max_depth`, or the room there is, changes no successful run: same result tree, same log. |
| XsltLaws.PassesTheLimitExactly | crates/xenolith-xslt/src/engine.rs:1134-1152 | Of every stylesheet and source: a run gets deeper than `max_depth` if and only if, at that depth or deeper, an `xsl:apply-templates` with parameters enters a rule for one of its nodes; and never deeper than there is room for. |
| XsltLaws.GuardedNeverPasses | crates/xenolith-xslt/src/engine.rs:645-751 | Where no `xsl:apply-templates` carries `xsl:with-param`, the depth of a run never exceeds `max_depth`, whether it succeeds or fails. |
| XsltLaws.HandedIsEntered | crates/xenolith-xslt/src/engine.rs:1134-1152 | A rule that matches and is handed parameters is entered at whatever depth, for as long as there is room; beyond that nothing is entered. |
| XsltLaws.RelentlessPasses | crates/xenolith-xslt/src/engine.rs:1134-1152 | A stylesheet whose one rule applies itself with a parameter goes as deep as there is room, whatever `max_depth` is. |
| XsltLaws.NoRulesMeanTheText | crates/xenolith-xslt/src/engine.rs:715-737 | With no rules and no variables, and nothing stripped, a run succeeds and the text of its result is the text of the source. |
| XsltLaws.BuiltInCopiesText | crates/xenolith-xslt/src/engine.rs:715-737 | The built-in rules put only text nodes into the result, and their text is that of the subtree. |
| XsltLaws.AttributesStand | crates/xenolith-xslt/src/engine.rs:1504-1549 | Of the values an attribute is given, the body's stands over the written one, the last written over earlier ones and over the attribute sets, and a set's stands only where neither gives one. |
| XsltLaws.UsesNeverReturn | crates/xenolith-xslt/src/engine.rs:1421-1452 | Where attribute sets are applied without error, no chain of uses from them comes back to a set, or reaches one already in use. |
| XsltLaws.SetUsingItselfFails | crates/xenolith-xslt/src/engine.rs:1435-1438 | A set that uses itself, however far around, is an error wherever it is used, whatever the expressions do. |
| XsltEquations.FirstTrueBranchRuns | crates/xenolith-xslt/src/engine.rs:1092-1116 | `xsl:choose` runs the first branch whose test counts as true, by the value's own kind; the tests after it are not evaluated. |
| XsltEquations.RaisingTestFails | crates/xenolith-xslt/src/engine.rs:1092-1116 | A test that raises before one holds is an error. |
| XsltEquations.OtherwiseRuns | crates/xenolith-xslt/src/engine.rs:1092-1116 | Where no test holds the last `xsl:otherwise` runs. |
| XsltEquations.NothingIsChosen | crates/xenolith-xslt/src/engine.rs:1092-1116 | Where no test holds and there is no `xsl:otherwise`, nothing happens. |
| XsltEquations.IfIsChoose | crates/xenolith-xslt/src/engine.rs:868-874 | `xsl:if` is `xsl:choose` with one branch: its body on a true value, nothing on a false one, an error when the test raises. |
| XsltEquations.TurnsAreAll | crates/xenolith-xslt/src/engine.rs:877-892 | Turns of a body succeed when each does: each has its node, its place counting from one, the same scopes and a new empty one; their contents follow in order. |
| XsltEquations.RulesAreAll | crates/xenolith-xslt/src/engine.rs:732-737 | Rules applied to a list succeed when each does, with its node, its place counting from one, the mode and the same scopes; their contents follow in order. So too where they are handed parameters. |
| XsltEquations.ChildrenByDefault | crates/xenolith-xslt/src/engine.rs:1118-1154 | Without `select`, rules are applied to the children that are not stripped, in the mode named. |
| XsltEquations.SelectedNodesOnly | crates/xenolith-xslt/src/engine.rs:1118-1154 | With `select` it is the nodes selected, in the order the sorts ask for; anything but nodes, and a sort that raises, is an error, for `xsl:for-each` too. |
| XsltEquations.VariableIsSeen | crates/xenolith-xslt/src/engine.rs:1195-1207 | What a variable is bound to is seen by the instructions after it in the same body. |
| XsltEquations.HandedParametersAreSeen | crates/xenolith-xslt/src/engine.rs:1134-1152 | The body of a rule sees the parameters it is handed, in a scope inside those of the place it was handed them. |
| XsltEquations.HandedParameterStands | crates/xenolith-xslt/src/engine.rs:1195-1207 | A parameter that was handed on keeps its value; any other is bound as a variable is. |
| XsltEquations.FragmentIsCopied | crates/xenolith-xslt/src/engine.rs:912-967 | `xsl:copy-of` of a variable made from content puts what that content built. |
| XsltEquations.TextIsWhatIsMade | crates/xenolith-xslt/src/engine.rs:895-909 | A comment, a processing instruction, an attribute and a message consist of the text of what their body builds, and nothing else of it; an attribute needs an open element. |
| XsltEquations.FallbacksStandInstead | crates/xenolith-xslt/src/engine.rs:983-1001 | An unknown instruction comes to its fallbacks, one after the other, as if they stood in its place; without one it is an error. |
| XsltEquations.TextsAreNodes | crates/xenolith-xslt/src/engine.rs:766-800 | Text of a template becomes a text node: always in `xsl:text`, elsewhere unless it is all whitespace. |
| XsltEquations.NumberIsText | crates/xenolith-xslt/src/engine.rs:1625-1660 | `xsl:number` writes the number its specification comes to, or fails with it. |
| XsltEquations.AttributesGiveTheirValue | crates/xenolith-xslt/src/engine.rs:715-729 | Where no rule matches, an attribute gives its value as text and a namespace node nothing. |
| XsltEquations.ElementsAreAlike | crates/xenolith-xslt/src/engine.rs:1274-1289 | `xsl:element`, and `xsl:copy` on an element, come to the literal element of that name with those attribute sets and that body; `xsl:copy` on the root to the body. |
| XsltEquations.GlobalsStand | crates/xenolith-xslt/src/engine.rs:1580-1620 | Where top-level variables are given by expressions, a name ends up with the value of the last of its declarations of highest precedence: the supplied value of a parameter, or what its expression gives where the variables before it are seen. |
| XsltEquations.ImportsAreBelowTheRule | crates/xenolith-xslt/src/engine.rs:685-709 | `xsl:apply-imports` in a rule asks for the same node and mode below that rule's precedence. |
| XsltEquations.CallKeepsTheRule | crates/xenolith-xslt/src/engine.rs:1156-1173 | In a named template `xsl:apply-imports` reaches below the rule that called it. |
| XsltIdentity.CopyKeepsText | crates/xenolith-xslt/src/engine.rs:1336-1372 | A deep copy has the text of what it is a copy of. |
| XsltIdentity.NodesAreCopied | crates/xenolith-xslt/src/engine.rs:912-935 | `xsl:copy-of` of nodes copies each whole, in order; it fails if and only if an attribute is among them and no element is open. |
| XsltIdentity.NodeIsCopied | crates/xenolith-xslt/src/engine.rs:1315-1333 | The rule that copies a node and applies rules to what is in it makes of any node a deep copy, when there is depth for it. |
| XsltIdentity.IdentityMeansTheSource | crates/xenolith-xslt/src/engine.rs:473-513 | Of any source tree the identity stylesheet makes that tree: names, attributes, text, comments and processing instructions, in order. |
| NamePools.NamePool.constructor | crates/xenolith/src/name.rs:150-158 | A new pool holds the reserved names, owned by the root. |
| NamePools.NamePool.Fork | crates/xenolith/src/name.rs:188-196 | A fork holds its parent's names, and its lineage says which pool each came from. |
| NamePools.NamePool.Intern | crates/xenolith/src/name.rs:204-216 | A known name gives its handle and changes nothing; a new one joins at the end, unless the pool is full. |
| NamePools.NamePool.Get | crates/xenolith/src/name.rs:220-222 | The handle of a name that has been interned. |
| NamePools.NamePool.Owns | crates/xenolith/src/name.rs:227-229 | Whether the pool resolves a handle. |
| NamePools.NamePool.Resolve | crates/xenolith/src/name.rs:235-237 | The string of a handle the pool owns. |
| NamePools.PoolIds.Take | crates/xenolith/src/name.rs:305-314 | Identities count up from 2. |
| NamePools.Interned | crates/xenolith/src/name.rs:204-237 | The handle interning gives is owned and resolves to the name; only a full pool refuses a new name. |
| NamePools.HandlesAreNames | crates/xenolith/src/name.rs:220-237 | Within one pool handles are equal exactly when their strings are. |
| NamePools.ForkKeepsOrigins | crates/xenolith/src/name.rs:188-258 | A fork gives every inherited name the handle its parent gives it. |
| NamePools.SameHandleSameString | crates/xenolith/src/name.rs:187-258 | After any interleaving of `new`, `fork` and `intern`, two pools that own a handle resolve it to the same string. |
| NamePools.ForkKeepsHandles | crates/xenolith/src/name.rs:187-237 | A fork owns exactly its parent's handles, and whatever happens later they mean the same in both. |
| NamePools.LaterHandlesAreNotShared | crates/xenolith/src/name.rs:187-237 | A handle a pool issues from some moment on is never owned by another pool that existed then. |
| UriPaths.RemoveDots | crates/xenolith/src/uri.rs:574-604 | The loop of section 5.2.4 of RFC 3986 terminates and computes `RemoveDotSegments`. |
| UriPaths.PopSegment | crates/xenolith/src/uri.rs:607-612 | The last segment goes with the slash before it. |
| UriPaths.RemovesByStack | crates/xenolith/src/uri.rs:574-612 | On a path that begins with a slash the loop is a stack of segments that keeps empty ones. |
| UriPaths.RemovesBySegments | crates/xenolith/src/uri.rs:574-612 | On every path the loop is what its segments say. |
| UriPaths.NoDotSegmentIsLeft | crates/xenolith/src/uri.rs:574-612 | The output has no `.` or `..` segment, whatever the input. |
| UriPaths.DotFreeIsUnchanged | crates/xenolith/src/uri.rs:574-612 | A path without dot segments is left alone. |
| UriPaths.RemovingIsIdempotent | crates/xenolith/src/uri.rs:574-612 | Removing twice is removing once. |
| UriPaths.RemovalLeavesSlashes | crates/xenolith/src/uri.rs:574-612 | What is left begins with two slashes if and only if the `..` segments use up everything before an empty segment that is never taken back and is not the last that stays. |
| Uris.PrintedIsParsed | crates/xenolith/src/uri.rs:112-147 | Components that go together are read back from their text. |
| Uris.DelimitersBegin | crates/xenolith/src/uri.rs:112-147 | Written out: the delimiter that begins each component, where all are there and where there is only a path. |
| Uris.ParsedComposes | crates/xenolith/src/uri.rs:112-147 | What is parsed prints as the text with only its scheme lower-cased, and its components go together. |
| Uris.ParsePrintParse | crates/xenolith/src/uri.rs:361-378 | Re-parsing the printed value gives the same value. |
| Uris.ReadsBackExactly | crates/xenolith/src/uri.rs:77-147 | A value's text parses to the value if and only if its components go together: allowed characters, no delimiter of a later component, and a path not taken for an authority or a scheme. |
| Uris.NewAccepts | crates/xenolith/src/uri.rs:77-103 | `new` succeeds exactly on such components, with the scheme lower-cased, and gives them back. |
| UriResolution.RelativizeInvertsExactly | crates/xenolith/src/uri.rs:343-358 | For one scheme and authority and plain paths, the result is relative and resolves to exactly the target, unless the next target segment below the whole base directory is empty; then it is the target. |
| UriResolution.RelativizeInverts | crates/xenolith/src/uri.rs:409-456 | So `relativize` inverts `resolve` wherever only the last segment of the target may be empty. |
| UriResolution.PromiseHoldsWithScheme | crates/xenolith/src/uri.rs:319-324 | The documented promise for every target without dot segments holds, for an absolute base, if and only if the target has a scheme. |
| UriResolution.PromiseWithoutBaseScheme | crates/xenolith/src/uri.rs:319-324 | For a base without a scheme it holds, unless the target has no scheme and no authority and the base has an authority; this is shown for all targets but relative paths against a base without an authority. |
| UriResolution.PromiseFailsWithoutScheme | crates/xenolith/src/uri.rs:319-324 | It fails for the base `http://e/a` and the target `b`. |
| UriResolution.ResolvedIsDotFree | crates/xenolith/src/uri.rs:282-317 | Resolving leaves no dot segment, except where the reference is empty and the base's path is taken as it is. |
| UriResolution.ResolvedReadsBack | crates/xenolith/src/uri.rs:282-317 | For an absolute base, what a reference resolves to reads back from its text if and only if an authority survives, or the path is the base's own, or in the path that resolving works on no empty segment comes first once the `..` segments have used up what is before it. |
| UriResolution.EmptyPathKeepsTheBase | crates/xenolith/src/uri.rs:282-317 | A reference that is only a query, a fragment or both keeps everything else of the base, and the base's query where it has none. |
| UriResolution.FragmentIsTheReferences | crates/xenolith/src/uri.rs:282-317 | The fragment is always the reference's own. |
| UriResolution.ComponentsComeFrom | crates/xenolith/src/uri.rs:282-317 | Where scheme, authority and query come from, for every reference; the query is the base's exactly where the reference has nothing before its fragment. |
| UriResolution.RelativePathReplacesTheLastSegment | crates/xenolith/src/uri.rs:449-456 | A relative path stands in place of the last segment of the base's path before dot segments are removed. |
| UriResolution.ResolvedMayReadDifferently | crates/xenolith/src/uri.rs:282-317 | It does happen, with `a:/..//x`. |
| UriNormalization.NormalizePercent | crates/xenolith/src/uri.rs:528-552 | The loop computes `Normal`. |
| UriNormalization.NormalKeepsOctets | crates/xenolith/src/uri.rs:528-552 | On well-formed text the decoded octets stay, and normalising again changes nothing. |
| UriNormalization.NormalTwiceExactly | crates/xenolith/src/uri.rs:528-552 | On any text, normalising twice is normalising once if and only if no stray percent sign is given two hex digits by what follows it, other than ones that are written as they stand. |
| UriNormalization.NormalTwiceMayDiffer | crates/xenolith/src/uri.rs:528-552 | `%%341` becomes `%41`, which becomes `A`. |
| UriNormalization.RemovalStaysNormal | crates/xenolith/src/uri.rs:574-612 | Removing dot segments from normal text leaves normal text. |
| UriNormalization.NormalizeIsFixed | crates/xenolith/src/uri.rs:232-258 | Scheme, path, query and fragment of a normal form are fixed points of normalising again, for well-formed text. |
| UriNormalization.NormalTextExactly | crates/xenolith/src/uri.rs:528-567 | Text is its own normal form if and only if each percent sign in it encodes, with hex digits in upper case, an octet that is neither a letter, a digit, nor one of `-._~`. |
| UriNormalization.NormalizeGivesTheNormalForm | crates/xenolith/src/uri.rs:232-258 | What the normal form of a reference with well-formed text is: the scheme in lower case, path, query and fragment plainly written, every octet of query and fragment kept, and no dot segments in a hierarchy. |
| UriNormalization.NormalAddsNoDelimiter | crates/xenolith/src/uri.rs:528-553 | Decoding brings out only unreserved characters, so that no delimiter appears that was not there. |
| UriNormalization.PortIsKept | crates/xenolith/src/uri.rs:495-524 | A port is kept unless it is empty or the one the scheme implies. |
| UriNormalization.LiteralPortIsKept | crates/xenolith/src/uri.rs:495-524 | The same after an IPv6 literal, whose own colons are part of the host. |
| UriNormalization.HostAloneIsLowered | crates/xenolith/src/uri.rs:495-524 | A host without a port is lower-cased and its octets written plainly. |
| UriNormalization.UserInfoIsKept | crates/xenolith/src/uri.rs:495-524 | What stands before the last `@` keeps its case. |
| UriNormalization.KnownSchemes | crates/xenolith/src/uri.rs:463-492 | Which schemes are known, their ports, and that with an authority an empty path of theirs is the root. |
| UriNormalization.NormalFormReadsBack | crates/xenolith/src/uri.rs:232-258 | The normal form of a parsed reference reads back from its text if and only if there is an authority; or there is no scheme, and what stands before the first colon of the path does not decode to one; or there is a scheme, and the path does not begin with a slash or leaves no two slashes once it is decoded and its dot segments are gone. |
| UriNormalization.NormalFormMayReadDifferently | crates/xenolith/src/uri.rs:232-258 | It does happen without a scheme: the normal form of `%61:b` reads back with one. |
| UriNormalization.NormalPathMayReadDifferently | crates/xenolith/src/uri.rs:232-258 | It does happen with a scheme: `a:/%2E%2E//x`. |
| Calendar.DaysRoundTrip | crates/xenolith-exslt/src/dates.rs:386-408 | Every count of days, negative ones included, is the count of the date it gives, which is a date of the calendar. |
| Calendar.DatesRoundTrip | crates/xenolith-exslt/src/dates.rs:386-408 | Every date is the date of its count. |
| Calendar.DaysAreMonotone | crates/xenolith-exslt/src/dates.rs:386-394 | Counting keeps the order of dates and gives no two dates one count. |
| Calendar.EpochIsZero | crates/xenolith-exslt/src/dates.rs:381-394 | The count starts at 1970-01-01. |
| Calendar.DaysWithinYear | crates/xenolith-exslt/src/dates.rs:378-394 | Days since the first of January plus one is the day of the year that summing the months gives. |
| Calendar.YearIsFound | crates/xenolith-exslt/src/dates.rs:397-403 | The correction terms of the year formula find the year of every day of an era. |
| Calendar.MonthIsFound | crates/xenolith-exslt/src/dates.rs:403-408 | The month formula and its inverse fit on every day of the year. |
| Calendar.IsoWeekIsThursdays | crates/xenolith-exslt/src/dates.rs:421-438 | The week is the ordinal of the Thursday of the same Monday-to-Sunday week inside that Thursday's own year, for every date. |
| Calendar.WeeksAreWhole | crates/xenolith-exslt/src/dates.rs:421-438 | It lies in 1..53 and is the same for all days of a week. |
| Calendar.WeeksInYearCountsThursdays | crates/xenolith-exslt/src/dates.rs:442-446 | A year has as many weeks as it has Thursdays. |
| Imports.Compiler.LoadReferenced | crates/xenolith-xslt/src/stylesheet.rs:744-763 | A reference loads its module; it is an error exactly when it has no target, the target is here already, or it cannot be had, and then nothing has changed. |
| Imports.Compiler.Gather | crates/xenolith-xslt/src/stylesheet.rs:719-741 | Walking a module's top level loads what it includes and notes its imports in document order, each include's own in its place; it terminates because what is loaded grows, and fails only where the library cannot be loaded at all. |
| Imports.Compiler.AssignPrecedence | crates/xenolith-xslt/src/stylesheet.rs:702-715 | Numbering a module and all it brings in gives them the order of section 2.6.2 of XSLT 1.0 in one interval, touches no number given before, loads everything a path from it reaches, and fails only where the library cannot be loaded at all. |
| Imports.Compiler.Compile | crates/xenolith-xslt/src/stylesheet.rs:381-408 | Loading and numbering succeed if and only if every reference on the way can be followed and no module is reached along two paths; then the modules are exactly those a path reaches, and for any two the sign of the difference of their precedences is what `Compare` says of the paths that lead to them. |
| Imports.CannotBeLoaded | crates/xenolith-xslt/src/stylesheet.rs:744-763 | A reference without a target, to something that cannot be had, or to a module that is here already is one no loadable library makes. |
| Imports.LoadedIsLoadable | crates/xenolith-xslt/src/stylesheet.rs:744-763 | Where everything was loaded, each module once, every reference can be followed and no module is reached along two paths. |
| Imports.SharedExactlyByIncludes | crates/xenolith-xslt/src/stylesheet.rs:694-715 | Modules share a precedence exactly when they are joined by includes. |
| Imports.ImporterOutranks | crates/xenolith-xslt/src/stylesheet.rs:694-715 | A module outranks whatever it brings in through an import, however far down. |
| Imports.LaterImportsOutrank | crates/xenolith-xslt/src/stylesheet.rs:694-715 | Everything imported through a later reference outranks everything imported through an earlier one. |
| Dispatchers.Dispatcher.ConsumeEvent | crates/xenolith/src/event.rs:1205-1244 | Forwarding an event changes the state and replies as `Consume` says, for arbitrary answers. |
| Dispatchers.Dispatcher.FinishRun | crates/xenolith/src/event.rs:1246-1254 | A running dispatcher tells every member once, and one that is not running tells none. |
| Dispatchers.Dispatcher.DropIt | crates/xenolith/src/event.rs:1257-1262 | Dropping gives the run up, so nothing is pending. |
| Dispatchers.Dispatcher.AllConsumersFinished | crates/xenolith/src/event.rs:1192-1195 | There is a consumer and every consumer has finished. |
| Dispatchers.Dispatcher.AddMember | crates/xenolith/src/event.rs:1142-1159 | A member joins last, unfinished. |
| Dispatchers.EventReachesPrefix | crates/xenolith/src/event.rs:1205-1244 | An event reaches the first unfinished members in order, all unless one refuses it or takes the total over the limit; `Break` is the reply exactly when there is a consumer and all have finished. |
| Dispatchers.NoEventAfterBreak | crates/xenolith/src/event.rs:1205-1244 | In every run, a member that broke off gets no event until a document starts. |
| Dispatchers.TotalIsTheSum | crates/xenolith/src/event.rs:1218-1232 | The running total is the saturating sum of the counts since the document started. |
| Dispatchers.OkOverTheLimit | crates/xenolith/src/event.rs:1233-1243 | A reply is `Ok` with the total over the limit if and only if it was over before, no document starts, and no member is unfinished. |
| Dispatchers.OkAfterTheLimit | crates/xenolith/src/event.rs:1233-1243 | It does happen: a lone consumer that breaks off with one error too many is followed by an `Ok`. |
| Dispatchers.OneEndForEachStart | crates/xenolith/src/event.rs:1246-1254 | A member is told of an end only after a start, and between two such notices a document starts. |
| Dispatchers.EndReachesEveryone | crates/xenolith/src/event.rs:1246-1262 | An end reaches all members with one outcome, and nothing is pending after a drop. |

## Left out

- Input and output: readers, writers, encodings, resolvers, result sinks, the command line and `exsl:document`.
- Error texts, locations and byte offsets; an error is one value.
- Predicates that raise: a predicate is a total oracle, in patterns as in paths.
- Prefixes that nobody bound: lookups fail as in the source, but the theorems about patterns ask for bound prefixes.
- Numbers as IEEE doubles: a number is its shortest decimal digits in the round trip, and a priority is a real; NaN priorities and rounding are not modelled.
- XPath expressions other than node-sets: arithmetic, comparison, strings and the function library.
- Text nodes that a document keeps in several pieces, and entity references, which the model of the source merges: a tree here has its text nodes merged already.
- More than 2^32 documents in a model, pools in a process or days beyond 64 bits.
- How `xsl:number` counts and formats and how `xsl:sort` compares: their outcomes are oracles, a sort being any rearrangement of the nodes.
- Decimal formats, output methods, namespace fix-up and `disable-output-escaping`.
- `exsl:node-set`: an expression sees the values of variables, never the fragments they hold.
- Namespaces of names the engine creates: an oracle gives the expanded name, or an error.
- XsltEngine.Engine.Transform: does not build the tables that `key()` reads, because what they hold is part of what expressions answer.
- XPathLexer.Lexer.ReadNumber: keeps the digits of a numeral, where the source rounds it to a double.
- UriResolution.PromiseWithoutBaseScheme: says nothing of a relative path against a base that has neither scheme nor authority.
- The stylesheet declarations that `collect` records after precedence is assigned.
- Escaping of URIs, and the host in the statement that normal forms are fixed: it is lower-cased before it is decoded.
- Event kinds other than the start of a document, which is the only one a dispatcher looks at.
- Reading and writing dates as text, durations, and the clock.
