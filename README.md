# TexToWiki core in Dafny

A model of the core of TexToWiki. TexToWiki turns the LaTeX sources of the MB102 course into MediaWiki pages. The model covers five parts:

- **Tokenizer** (`tokenizer.dfy`, on the generic scanner of `tokens.dfy`). It splits LaTeX into typed tokens with the first-match rule list of `Tokenizer.php`, then stamps each token with a line and a column.
- **Token cursor** (`token_iterator.dfy`). A class with the fields `tokens` and `position`, with `nextToken`, `nextValue`, `nextUntil`, `joinUntil`, `without`, `lookahead` and `slice`.
- **Parser** (`parser.dfy`). A class holding the cursor. Its mutually recursive methods build the AST on top of the constructors in `ast_build.dfy`.
- **AST** (`ast_node.dfy`, `ast_command.dfy`, `ast_section.dfy`, `ast_build.dfy`).
  - Nodes are immutable once constructed, so a node is a value `Node(kind, children)`.
  - The parent link is a `Located` value: the node together with its ancestor chain.
  - The fields a constructor derives are functions of the children, and so are the document's label and bibliography indices.
  - A PHP `TypeError` or a call on `null` becomes `Err(NullValue)`. `InvalidNodeParentException` becomes `Err(InvalidNodeParent)`.
- **Macro expander** (`macro_expansion.dfy`). The class `LatexMacroExpansion` holds one macro.
  - `Expand` walks a cursor whose tokens it rewrites in place.
  - It is proved against the functions `ExpandFrom` and `Expansion`.
  - `mask` is the placeholder filler `Mask`.

The MB102 catalog of `Configurator.php` is in `configurator.dfy`. The pieces of `Serializer.php` that resolve `\ref` and `\eqref` to wiki links, and the `--` conversion of text, are in `serializer.dfy`. `wrappers.dfy` and `string_utils.dfy` hold `Result`/`Option` and the PHP string functions the core uses.

Integers are unbounded. Nothing in the core depends on machine width.

## Model

Paths are relative to the repository root.

| member | source | states |
|---|---|---|
| StringUtils.ReplaceChar | src/TexToWiki/Latex/Parser.php:99 | `str_replace` of one character keeps the length and replaces exactly the occurrences of the needle. |
| StringUtils.ToLower | src/TexToWiki/Latex/Parser.php:152 | `strtolower` keeps the length and maps each character to its lower-case form. |
| StringUtils.TrimBothEnds | src/TexToWiki/Latex/AST/Label.php:49 | `trim` keeps one contiguous piece of the input. The piece neither starts nor ends with a trimmed character, and everything cut off on either side is a trimmed character. |
| StringUtils.CountChar | src/TexToWiki/Latex/Tokenizer.php:101 | `substr_count` of one character is at most the length, and 0 exactly when the character is absent. |
| StringUtils.CountCharAppend | src/TexToWiki/Latex/Tokenizer.php:101 | The count distributes over concatenation. |
| StringUtils.Before | src/TexToWiki/Latex/AST/Label.php:52-55 | `explode(':', s, 2)[0]` is a prefix of `s` without the separator, followed by the separator or the end of `s`. |
| StringUtils.ReplacePair | src/TexToWiki/Mediawiki/Serializer.php:157 | `str_replace` of a two-character needle leaves text without it unchanged. A two-character replacement keeps the length. A text that starts with the needle starts with the replacement. |
| StringUtils.ReplacePairSplit | src/TexToWiki/Mediawiki/Serializer.php:157 | At the first needle, the text before it is kept, the needle becomes the replacement, and the rest is replaced in turn. With the needle-free case this fixes the result on every input. |
| StringUtils.ReplacePairAt | src/TexToWiki/Mediawiki/Serializer.php:157 | The same split, for the first needle at a given index of the text. |
| StringUtils.DecimalValue | src/TexToWiki/Mediawiki/LatexMacroExpansion.php:136 | `$m['n']` read as a number: a single digit is its own value. |
| StringUtils.DecimalDigits | src/TexToWiki/Mediawiki/LatexMacroExpansion.php:135-136 | Reading back the decimal numeral of n gives n. |
| Scanner.LexTotal | src/TexToWiki/Latex/Tokenizer.php:96 | A rule set that matches a non-empty prefix at every offset never makes the scanner fail. |
| Scanner.LexPartitions | src/TexToWiki/Latex/Tokenizer.php:96 | The scanned tokens concatenate back to the input, and each token's offset is where its value starts. |
| Tokens.JoinExtend | src/TexToWiki/Latex/Parser.php:95-97 | Extending a run of tokens by the next token appends that token's value to the joined text. |
| Tokenizer.CommandLength | src/TexToWiki/Latex/Tokenizer.php:80 | The command rule matches a backslash that does not follow a backslash, then the maximal run of letters and digits. |
| Tokenizer.FirstMatchAt | src/TexToWiki/Latex/Tokenizer.php:60-89 | Rule k is chosen exactly when it matches and no earlier rule in the list does. |
| Tokenizer.FirstMatchIsFirst | src/TexToWiki/Latex/Tokenizer.php:60-89 | The chosen rule matches, and every rule listed before it does not. |
| Tokenizer.FirstMatchFinds | src/TexToWiki/Latex/Tokenizer.php:60-89 | Whenever some rule matches, one is chosen. |
| Tokenizer.MathBlockBeforeInline | src/TexToWiki/Latex/Tokenizer.php:74-75 | `$$` is one display-math token, never two inline ones. |
| Tokenizer.BeginIsPrivileged | src/TexToWiki/Latex/Tokenizer.php:56-58 | `\begin` not followed by a letter or digit is the environment opener. |
| Tokenizer.BeginPrefixIsCommand | src/TexToWiki/Latex/Tokenizer.php:76-80 | `\beginning` is an ordinary command spanning the whole name, not its `\begin` prefix. |
| Tokenizer.CommandAfterBackslashB | src/TexToWiki/Latex/Tokenizer.php:76-80 | At an unescaped `\b` that does not open `\begin`, the general command rule wins. |
| Tokenizer.CommandChosen | src/TexToWiki/Latex/Tokenizer.php:80 | The general command rule is chosen where it matches and no earlier rule does. |
| Tokenizer.CommandRuleAt | src/TexToWiki/Latex/Tokenizer.php:80 | An unescaped backslash followed by a letter or digit starts a command spanning the whole run of letters and digits. |
| Tokenizer.BeginFollowedMisses | src/TexToWiki/Latex/Tokenizer.php:56-58 | `\begin` followed by a letter or digit is not the environment opener. |
| Tokenizer.MissesAtBackslashB | src/TexToWiki/Latex/Tokenizer.php:60-79 | At a backslash followed by `b`, no rule before `\begin` matches, and neither do `\end`, `\section` and `\subsection`. |
| Tokenizer.NoRuleBeforeCommand | src/TexToWiki/Latex/Tokenizer.php:60-80 | At `\b` where `\begin` does not match, no rule before the general command rule matches. |
| Tokenizer.CommentShape | src/TexToWiki/Latex/Tokenizer.php:61 | A comment starts with `%` at the beginning of a line and runs to the end of that line, newline included. |
| Tokenizer.LineStartPercentIsComment | src/TexToWiki/Latex/Tokenizer.php:61 | A `%` at the start of a line that ends with a newline is always a comment. |
| Tokenizer.StringShape | src/TexToWiki/Latex/Tokenizer.php:88 | Text tokens hold no special character and extend up to the next one. |
| Tokenizer.SomeRuleMatches | src/TexToWiki/Latex/Tokenizer.php:60-89 | Some rule matches at every offset inside the text. |
| Tokenizer.LexNeverFails | src/TexToWiki/Latex/Tokenizer.php:96 | The scanner never raises its "unexpected input" error on this rule set. |
| Tokenizer.LatexTokens | src/TexToWiki/Latex/Tokenizer.php:92-110 | The tokens concatenate back to the text, each at its own offset, each a non-empty match of the first rule that matches there. |
| Tokenizer.Advance | src/TexToWiki/Latex/Tokenizer.php:101-106 | The next position's line grows by the newlines in the value. Its column restarts at 0 after a value holding a newline and otherwise grows by the length. |
| Tokenizer.Annotate | src/TexToWiki/Latex/Tokenizer.php:96-107 | The annotation loop keeps each token's type, value and offset and stamps it with the line and column `Advance` gives. |
| Tokenizer.LineCountsNewlines | src/TexToWiki/Latex/Tokenizer.php:94-107 | The line of every token is one more than the number of newlines before it in the text. |
| Tokenizer.FirstLineColumn | src/TexToWiki/Latex/Tokenizer.php:94-107 | On the first line, the column is one more than the number of characters before the token. |
| Tokenizer.Tokenize | src/TexToWiki/Latex/Tokenizer.php:92-110 | `tokenize` returns a fresh cursor before the first token, over the annotated scanned tokens. |
| TokenStream.Kept | src/TexToWiki/Latex/TokenIterator.php:15-17 | `without` keeps exactly the tokens of unlisted types, in order. |
| TokenStream.KeptAppend | src/TexToWiki/Latex/TokenIterator.php:15-19 | `without` distributes over concatenation, so the original order is preserved. |
| TokenStream.SkipWhile | src/TexToWiki/Latex/TokenIterator.php:30-32 | The cloned cursor of `lookahead` stops at the first following token of no ignored type. |
| TokenStream.LookaheadPosition | src/TexToWiki/Latex/TokenIterator.php:27-35 | `lookahead` succeeds exactly when the token after the skipped gap has one of the wanted types. |
| TokenStream.LookaheadWithoutIgnoreIsNull | src/TexToWiki/Latex/TokenIterator.php:27-35 | With no ignored types the copy runs to the end, so `lookahead` returns null. |
| TokenStream.ArraySlice | src/TexToWiki/Latex/TokenIterator.php:40 | `array_slice` follows PHP's rules for negative arguments. The result is never longer than the input or than a non-negative length. With in-range arguments it is exactly the tokens `offset..offset+length`. |
| TokenStream.TokenIterator.CurrentValue | src/TexToWiki/Latex/TokenIterator.php:10 | The value at the cursor, or null outside the tokens. |
| TokenStream.TokenIterator.NextToken | src/TexToWiki/Latex/TokenIterator.php:10 | `nextToken` advances by one and returns the token there. At the end it returns nothing and stops on `count($tokens)`. |
| TokenStream.TokenIterator.NextValue | src/TexToWiki/Latex/TokenIterator.php:10 | `nextValue` is `nextToken` returning the value, or `''` at the end. |
| TokenStream.TokenIterator.NextUntil | src/TexToWiki/Latex/TokenIterator.php:10 | `nextUntil` skips and returns exactly the tokens before the first one of a given type, or before the end. |
| TokenStream.TokenIterator.JoinUntil | src/TexToWiki/Latex/TokenIterator.php:10 | `joinUntil` makes the same walk and returns the concatenated values of the skipped tokens. These are `JoinBefore` of the tokens after the cursor, matching by type. |
| TokenStream.StopAt | src/TexToWiki/Latex/Parser.php:385 | The walk stops at the first token whose type is wanted, or, matching by value, whose value is a wanted type's name. No earlier token stops it. |
| TokenStream.ValueMatchAgrees | src/TexToWiki/Latex/Parser.php:385 | When no token's value is a wanted type's name, the walk by value and the walk by type stop at the same token and join the same text. |
| TokenStream.FormulaCutByValue | src/TexToWiki/Latex/Parser.php:385 | Matching by value, as Nette's `scan` does, an inline formula `$a=w=b$` whose middle word `w` is `math_inline` is cut to `a=`, so `$a=math_inline=b$` gives `a=`. |
| TokenStream.FormulaWholeByType | src/TexToWiki/Latex/Parser.php:385 | Matching by type, the formula `$a=w=b$` is `a=w=b` up to its closing `$`, whatever its words. |
| TokenStream.CommandWordStopsWalk | src/TexToWiki/Latex/Parser.php:239 | A text token `command` stops the skip of the math walk when matching by value, but not when matching by type. |
| TokenStream.TokenIterator.Without | src/TexToWiki/Latex/TokenIterator.php:13-20 | A fresh cursor over the tokens of other types, reindexed from 0. The receiver is unchanged. |
| TokenStream.TokenIterator.Lookahead | src/TexToWiki/Latex/TokenIterator.php:27-35 | The clone returned sits before a wanted token, after only ignored tokens. Null otherwise. The receiver is unchanged. |
| TokenStream.TokenIterator.Slice | src/TexToWiki/Latex/TokenIterator.php:37-43 | A fresh cursor over `array_slice` of the tokens, with the position reset to -1. The receiver is unchanged. |
| LatexParser.Parser.Parse | src/TexToWiki/Latex/Parser.php:28-41 | On success the result is a constructed Document, in which no Document lies below the root and every Toc section is a direct child of the root. The stream is released afterwards. |
| LatexParser.Parser.DoParse | src/TexToWiki/Latex/Parser.php:43-50 | Top-level nodes are parsed until no token is left. Every node is constructed. |
| LatexParser.Parser.ParseNext | src/TexToWiki/Latex/Parser.php:52-76 | Takes a token and dispatches on its type. The cursor advances, and at the end of the stream the parser fails. |
| LatexParser.Parser.ParseToken | src/TexToWiki/Latex/Parser.php:58-75 | Each token type goes to the parse function the source dispatches it to, and the node built is constructed. |
| LatexParser.Parser.ParseLeaf | src/TexToWiki/Latex/Parser.php:68-74 | `$` and `$$` give a formula. Every other type that opens no command, section or scope gives text. |
| LatexParser.Parser.ParseText | src/TexToWiki/Latex/Parser.php:78-100 | The text is the token's value and the values of the following tokens up to the next terminal type or the end, with each `~` turned into a space. |
| LatexParser.Parser.TextStep | src/TexToWiki/Latex/Parser.php:95-97 | One round of the loop consumes exactly one non-terminal token and appends its value. |
| LatexParser.Parser.ParseMath | src/TexToWiki/Latex/Parser.php:383-388 | The formula is the values up to the next token of the opening's type, matched by type, and that token is consumed. It is inline exactly for `$`. |
| LatexParser.Parser.ParseCommandArgument | src/TexToWiki/Latex/Parser.php:372-381 | The nodes up to the closing bracket, which is consumed. The argument is optional exactly for a square bracket. |
| LatexParser.Parser.ParseNodesUntil | src/TexToWiki/Latex/Parser.php:114-116 | Nodes are parsed until the next token has the closing type. The end of the stream fails. |
| LatexParser.Parser.ParseNodesWhile | src/TexToWiki/Latex/Parser.php:126-128 | Nodes are parsed while a token is left and it has none of the stop types. |
| LatexParser.Parser.ArgumentAhead | src/TexToWiki/Latex/Parser.php:320 | The loop condition is a `lookahead` for an opening bracket past whitespace and newlines. The receiver is unchanged. |
| LatexParser.Parser.TakeArgument | src/TexToWiki/Latex/Parser.php:321-323 | Moves over the skipped gap, takes the opening bracket and parses the argument it opens. |
| LatexParser.Parser.ParseCommand | src/TexToWiki/Latex/Parser.php:314-339 | The node has the class `createCommand` gives the name without its backslashes, and every child is an argument node. A bracket group ahead gives at least one argument, and none is left ahead on return. `reseni` becomes a Solution named `reseni`. |
| LatexParser.CommandFrom | src/TexToWiki/Latex/Parser.php:326-338 | `reseni` needs exactly one argument, whose nodes become a solution's body. Any other name goes to `createCommand`. |
| LatexParser.CommandArgumentsAccepted | src/TexToWiki/Latex/AST/CommandArgument.php:33-36 | A command accepts any sequence of arguments as children. |
| LatexParser.Parser.ParseScope | src/TexToWiki/Latex/Parser.php:102-120 | A `{` not followed by a command is text, and the cursor does not move. A command followed, past whitespace, by an opening bracket gets an argument of its own and is refused. On success the command, by its trimmed name, holds one mandatory argument, and the cursor rests on the matching `}`. |
| LatexParser.Parser.ParseScopeCommand | src/TexToWiki/Latex/Parser.php:108-119 | A command that `parseCommand` gives an argument is refused with the invalid-state error. A bare one takes the nodes up to the `}` as its one mandatory argument. |
| LatexParser.Parser.ParseScopeBody | src/TexToWiki/Latex/Parser.php:113-119 | The nodes up to the `}`, which is consumed, become the one mandatory argument of a plain command of that name. |
| LatexParser.ScopeFrom | src/TexToWiki/Latex/Parser.php:119 | The scope's command holds the scope's nodes as its one mandatory argument. |
| LatexParser.Parser.ParseTocSection | src/TexToWiki/Latex/Parser.php:122-130 | The `\section` command and every node up to the next `\section` or the end. |
| LatexParser.Parser.ParseTocSubSection | src/TexToWiki/Latex/Parser.php:132-140 | The `\subsection` command and every node up to the next `\section` or `\subsection`, or the end. |
| LatexParser.Parser.ParseSectionBegin | src/TexToWiki/Latex/Parser.php:252-259 | The command parsed must be a `\begin` boundary, or the parser fails. |
| LatexParser.CheckSectionBegin | src/TexToWiki/Latex/Parser.php:255-257 | Accepts exactly a `\begin` boundary. |
| LatexParser.Parser.ParseSectionEnd | src/TexToWiki/Latex/Parser.php:261-271 | The command must be an `\end` boundary naming the section that `begin` opened. |
| LatexParser.CheckSectionEnd | src/TexToWiki/Latex/Parser.php:264-269 | Accepts exactly an `\end` boundary whose section name equals the `\begin`'s. |
| LatexParser.Parser.ParseSection | src/TexToWiki/Latex/Parser.php:142-168 | The `\begin`, then a math environment's formula body, an itemize or enumerate environment's items, or any other environment's nodes, closed by the matching `\end`. |
| LatexParser.IsMathEnvironment | src/TexToWiki/Latex/Parser.php:145 | A math environment is one whose name starts, ignoring case, with one of `align`, `gather`, `equation`, `tabular`, `eqnarray` or `pspicture`. |
| LatexParser.Parser.ParseMathSection | src/TexToWiki/Latex/Parser.php:145-149 | A math environment's formula body and its matching `\end` give a MathSection. |
| LatexParser.Parser.ParsePlainSection | src/TexToWiki/Latex/Parser.php:151-166 | Items for itemize and enumerate, nodes up to `\end` otherwise, then the matching `\end` and the section class that the name selects. |
| LatexParser.Parser.CloseSection | src/TexToWiki/Latex/Parser.php:164 | The token after a section's body must be an `\end` naming the same environment. |
| LatexParser.Parser.ParseSectionItems | src/TexToWiki/Latex/Parser.php:170-204 | The items are made from the parts the loop collects: the `\item` commands in order, and the body gathered for each. There is one item per `\item`, built by `createEnumerationItem` from that command and its body, except that the last `\item` gives none when its body is empty. The commands met before the first `\item` begin its body, and the other nodes met there are dropped. Without an `\item` there are no items. |
| LatexParser.Parser.ItemsRound | src/TexToWiki/Latex/Parser.php:175-197 | One round of the loop consumes at least one token and keeps the collected items and bodies in step with the `\item` commands seen so far. |
| LatexParser.Parser.ItemsText | src/TexToWiki/Latex/Parser.php:176-182 | A node parsed from a token that is not a command joins the open item's body. With no item open it is dropped. |
| LatexParser.Parser.ItemsCommand | src/TexToWiki/Latex/Parser.php:185-196 | A command token is parsed. `\item` opens the next item, and any other command joins the current nodes. |
| LatexParser.Parser.OpenItem | src/TexToWiki/Latex/Parser.php:187-192 | An `\item` completes the open item, if there is one, with the body gathered so far, and becomes the open item with an empty body. |
| LatexParser.AddNode | src/TexToWiki/Latex/Parser.php:177-181 | A node joins the current body when an item is open, and is dropped otherwise. |
| LatexParser.AddCommand | src/TexToWiki/Latex/Parser.php:195 | A command other than `\item` always joins the current nodes, so before the first `\item` it is kept. |
| LatexParser.CreateEnumerationItem | src/TexToWiki/Latex/Parser.php:206-211 | An `item` holds the opening command's arguments, then the body as one mandatory argument. |
| LatexParser.Parser.ParseMathBlockBody | src/TexToWiki/Latex/Parser.php:213-250 | All nodes but the last are labels, each parsed from its own `\label` token inside the walk, in token order. The last node is the formula read back from the walked tokens. The walk stops before an `\end` or at the end of the stream. A body without tokens fails. |
| LatexParser.Parser.WalkMathBody | src/TexToWiki/Latex/Parser.php:217-240 | The rounds of the walk up to an `\end` or the end of the stream. The labels kept come from distinct `\label` tokens of the walk, in order. Before an `\end`, or at the end, it keeps nothing and does not move. |
| LatexParser.Parser.MathBodyStep | src/TexToWiki/Latex/Parser.php:217-240 | At an `\end` the walk stops and keeps nothing. At a `\label` command a successful round keeps exactly the one label parsed from that token. Any other command keeps nothing, and so does a token that opens no command, environment or `\end`. |
| LatexParser.Parser.MathCommand | src/TexToWiki/Latex/Parser.php:218-224 | A `\label` gives, on success, exactly one label, parsed from that token. Any other command gives no node and moves past that one token. |
| LatexParser.Parser.MathLabel | src/TexToWiki/Latex/Parser.php:222-223 | The `\label` command is parsed into a Label node named `label`. |
| LatexParser.Parser.MathNested | src/TexToWiki/Latex/Parser.php:226-233 | A nested environment's begin, math body and end are parsed. The nodes kept are the nested body's Command nodes, its labels, each from its own `\label` token inside the nested walk, in order. |
| LatexParser.Parser.Reread | src/TexToWiki/Latex/Parser.php:241-246 | Rewinds to the start and joins the values of the walked tokens. Null when there were none. |
| LatexParser.RereadGrows | src/TexToWiki/Latex/Parser.php:244-245 | Each token read back extends the text by its value. |
| LatexParser.NestedLabels | src/TexToWiki/Latex/Parser.php:228-232 | The command nodes of a nested math body, in order, are its labels. |
| LatexParser.ItemBuilt | src/TexToWiki/Latex/Parser.php:206-211 | An item built from constructed parts is constructed. |
| AstNode.ValidateParentCases | src/TexToWiki/Latex/AST/Node.php:106-109 | Each kind's `validateParent`: a Document refuses every parent, an argument needs a command, a Toc section needs a Document, a Toc subsection needs a Toc section, and every other kind accepts any parent. |
| AstNode.FilterByType | src/TexToWiki/Latex/AST/Node.php:111-121 | `filterByType` accepts exactly a node that is an instance of one of the types. With no types it accepts nothing. |
| AstNode.Filter | src/TexToWiki/Latex/AST/Node.php:47-52 | A filter's result is no longer than its input. |
| AstNode.FilterMembers | src/TexToWiki/Latex/AST/Node.php:47-52 | The filter keeps exactly the elements satisfying the predicate. |
| AstNode.FilterAppend | src/TexToWiki/Latex/AST/Node.php:47-52 | Filtering distributes over concatenation, so order is preserved. |
| AstNode.FilterFirst | src/TexToWiki/Latex/AST/Node.php:47-52 | The first element kept is the first element that satisfies the predicate. |
| AstNode.GetChildren | src/TexToWiki/Latex/AST/Node.php:41-59 | Without a filter, all children. With one, exactly the children it accepts, in order. |
| AstNode.GetChildrenRecursive | src/TexToWiki/Latex/AST/Node.php:61-80 | The queue loop emits exactly the filtered breadth-first order of the descendants. |
| AstNode.VisitChildren | src/TexToWiki/Latex/AST/Node.php:67-72 | Every child is queued, and the accepted ones are appended to the results. |
| AstNode.VisitKeepsOrder | src/TexToWiki/Latex/AST/Node.php:65-73 | Visiting the queue's head leaves the filtered order of the remaining search unchanged. |
| AstNode.BfsByLevels | src/TexToWiki/Latex/AST/Node.php:61-80 | Breadth-first order: first every node one level down, then the search of that level. |
| AstNode.BfsBelow | src/TexToWiki/Latex/AST/Node.php:61-80 | Every visited node is linked and lies strictly below a queued node, so the root is never among its own results. |
| AstNode.BfsComplete | src/TexToWiki/Latex/AST/Node.php:61-80 | Every child of a queued or visited node is visited. |
| AstNode.Nearest | src/TexToWiki/Latex/AST/Node.php:88-93 | The index of the nearest accepted ancestor. None exactly when no ancestor is accepted. |
| AstNode.GetParent | src/TexToWiki/Latex/AST/Node.php:82-94 | The walk up the parent links stops at the nearest accepted ancestor. It returns null exactly when there is none. |
| AstNode.NearestIsFirst | src/TexToWiki/Latex/AST/Node.php:88-93 | The first accepted ancestor is the one found. |
| AstCommand.ArgumentEnds | src/TexToWiki/Latex/AST/Command.php:30-49 | The arguments are the children. The first and last arguments are their ends and coincide when there is one argument. |
| AstCommand.FilterByName | src/TexToWiki/Latex/AST/Command.php:62-67 | `filterByName` accepts exactly a command whose name equals one of the names. |
| AstCommand.FirstValue | src/TexToWiki/Latex/AST/CommandArgument.php:23-26 | The argument's first child. An empty argument fails. |
| AstCommand.FilterOptional | src/TexToWiki/Latex/AST/CommandArgument.php:38-43 | With `true`, the default, it accepts exactly the optional arguments. With `false` it accepts exactly the mandatory ones. |
| AstCommand.TextValue | src/TexToWiki/Latex/AST/Text.php:20-23 | A string exactly for a Text node. |
| AstCommand.LeadName | src/TexToWiki/Latex/AST/Section.php:27-29 | The name read from the first argument is null without one or when it is not a Text. An empty first argument fails. |
| AstCommand.SectionName | src/TexToWiki/Latex/AST/SectionBoundary.php:15-29 | A boundary without arguments has no name. An empty first argument fails. A name that is read is the Text value of the first argument's first child. |
| AstCommand.CommandStringDropsBodies | src/TexToWiki/Latex/AST/Command.php:51-60 | As written, `\ref{x}` renders as `\ref{}`, where `\ref{x}` is intended. |
| AstCommand.CommandStringAsWritten | src/TexToWiki/Latex/AST/Command.php:51-60 | As written, the string form is `\` and the name, then exactly two bracket characters per argument and nothing else. |
| AstCommand.CommandToString | src/TexToWiki/Latex/AST/Command.php:51-60 | The loop renders the name, then each argument's body in `[…]` or `{…}`, in order. |
| AstCommand.ArgumentsStringAppend | src/TexToWiki/Latex/AST/Command.php:54-58 | Adding an argument appends its bracketed text. |
| AstCommand.TextArgumentsString | src/TexToWiki/Latex/AST/Command.php:51-60 | A command whose arguments each hold one text renders as the LaTeX it came from. |
| AstCommand.ImplodeNodes | src/TexToWiki/Latex/AST/Command.php:56 | `implode` concatenates the string forms of the nodes in order. |
| AstCommand.LabelNameNode | src/TexToWiki/Latex/AST/Label.php:18-23 | The first value of the first argument. Fails without one. |
| AstCommand.LabelName | src/TexToWiki/Latex/AST/Label.php:25-28 | The label name's value. It fails when that value is not a Text. |
| AstCommand.LabelType | src/TexToWiki/Latex/AST/Label.php:52-55 | The label name's string form up to its first `:`, or all of it without a `:`. A Text name is its value. A command name renders through `Command::__toString` as written, so only its brackets remain. |
| AstCommand.CastToString | src/TexToWiki/Latex/AST/Label.php:54 | A Text casts to its value, and a command to its string form as written. |
| AstCommand.LabelTypeOfCommandName | src/TexToWiki/Latex/AST/Label.php:52-55 | `\label{\emph{x}}` has the type `\emph{}`. |
| AstCommand.StripTypePrefix | src/TexToWiki/Latex/AST/Label.php:46-49 | A name with a leading tag of ASCII letters followed by `:` loses exactly that tag. A name without such a tag is unchanged. |
| AstCommand.TagUnique | src/TexToWiki/Latex/AST/Label.php:48 | A name has at most one such tag, because the tag is the whole leading run of letters. |
| AstCommand.LetterRun | src/TexToWiki/Latex/AST/Label.php:48 | A maximal run of ASCII letters. |
| AstCommand.StripTypePrefixExamples | src/TexToWiki/Latex/AST/Label.php:48 | `thm:euler` gives `euler`, and `EQ:2` gives `2`. |
| AstCommand.StripTypePrefixKeeps | src/TexToWiki/Latex/AST/Label.php:48 | `a1:b` and `:x` have no tag, so they are unchanged. |
| AstCommand.LabelId | src/TexToWiki/Latex/AST/Label.php:46-50 | The id fails exactly when the label name does. Otherwise it is built from the name without its type tag. |
| AstCommand.LabelIdDropsTag | src/TexToWiki/Latex/AST/Label.php:46-50 | A name `tag:rest` with a non-empty tag of ASCII letters gives the same id as `rest` alone. |
| AstCommand.LabelIdKeepsUntagged | src/TexToWiki/Latex/AST/Label.php:46-50 | A name without such a tag is webalized whole. |
| AstCommand.CompleteLabelId | src/TexToWiki/Latex/AST/Label.php:57-69 | The nearest Theorem or MathSection gives `cst-NAME-id` or `equation-id`. With neither the label is not supported. |
| AstCommand.TocSectionOf | src/TexToWiki/Latex/AST/Label.php:33-36 | The nearest Toc section ancestor. Null exactly when there is none. |
| AstCommand.TocSubSectionOf | src/TexToWiki/Latex/AST/Label.php:41-44 | The nearest Toc subsection ancestor. Null exactly when there is none. |
| AstCommand.LabelFilterByValue | src/TexToWiki/Latex/AST/Label.php:71-76 | Exact membership of the label name. It fails where the name fails. |
| AstCommand.ArgumentAt | src/TexToWiki/Latex/AST/BibiItem.php:29-41 | The argument at a position, or null past the end. |
| AstCommand.BibiItemFields | src/TexToWiki/Latex/AST/BibiItem.php:29-41 | The author needs two arguments and the source five. A source implies a name and a publisher, and `book` is always null. |
| AstCommand.RefName | src/TexToWiki/Latex/AST/BibiItem.php:43-46 | The first value of argument 0, or null without one. An empty argument fails. |
| AstCommand.BibiItemFilterByName | src/TexToWiki/Latex/AST/BibiItem.php:88-93 | Exact membership of the ref name. It fails without a Text ref name. |
| AstSection.Arguments | src/TexToWiki/Latex/AST/Section.php:46-49 | The begin command's arguments after the first, in order. |
| AstSection.Name | src/TexToWiki/Latex/AST/Section.php:27-29 | A begin command without arguments gives no name. An empty first argument fails. A name that is read is the Text value of the first argument's first child. |
| AstSection.Body | src/TexToWiki/Latex/AST/Section.php:54-57 | The children after the begin command. |
| AstSection.SectionFilterByName | src/TexToWiki/Latex/AST/Section.php:59-64 | Exact membership of the name. It fails on a section without a name. |
| AstSection.Formulae | src/TexToWiki/Latex/AST/MathSection.php:17-18 | The formula of a MathSection is a Math node. |
| AstSection.FormulaeIsFirstMath | src/TexToWiki/Latex/AST/MathSection.php:17-18 | The formula is the first Math in breadth-first order. |
| AstSection.MathFirstArgument | src/TexToWiki/Latex/AST/MathSection.php:24-29 | The first section argument, or null. |
| AstSection.MathFormulae | src/TexToWiki/Latex/AST/MathSection.php:33-36 | The formula text. It fails when the section holds no Math. |
| AstSection.TheoremLabel | src/TexToWiki/Latex/AST/Theorem/Theorem.php:27-28 | The first Label child. Null exactly when there is none. |
| AstSection.BoldTitle | src/TexToWiki/Latex/AST/Theorem/Theorem.php:31-33 | The first `\bf` among the descendants. Null exactly when there is none. |
| AstSection.Title | src/TexToWiki/Latex/AST/Theorem/Theorem.php:30-40 | Without a `\bf`, an optional second begin argument gives the title, and a missing or mandatory one gives none. Failures are null dereferences. |
| AstSection.TitleFromBold | src/TexToWiki/Latex/AST/Theorem/Theorem.php:30-35 | The first `\bf` in breadth-first order decides the title, whatever the section arguments. |
| AstSection.DocumentIndices | src/TexToWiki/Latex/AST/Document.php:21-67 | The indices hold exactly the tree's labels and bibliography items, each linked to the document. The sections are exactly the Toc-section children. |
| AstSection.GetSections | src/TexToWiki/Latex/AST/Document.php:62-67 | The sections are exactly the Toc-section children of the document, and there are no more of them than children. |
| AstSection.TextString | src/TexToWiki/Latex/AST/Text.php:25-28 | `__toString` is the value. |
| AstBuild.Build | src/TexToWiki/Latex/AST/Node.php:21-39 | Construction succeeds exactly when every child accepts the parent and the derived fields can be read. A missing begin command gives the null error and a refused child the parent error. |
| AstBuild.NewNode | src/TexToWiki/Latex/AST/Node.php:21-39 | The constructor runs the begin check, adds the children one at a time, then reads the derived fields. It agrees with `Build`. |
| AstBuild.BuildBuilt | src/TexToWiki/Latex/AST/Node.php:21-26 | Constructing from constructed children gives a constructed tree. |
| AstBuild.DocumentNeverChild | src/TexToWiki/Latex/AST/Document.php:57-60 | No constructor accepts a Document as a child. |
| AstBuild.TocSectionOnlyUnderDocument | src/TexToWiki/Latex/AST/Toc/Section.php:13-16 | A Toc section is accepted only under a Document. |
| AstBuild.TocSubSectionOnlyUnderTocSection | src/TexToWiki/Latex/AST/Toc/SubSection.php:13-16 | A Toc subsection is accepted only under a Toc section. A Document with a subsection child is refused. |
| AstBuild.BuiltNode | src/TexToWiki/Latex/AST/Node.php:28-39 | Every link on the chain of a node below a constructed root passed `validateParent`. |
| AstBuild.BuiltTreeShape | src/TexToWiki/Latex/AST/Node.php:28-39 | In a constructed tree no Document lies below the root. Every Toc section is a direct child of the root, which is a Document, so Toc sections never nest. |
| AstBuild.DescendantPlaced | src/TexToWiki/Latex/AST/Node.php:61-80 | Each descendant is linked with the root as its outermost ancestor. |
| AstBuild.SectionTableNames | src/TexToWiki/Latex/Parser.php:273-309 | Every theorem class is reached through its own `NAME`. `pf` reaches proof and `reseni` reaches solution. |
| AstBuild.SectionTableOthers | src/TexToWiki/Latex/Parser.php:273-309 | Only a `NAME` or an alias selects a theorem class. Every other name gives a plain section. |
| AstBuild.CreateSection | src/TexToWiki/Latex/Parser.php:273-309 | The class its table gives, with the begin command first. It succeeds exactly when construction does. |
| AstBuild.CommandTable | src/TexToWiki/Latex/Parser.php:341-370 | Boundary, label, bibliography item and style classes exactly for their own names. |
| AstBuild.CreateCommand | src/TexToWiki/Latex/Parser.php:341-370 | A command of the table's class, holding the name and the arguments in order. |
| AstBuild.SolutionFromCommand | src/TexToWiki/Latex/AST/Theorem/Solution.php:17-24 | The begin command carries the name and the mandatory argument `Solution`, and the body is the first argument's children. It fails without arguments. |
| AstBuild.BeginCommandBuilt | src/TexToWiki/Latex/AST/Theorem/Solution.php:19 | That begin command is constructed and names the section `Solution`. |
| MacroExpansion.MacroRules | src/TexToWiki/Mediawiki/LatexMacroExpansion.php:53-62 | The expander's rules are command, brace_left, brace_right, backslash, whitespace and other, in this order, with letters of either case. |
| MacroExpansion.RuleIsMacroToken | src/TexToWiki/Mediawiki/LatexMacroExpansion.php:53-62 | What each rule matches is a well-formed token of its type. |
| MacroExpansion.MacroLexShape | src/TexToWiki/Mediawiki/LatexMacroExpansion.php:51-64 | The scanner fails exactly on text holding a vertical tab or a form feed. Otherwise its tokens concatenate back to the text. |
| MacroExpansion.MacroRulesTotal | src/TexToWiki/Mediawiki/LatexMacroExpansion.php:53-62 | Every character but a vertical tab or a form feed starts a token. |
| MacroExpansion.MacroLexScannable | src/TexToWiki/Mediawiki/LatexMacroExpansion.php:53-62 | Text the scanner accepts holds neither a vertical tab nor a form feed. |
| MacroExpansion.LexBracesWellFormed | src/TexToWiki/Mediawiki/LatexMacroExpansion.php:56-58 | The scanner's braces are the single characters `{` and `}`. |
| MacroExpansion.Splice | src/TexToWiki/Mediawiki/LatexMacroExpansion.php:103-112 | The tokens from `begin` to `end` become one replacement token. The tokens before and after are kept in order. |
| MacroExpansion.Seen | src/TexToWiki/Mediawiki/LatexMacroExpansion.php:71-77 | Outside an invocation, a command naming the macro records its position. |
| MacroExpansion.Opened | src/TexToWiki/Mediawiki/LatexMacroExpansion.php:80-85 | A `{` is pushed, and the first one marks where the argument's tokens begin. |
| MacroExpansion.ExpandFrom | src/TexToWiki/Mediawiki/LatexMacroExpansion.php:66-120 | The definition of the walk from a position and a capture state. It has no contract of its own; the lemmas below state what it gives. |
| MacroExpansion.Expansion | src/TexToWiki/Mediawiki/LatexMacroExpansion.php:66-120 | The walk from a fresh cursor. It has no contract of its own; `Expand` is proved equal to it. |
| MacroExpansion.Invocation | src/TexToWiki/Mediawiki/LatexMacroExpansion.php:42-49 | Without a mention of the macro, the text is unchanged. A mentioned macro in text the scanner refuses gives the tokenizer error. |
| MacroExpansion.LatexMacroExpansion.Invoke | src/TexToWiki/Mediawiki/LatexMacroExpansion.php:42-49 | `__invoke` computes `Invocation`. |
| MacroExpansion.LatexMacroExpansion.Tokenize | src/TexToWiki/Mediawiki/LatexMacroExpansion.php:51-64 | A fresh cursor over the scanner's tokens, or the scanner's failure. |
| MacroExpansion.LatexMacroExpansion.Expand | src/TexToWiki/Mediawiki/LatexMacroExpansion.php:66-120 | The walk that rewrites the cursor's tokens in place gives exactly the specified expansion. |
| MacroExpansion.LatexMacroExpansion.Step | src/TexToWiki/Mediawiki/LatexMacroExpansion.php:71-116 | One pass of the loop matches the expansion relation from the state before it. |
| MacroExpansion.LatexMacroExpansion.CloseGroupAt | src/TexToWiki/Mediawiki/LatexMacroExpansion.php:87-95 | On a `}`, a mismatched opener fails and an inner group is passed over. Closing the outermost group captures an argument. |
| MacroExpansion.LatexMacroExpansion.CloseArgumentAt | src/TexToWiki/Mediawiki/LatexMacroExpansion.php:97-98 | The group's tokens are expanded on a fresh cursor and kept as the next argument. |
| MacroExpansion.LatexMacroExpansion.ExpandGroup | src/TexToWiki/Mediawiki/LatexMacroExpansion.php:97 | A group's tokens are expanded recursively on a slice. |
| MacroExpansion.LatexMacroExpansion.CompleteAt | src/TexToWiki/Mediawiki/LatexMacroExpansion.php:100-115 | With the last argument, the handler's result replaces the invocation's tokens and the cursor returns to the replacement. With fewer, capture goes on. |
| MacroExpansion.LatexMacroExpansion.StreamToString | src/TexToWiki/Mediawiki/LatexMacroExpansion.php:122-130 | The values of the tokens, concatenated in order. |
| MacroExpansion.NoInvocationKeepsText | src/TexToWiki/Mediawiki/LatexMacroExpansion.php:70-77 | Without an invocation ahead, every token is kept and the result is their text. |
| MacroExpansion.UnclosedKeepsText | src/TexToWiki/Mediawiki/LatexMacroExpansion.php:80-116 | An invocation with no `}` ahead leaves the text as it is. |
| MacroExpansion.FewGroupsKeepText | src/TexToWiki/Mediawiki/LatexMacroExpansion.php:80-116 | While the groups already captured plus the `}` ahead are fewer than the arity, the handler is never called and the text comes back unchanged. |
| MacroExpansion.FewGroupsExpansion | src/TexToWiki/Mediawiki/LatexMacroExpansion.php:66-120 | Scannable tokens with fewer `}` than the arity expand to their own text. |
| MacroExpansion.TwoGroupsOfThree | src/TexToWiki/Mediawiki/LatexMacroExpansion.php:66-120 | `\name{a}{b}` for a macro taking three groups is left as it was. |
| MacroExpansion.ExpandKeepsPrefix | src/TexToWiki/Mediawiki/LatexMacroExpansion.php:103-113 | Nothing before the walk's frontier changes, and a spliced replacement is never expanded again. |
| MacroExpansion.OneArgumentInvocation | src/TexToWiki/Mediawiki/LatexMacroExpansion.php:66-120 | `\name{body}` followed by tokens without an invocation gives the handler's result for the body, then the rest's text. |
| MacroExpansion.WalkBody | src/TexToWiki/Mediawiki/LatexMacroExpansion.php:80-95 | Inside a group, a balanced run of tokens is walked over with the capture state unchanged, so nested braces stay inside the one argument. |
| MacroExpansion.OneGroupStep | src/TexToWiki/Mediawiki/LatexMacroExpansion.php:80-98 | A balanced group after the invocation is captured as the expansion of its body, or its failure is the result. |
| MacroExpansion.GroupExpansions | src/TexToWiki/Mediawiki/LatexMacroExpansion.php:97 | The expansions of the groups' bodies, one per group in order, or the first failure. |
| MacroExpansion.GroupsCaptured | src/TexToWiki/Mediawiki/LatexMacroExpansion.php:80-115 | A run of balanced groups completing the arity is captured as their expansions in order, added after the arguments already captured. |
| MacroExpansion.GroupsInvocation | src/TexToWiki/Mediawiki/LatexMacroExpansion.php:66-120 | `\name{g1}…{gn}` with n equal to the arity and balanced groups, then tokens without an invocation: the handler gets the groups' expansions in source order, and its result is followed by the rest's text. A failing group or handler fails the whole. |
| MacroExpansion.NoBraceMismatch | src/TexToWiki/Mediawiki/LatexMacroExpansion.php:88-91 | The `braces do not match` exception cannot be raised on the scanner's tokens. Only a handler can make the expansion fail. |
| MacroExpansion.InvokeNeverMismatches | src/TexToWiki/Mediawiki/LatexMacroExpansion.php:42-49 | `__invoke` fails on a scanned formula only when a handler fails. |
| MacroExpansion.ZeroArityKeepsText | src/TexToWiki/Mediawiki/LatexMacroExpansion.php:100 | A macro taking no group never fires: the count is compared only after a group is added, so the text comes back unchanged. |
| MacroExpansion.ZeroArityInvocation | src/TexToWiki/Mediawiki/LatexMacroExpansion.php:42-49 | `__invoke` of a zero-argument macro gives back its input whenever the scanner accepts it. |
| MacroExpansion.PrecheckIsShortcut | src/TexToWiki/Mediawiki/LatexMacroExpansion.php:44-48 | The pre-check is only a shortcut. On scannable text, `__invoke` equals the expansion of its tokens. |
| MacroExpansion.UnmentionedNotInvoked | src/TexToWiki/Mediawiki/LatexMacroExpansion.php:44 | A token of text that never mentions the name does not invoke the macro. |
| MacroExpansion.Mask | src/TexToWiki/Mediawiki/LatexMacroExpansion.php:132-139 | Each `{#digits}`, scanned left to right, is replaced by the argument its decimal number names, counting from 1. The only failure is the null error of a placeholder without its argument. The lemmas below give the filled text. |
| MacroExpansion.PlaceholderAt | src/TexToWiki/Mediawiki/LatexMacroExpansion.php:135 | The length of the `{#digits}` the template starts with, or 0 when it starts with none. |
| MacroExpansion.MaskCopies | src/TexToWiki/Mediawiki/LatexMacroExpansion.php:135 | A character that does not start `{#` is copied. |
| MacroExpansion.MaskLiteral | src/TexToWiki/Mediawiki/LatexMacroExpansion.php:135 | Text holding no `{#`, whose last character does not make `{#` with what follows, is copied. A `#` on its own is copied. |
| MacroExpansion.MaskPlaceholder | src/TexToWiki/Mediawiki/LatexMacroExpansion.php:135-137 | A placeholder `{#n}`, with n written in decimal with any number of digits, becomes argument n. |
| MacroExpansion.MaskAtPlaceholder | src/TexToWiki/Mediawiki/LatexMacroExpansion.php:135-137 | At any placeholder the template starts with, leading zeros included, the argument its digits name is filled in. |
| MacroExpansion.MaskMissingArgument | src/TexToWiki/Mediawiki/LatexMacroExpansion.php:136 | A placeholder numbered past the arguments fails with the null error, whatever follows. |
| MacroExpansion.MaskDigit | src/TexToWiki/Mediawiki/LatexMacroExpansion.php:135-137 | A one-digit placeholder becomes its argument. |
| MacroExpansion.MaskRenders | src/TexToWiki/Mediawiki/LatexMacroExpansion.php:135-137 | A template whose placeholders all have their argument is filled piece by piece. |
| MacroExpansion.MaskFillsOne | src/TexToWiki/Mediawiki/LatexMacroExpansion.php:135-137 | Templates with one to four placeholders in order between literal texts are filled with the arguments in order. |
| Configurator.TextHandler | src/TexToWiki/Mediawiki/Configurator.php:63-72 | The handler always succeeds. |
| Configurator.TextScriptsize | src/TexToWiki/Mediawiki/Configurator.php:64-66 | A `\scriptsize` prefix, in any case, becomes `\LARGE{rest}`. |
| Configurator.TextRm | src/TexToWiki/Mediawiki/Configurator.php:67-69 | Otherwise a `\rm` prefix becomes `\textrm{rest}`. |
| Configurator.TextPlain | src/TexToWiki/Mediawiki/Configurator.php:71 | Anything else is wrapped in `\text{…}`. |
| Configurator.MacroRegistry.AddMacroHandler | src/TexToWiki/Mediawiki/Configurator.php:45 | Registers or replaces exactly one macro under its name. |
| Configurator.MacroRegistry.AddMacroReplacements | src/TexToWiki/Mediawiki/Configurator.php:14-44 | Registers each pair as a renaming macro, in order. |
| Configurator.MacroRegistry.ConfigureMB102 | src/TexToWiki/Mediawiki/Configurator.php:11-75 | The chained registration calls build exactly the catalog. |
| Configurator.Catalog | src/TexToWiki/Mediawiki/Configurator.php:11-75 | The catalog as a map from name to macro, one entry per registration call. Its content is stated by the catalog lemmas below. |
| Configurator.RegisterFilesByName | src/TexToWiki/Mediawiki/Configurator.php:14-44 | Every renaming macro is filed under its own name. |
| Configurator.RegisterLast | src/TexToWiki/Mediawiki/Configurator.php:14-44 | The last pair under a name is the macro found under it. |
| Configurator.RegisterOthers | src/TexToWiki/Mediawiki/Configurator.php:14-44 | A name no pair registers keeps what the registry held. |
| Configurator.CatalogFiledByName | src/TexToWiki/Mediawiki/Configurator.php:11-75 | Every catalog macro is filed under its own name. |
| Configurator.CatalogArities | src/TexToWiki/Mediawiki/Configurator.php:45-63 | The declared numbers of brace groups. |
| Configurator.CatalogLabelRefEmpty | src/TexToWiki/Mediawiki/Configurator.php:60-61 | `label` and `ref` expand to nothing, whatever their argument. |
| Configurator.CatalogText | src/TexToWiki/Mediawiki/Configurator.php:63 | `text` takes one group and uses the `text` handler. |
| Configurator.CatalogRenameRbb | src/TexToWiki/Mediawiki/Configurator.php:15 | `Rbb` takes no argument, and its handler produces `\R`. |
| Configurator.CatalogRenameEps | src/TexToWiki/Mediawiki/Configurator.php:36 | `eps` takes no argument, and its handler produces `\varepsilon`. |
| Configurator.CatalogRenameLa | src/TexToWiki/Mediawiki/Configurator.php:39 | `la` takes no argument, and its handler produces `\lambda`. |
| Configurator.MdetFills | src/TexToWiki/Mediawiki/Configurator.php:45 | `\mdet{a}` gives the determinant template around `a`. |
| Configurator.BigseqFills | src/TexToWiki/Mediawiki/Configurator.php:47 | `\bigseq{a}{n}{k}` gives the sequence template with the three arguments in place. |
| Configurator.SubstituceFills | src/TexToWiki/Mediawiki/Configurator.php:51 | `\substituce{a}{b}` gives the two substitutions stacked in a bar. |
| Configurator.PerpartesFills | src/TexToWiki/Mediawiki/Configurator.php:50 | `\perpartes` gives the four parts of an integration by parts in a table. |
| Configurator.CatalogMdet | src/TexToWiki/Mediawiki/Configurator.php:45 | The catalog's `mdet` fills its template with its argument. |
| Configurator.MdetExpansion | src/TexToWiki/Mediawiki/Configurator.php:45 | Expanding `\mdet{…}` puts the group's text into the template and keeps the tokens after the group. |
| Configurator.BigseqShortOfGroups | src/TexToWiki/Mediawiki/Configurator.php:47 | `\bigseq{a}{b}`, two groups where three are needed, is left as it was. |
| Configurator.CatalogRenameLeavesText | src/TexToWiki/Mediawiki/Configurator.php:15 | A renaming never fires in the expander: scannable text mentioning `\Rbb` comes back unchanged. |
| Serializer.ToUrl | src/TexToWiki/Mediawiki/Serializer.php:319-324 | Spaces become `_` and apostrophes `’`. Every other character is kept in place. |
| Serializer.TocName | src/TexToWiki/Mediawiki/Serializer.php:328 | The Toc section's name. It fails when the section has no name. |
| Serializer.PageLevel | src/TexToWiki/Mediawiki/Serializer.php:327-332 | `/` and the URL-safe name, or nothing when the level is missing. |
| Serializer.MatchingLabels | src/TexToWiki/Mediawiki/Serializer.php:305-306 | The labels named exactly `caption`, in document order. It fails when some label's name cannot be read. |
| Serializer.MatchingLabelsKeep | src/TexToWiki/Mediawiki/Serializer.php:305-306 | The labels kept are exactly those named `caption`, and no label of that name precedes the first one kept. |
| Serializer.FindLabel | src/TexToWiki/Mediawiki/Serializer.php:305-307 | The first matching label, or none. |
| Serializer.FindLabelIsFirst | src/TexToWiki/Mediawiki/Serializer.php:305-311 | The label found is the document's first label named `caption`. Nothing is found only when no label has that name. |
| Serializer.Page | src/TexToWiki/Mediawiki/Serializer.php:326-332 | `:MB102`, then each present level. |
| Serializer.CommandRefToWikiLink | src/TexToWiki/Mediawiki/Serializer.php:302-346 | The link of the first label named `caption`, none without one. A label outside every Toc section fails. |
| Serializer.WikiLinkTargetsFirstLabel | src/TexToWiki/Mediawiki/Serializer.php:305-311 | The link found points to the document's first label named `caption`. |
| Serializer.WikiLinkNeedsToc | src/TexToWiki/Mediawiki/Serializer.php:313-317 | A label outside every Toc section and subsection has no page. |
| Serializer.WikiLinkShape | src/TexToWiki/Mediawiki/Serializer.php:334-340 | The link is the page, followed by `#` and the complete label id unless the label type is `S` or `SS`. |
| Serializer.PageIsSafe | src/TexToWiki/Mediawiki/Serializer.php:319-332 | A page starts with `:MB102` and holds no space and no apostrophe. |
| Serializer.RefHandler | src/TexToWiki/Mediawiki/Serializer.php:37-44 | `\wikiref{link}` for a label that is found, nothing for one that is not. |
| Serializer.SerializerMacros | src/TexToWiki/Mediawiki/Serializer.php:36-45 | The serializer's macros are the catalog's names plus `ref` and `eqref`, both taking one argument. |
| Serializer.MacroSetup.constructor | src/TexToWiki/Mediawiki/Serializer.php:34-46 | The constructor's registry holds exactly the serializer's macros. |
| Serializer.SerializerRefs | src/TexToWiki/Mediawiki/Serializer.php:36-45 | `ref` and `eqref` take one argument and share the link handler. Every other catalog macro is kept. |
| Serializer.ConvertText | src/TexToWiki/Mediawiki/Serializer.php:154-160 | A text without `--` is unchanged, and one that starts with `--` converts to one that starts with `&ndash;`. |
| Serializer.ConvertTextFirst | src/TexToWiki/Mediawiki/Serializer.php:157 | The conversion starts with `&` where the text starts with `--`, and with the text's own first character otherwise. |
| Serializer.ConvertTextRemovesDoubleDashes | src/TexToWiki/Mediawiki/Serializer.php:157 | No `--` is left after the conversion. |
| Serializer.ConvertTextSplit | src/TexToWiki/Mediawiki/Serializer.php:157 | At the first `--`, the text before it is kept, that `--` becomes `&ndash;`, and the rest is converted in turn. |
| Serializer.ConvertTextExample | src/TexToWiki/Mediawiki/Serializer.php:157 | A double dash between digits becomes `&ndash;`. |

## Left out

- **Regular-expression engine.** Nette's `Tokenizer` is PCRE. It is modelled as a first-match scanner over hand-written matchers for each rule. Only the constructs these rules use are modelled: literals, character classes, `\s`, look-behind at a backslash or line start, and the `(?![a-zA-Z0-9])` look-ahead.
- **Nette's cursor base class.** `Nette\Utils\TokenIterator` is not part of this model. `nextToken`, `nextValue`, `nextUntil`, `joinUntil`, `isNext` and `currentValue` are modelled on token types.
  - `isNext`, `nextUntil` and `joinUntil` match by type only. Nette's `scan` also accepts a token whose value equals a wanted type's name. `StopAt` with `byValue` models that walk, and the Findings section shows where the two differ.
  - `isNext()` with no types tests that a token is left.
- **`Strings::normalize` and `Strings::webalize`.** They are not modelled. `Parse` takes already normalized text, and `webalize` is a function parameter.
- **Doctrine collections.** They are sequences, so `filter` and `slice` reindex where Doctrine keeps keys, and `first()` on an empty result is `None`. The one place the keys matter is `getArguments()->get(1)` in the theorem title. There the model reads the begin command's argument 1 directly, as the preserved keys do.
- **Class hierarchy.** The AST classes are variants of one `Kind` datatype. A class's `instanceof` is a predicate on the kind.
  - Node identity (`spl_object_hash`) and `Node::__toString` are not modelled.
  - The Style classes and the theorem subclasses other than Theorem and Solution are named variants. Their `NAME` constants are taken to be the lower-case class names, since those files are not part of this model.
- **`addMacroHandler`, `addMacroReplacements` and the no-argument constructor.** `Configurator.php` and `Serializer.php` call these, but `LatexMacroExpansion.php` defines a single macro. The registry is modelled as `MacroRegistry`, a map from name to macro. A renaming pair is taken to be a macro of no arguments producing `\target`. The expander compares the argument count only after it has captured a group, so a macro of no arguments never fires. All 29 renames of Configurator.php:14-44 are therefore inert in this model: text mentioning them comes back unchanged (CatalogRenameLeavesText, ZeroArityKeepsText).
- **Rescanning after a splice.** The replacement is never rescanned. The code puts the cursor back on the replacement token and reads on after it. The model follows the code.
- **`argumentBegin = false`.** `array_slice` reads `argumentBegin = false` as 0, and the model does the same.
- **The rest of `Serializer`.** Output buffering, `echo`, HTML generation and the other `convert*` methods are out of scope, as are the citations stack, `Helpers.php` and `bin/`. `convertText` is modelled as the conversion function whose result would be echoed.
- **Serializer.RefHandler: the document is fixed.** The ref handler resolves against a document fixed at construction. The source instead reads `$this->document`, which `convert` sets later.
- **Serializer.ToUrl: `’` as one character.** `’` is one character, where PHP's `strtr` writes its three UTF-8 bytes.
- **Configurator.TextHandler: ASCII case folding only.** `stripos` is modelled with ASCII case folding, and a missing argument reads as `''`.
- **Mask instances.** Template lemmas are proved for `mdet`, `bigseq`, `substituce` and `perpartes` only. The other masks are registered with their exact templates but have no instance lemma.
- **Encoding.** Strings are sequences of characters. `mb_strlen` and `mb_substr_count` count characters.
- TokenStream.TokenIterator.NextUntil: stops only at a token of a wanted type. Nette's `nextUntil` also stops at a token whose value is a wanted type's name, which only `StopAt` with `byValue` models.
- TokenStream.TokenIterator.JoinUntil: joins up to the first token of a wanted type only. Nette's `joinUntil` also stops at a token whose value is a wanted type's name (see Findings).
- TokenStream.TokenIterator.IsNext: tests the type only. Nette's `isNext` is also true at a token whose value is one of the given type names.
- ParseMath: the formula ends at the next token of the opening's type. In the source it also ends at a text token whose value is `math_inline` or `math_block`, as FormulaCutByValue shows.
- WalkMathBody: the skip over other tokens stops only at command, `\begin` or `\end` tokens. In the source it also stops at a text token whose value is `command`, `command_begin` or `command_end`, as CommandWordStopsWalk shows.
- ParseMathBlockBody: each kept label is proved to come, in order, from its own `\label` token of the walk. The contract does not say that no `\label` token of the walk is missed, and nor do those of WalkMathBody and MathNested.
- MathNested: the labels kept are stated through the tokens they come from, not as equal to the nested body's nodes, which the contract cannot name.
- LatexParser.Parser.ParseCommand: the arguments are not tied one to one to the bracket groups that follow the command, nor to their optional flag or their nodes. The contract states the class, that every child is an argument, that a group ahead gives at least one argument, and that none is left ahead. Each group's own facts are stated by TakeArgument and ParseCommandArgument: the argument is optional exactly for `[`, and it ends at the matching closing bracket.
- ParseSectionItems: the items are tied to ghost parts (the `\item` commands, their bodies and the leading commands). The parts are not tied back to the token positions they were parsed from.
- FewGroupsKeepText: counts every `}` ahead, nested ones included, not only those that close an outer group. A short invocation whose groups hold nested braces is covered by UnclosedKeepsText only when no `}` follows.
- MacroExpansion.MaskRenders: templates are laid out with each placeholder's number in its shortest decimal form. A placeholder with leading zeros is covered by MaskAtPlaceholder alone.

## Findings

| source | as written | input that shows it | evidently intended | confidence | as-written member | corrected member |
|---|---|---|---|---|---|---|
| src/TexToWiki/Latex/AST/Command.php:56 | `implode($argument->getChildren())` passes a Collection object to one-argument `implode`, which takes only an array, so each argument renders as empty brackets | the command `\ref{x}` renders as `\ref{}` | each argument's children concatenated, `\ref{x}` | not executed | AstCommand.CommandStringDropsBodies | AstCommand.CommandToString |
| src/TexToWiki/Latex/Parser.php:385 | `joinUntil($token[Tokenizer::TYPE])` hands a type name to Nette's `scan`, which also stops at a token whose value equals that name, so a formula holding the word `math_inline` ends early | `$a=math_inline=b$` gives the inline formula `a=` | the formula runs to its closing `$`, `a=math_inline=b` (FormulaWholeByType) | not executed | TokenStream.FormulaCutByValue | TokenStream.TokenIterator.JoinUntil |
