/** The recursive-descent parser: a cursor over the document's tokens (comments removed) and one
    method per production. Each production reads from the shared stream, builds its node through
    the constructors of `AstBuild`, and hands an exception back as an `Err` that aborts the
    parse. */
module LatexParser {
  import opened Wrappers
  import opened Tokens
  import opened StringUtils
  import opened TokenStream
  import opened Tokenizer
  import opened AstNode
  import opened AstCommand
  import opened AstSection
  import opened AstBuild

  /** The token types that end a text run. */
  const Terminal: seq<TokenType> := [
    CommandSection, CommandSubsection, CommandBegin, CommandEnd, Command,
    MathInline, MathBlock, CurlyLeft, CurlyRight, SquareLeft, SquareRight
  ]

  /** `str_replace('left', 'right', $type)` on the type of an opening bracket. */
  function CloseOf(t: TokenType): TokenType {
    match t
    case CurlyLeft => CurlyRight
    case SquareLeft => SquareRight
    case _ => t
  }

  /** The name prefixes of the math environments, in the order of the source's alternation. */
  const MathPrefixes: seq<string> := ["align", "gather", "equation", "tabular", "eqnarray", "pspicture"]

  /** The environments whose body is kept as formula text (`~^(align|...)~i`). */
  predicate IsMathEnvironment(name: string): (r: bool)
    ensures r <==> exists i :: 0 <= i < |MathPrefixes| && StartsWithCI(name, MathPrefixes[i])
  {
    assert MathPrefixes[0] == "align" && MathPrefixes[1] == "gather" && MathPrefixes[2] == "equation";
    assert MathPrefixes[3] == "tabular" && MathPrefixes[4] == "eqnarray" && MathPrefixes[5] == "pspicture";
    StartsWithCI(name, "align") || StartsWithCI(name, "gather") || StartsWithCI(name, "equation") ||
    StartsWithCI(name, "tabular") || StartsWithCI(name, "eqnarray") || StartsWithCI(name, "pspicture")
  }

  /** The section name of a boundary, with PHP's coercion of null to the empty string. */
  function EnvironmentName(b: Node): string {
    match LeadName(b)
    case Ok(Some(v)) => v
    case _ => ""
  }

  predicate IsBoundary(n: Node, name: string) {
    n.kind == CommandNode(BoundaryCommand, name)
  }

  /** The bracket groups `parseCommand` takes as arguments, and the tokens it skips before one. */
  const ArgumentOpen: Wanted := Many([CurlyLeft, SquareLeft])
  const ArgumentGap: seq<TokenType> := [Whitespace, Newline]

  /** The text a run of tokens leaves in a Text node. */
  function TextOf(first: Token, rest: seq<Token>): string {
    ReplaceChar(first.value + Join(rest), '~', ' ')
  }

  /** The section name a boundary holds, or null. */
  function BoundaryName(b: Node): Option<string> {
    match LeadName(b)
    case Ok(v) => v
    case Err(_) => None
  }

  /** The check `parseSectionBegin` makes of the command it parsed. */
  function CheckSectionBegin(begin: Node): (r: Result<Node>)
    ensures r.Ok? <==> IsBoundary(begin, "begin")
    ensures r.Ok? ==> r.value == begin
    ensures r.Err? ==> r.error == UnexpectedNode
  {
    if IsBoundary(begin, "begin") then Ok(begin) else Err(UnexpectedNode)
  }

  /** The checks `parseSectionEnd` makes of the command it parsed: it must be an `\end`
      boundary, and it must close the section its `\begin` opened. */
  function CheckSectionEnd(end: Node, begin: Node): (r: Result<Node>)
    ensures r.Ok? <==> IsBoundary(end, "end") && BoundaryName(end) == BoundaryName(begin)
    ensures r.Ok? ==> r.value == end
    ensures !IsBoundary(end, "end") ==> r == Err(UnexpectedNode)
    ensures IsBoundary(end, "end") && BoundaryName(end) != BoundaryName(begin) ==> r == Err(SectionEndMismatch)
  {
    if !IsBoundary(end, "end") then Err(UnexpectedNode)
    else if BoundaryName(end) != BoundaryName(begin) then Err(SectionEndMismatch)
    else Ok(end)
  }

  /** The body a math environment keeps: labels, then exactly one block formula. */
  predicate MathBody(body: seq<Node>) {
    |body| >= 1 && body[|body| - 1].kind.MathNode? && !body[|body| - 1].kind.inline &&
    AllLabels(body[..|body| - 1])
  }

  predicate AllLabels(ns: seq<Node>) {
    forall i :: 0 <= i < |ns| ==> IsLabelNode(ns[i])
  }

  lemma AllLabelsAppend(a: seq<Node>, b: seq<Node>)
    requires AllLabels(a) && AllLabels(b)
    ensures AllLabels(a + b)
  {
    assert forall i :: 0 <= i < |a| ==> (a + b)[i] == a[i];
    assert forall i :: |a| <= i < |a + b| ==> (a + b)[i] == b[i - |a|];
  }

  predicate AllItems(ns: seq<Node>) {
    forall i :: 0 <= i < |ns| ==> IsItem(ns[i])
  }

  lemma AllItemsSnoc(ns: seq<Node>, n: Node)
    requires AllItems(ns) && IsItem(n)
    ensures AllItems(ns + [n])
  {
    assert forall i :: 0 <= i < |ns| ==> (ns + [n])[i] == ns[i];
  }

  predicate IsItem(n: Node) {
    n.kind == CommandNode(EnumerationItemCommand, "item") && n.children != [] &&
    n.children[|n.children| - 1].kind == ArgumentNode(false)
  }

  /** `createEnumerationItem($openingItem, $body)`: an `item` holding the opening command's
      arguments and then the body as one mandatory argument. */
  function CreateEnumerationItem(opening: Node, body: seq<Node>): (r: Result<Node>)
    ensures r.Ok? ==> r.value == Node(CommandNode(EnumerationItemCommand, "item"),
                                      opening.children + [Node(ArgumentNode(false), body)])
    ensures r.Ok? ==> IsItem(r.value)
    ensures r.Ok? <==> ParentsAccept(ArgumentNode(false), body) &&
                       ParentsAccept(CommandNode(EnumerationItemCommand, "item"), opening.children)
  {
    var arg :- Build(ArgumentNode(false), body);
    assert ParentsAccept(CommandNode(EnumerationItemCommand, "item"), opening.children + [arg]) ==
           ParentsAccept(CommandNode(EnumerationItemCommand, "item"), opening.children) by {
      ValidateParentCases(arg.kind, CommandNode(EnumerationItemCommand, "item"));
      if ParentsAccept(CommandNode(EnumerationItemCommand, "item"), opening.children + [arg]) {
        forall i | 0 <= i < |opening.children|
          ensures ValidateParent(opening.children[i].kind, CommandNode(EnumerationItemCommand, "item"))
        {
          assert (opening.children + [arg])[i] == opening.children[i];
        }
      }
    }
    Build(CommandNode(EnumerationItemCommand, "item"), opening.children + [arg])
  }

  /** The end of `parseScope`: the command the scope opened with, holding the scope's nodes as
      its one mandatory argument. */
  function ScopeFrom(name: string, body: seq<Node>): (r: Result<Node>)
    ensures r.Ok? ==> r.value == Node(CommandNode(CommandClassFor(name), name), [Node(ArgumentNode(false), body)])
    ensures AllBuilt(body) && r.Ok? ==> Built(r.value)
  {
    var arg :- Build(ArgumentNode(false), body);
    var r := CreateCommand(name, [arg]);
    if r.Ok? && AllBuilt(body) then
      BuildBuilt(ArgumentNode(false), body);
      BuildBuilt(CommandNode(CommandClassFor(name), name), [arg]);
      r
    else r
  }

  /** One more token read back by `reread` extends the text read so far by its value. */
  lemma RereadGrows(ts: seq<Token>, start: int, q: int, text: Option<string>)
    requires -1 <= start <= q && q + 1 < |ts|
    requires text.None? <==> q == start
    requires text.Some? ==> text.value == Join(ts[start + 1..q + 1])
    ensures Join(ts[start + 1..q + 2]) == (if text.Some? then text.value else "") + ts[q + 1].value
  {
    JoinExtend(ts, start + 1, q + 1);
    if text.None? {
      assert ts[start + 1..q + 1] == [];
    }
  }

  /** A command `parseCommand` returns without arguments is a plain command node. */
  lemma ScopeCommand(name: string, n: Node)
    requires CommandShape(name, n) && n.children == []
    ensures n.kind == CommandNode(CommandClassFor(name), name)
  {
  }

  /** The token `isNext` found is the one `nextToken` moves onto. */
  lemma CloseAhead(ts: seq<Token>, position: int, close: TokenType)
    requires NextIs(ts, position, [close])
    ensures 0 <= position + 1 < |ts| && ts[position + 1].kind == close
  {
  }

  /** What `parseNext` makes of a token of each type. */
  predicate Dispatched(t: TokenType, k: Kind) {
    match t
    case CommandSection => k == SectionNode(TocSection)
    case CommandSubsection => k == SectionNode(TocSubSection)
    case CommandBegin => k.SectionNode?
    case CommandEnd => k.CommandNode? || k == SectionNode(TheoremSection(Solution))
    case Command => k.CommandNode? || k == SectionNode(TheoremSection(Solution))
    case MathInline => k.MathNode? && k.inline
    case MathBlock => k.MathNode? && !k.inline
    case CurlyLeft => k.TextNode? || k.CommandNode?
    case _ => k.TextNode?
  }

  predicate AllArguments(ns: seq<Node>) {
    forall i :: 0 <= i < |ns| ==> ns[i].kind.ArgumentNode?
  }

  lemma AllArgumentsSnoc(ns: seq<Node>, n: Node)
    requires AllArguments(ns) && n.kind.ArgumentNode?
    ensures AllArguments(ns + [n])
  {
    assert forall i :: 0 <= i < |ns| ==> (ns + [n])[i] == ns[i];
  }

  /** What `parseCommand` returns for a name: a command of the class `createCommand` gives,
      holding only arguments, or for `reseni` a solution named `reseni`. */
  predicate CommandShape(name: string, n: Node) {
    if name == "reseni" then
      n.kind == SectionNode(TheoremSection(Solution)) && HasBegin(n) && Name(n) == Ok(Some("reseni"))
    else
      n.kind == CommandNode(CommandClassFor(name), name) &&
      forall i :: 0 <= i < |n.children| ==> n.children[i].kind.ArgumentNode?
  }

  /** The end of `parseCommand`, once the arguments are read: `reseni` needs exactly one
      argument, whose nodes become the body of a solution; any other name makes a command. */
  function CommandFrom(name: string, arguments: seq<Node>): (r: Result<Node>)
    requires AllArguments(arguments)
    ensures r.Ok? ==> CommandShape(name, r.value)
    ensures name != "reseni" && r.Ok? ==> r.value.children == arguments
    ensures name == "reseni" && r.Ok? ==> |arguments| == 1 && Body(r.value) == arguments[0].children
    ensures name == "reseni" && |arguments| != 1 ==> r == Err(NotImplemented)
    ensures name != "reseni" ==>
      (r.Err? <==> !Derives(Node(CommandNode(CommandClassFor(name), name), arguments)))
    ensures AllBuilt(arguments) && r.Ok? ==> Built(r.value)
  {
    if name == "reseni" then
      if |arguments| != 1 then Err(NotImplemented)
      else
        BeginCommandBuilt(name, name);
        var r := CreateSection(name, BeginCommand(name, name), arguments[0].children);
        if r.Ok? && AllBuilt(arguments) then
          assert Built(arguments[0]);
          BuildBuilt(SectionNode(SectionClassFor(name)), [BeginCommand(name, name)] + arguments[0].children);
          r
        else r
    else
      CommandArgumentsAccepted(name, arguments);
      var r := CreateCommand(name, arguments);
      if r.Ok? && AllBuilt(arguments) then
        BuildBuilt(CommandNode(CommandClassFor(name), name), arguments);
        r
      else r
  }

  /** A command accepts any sequence of arguments as children. */
  lemma CommandArgumentsAccepted(name: string, arguments: seq<Node>)
    requires AllArguments(arguments)
    ensures ParentsAccept(CommandNode(CommandClassFor(name), name), arguments)
  {
    forall i | 0 <= i < |arguments|
      ensures ValidateParent(arguments[i].kind, CommandNode(CommandClassFor(name), name))
    {
      ValidateParentCases(arguments[i].kind, CommandNode(CommandClassFor(name), name));
    }
  }

  /** The command after a `{` at `position` is followed, past whitespace and newlines, by an
      opening bracket: `parseCommand` gives it an argument. */
  predicate ArgumentAfterCommand(ts: seq<Token>, position: int) {
    -1 <= position && position + 1 < |ts| &&
    LookaheadPosition(ts, position + 1, ArgumentOpen, ArgumentGap).Some?
  }

  /** What `parseScope` builds from the command after the `{` at `open`, ending on the `}` at
      `close`: that command, by its trimmed name, with one mandatory argument. */
  predicate ScopedCommand(ts: seq<Token>, open: int, close: int, n: Node) {
    && -1 <= open && open + 1 < |ts| && 0 <= close < |ts|
    && var name := LTrimBackslashes(ts[open + 1].value);
       && n.kind == CommandNode(CommandClassFor(name), name)
       && |n.children| == 1 && n.children[0].kind == ArgumentNode(false)
       && ts[close].kind == CurlyRight
  }

  class Parser {
    var stream: TokenIterator?

    ghost predicate Valid()
      reads this, stream
    {
      stream != null && stream.Valid()
    }

    constructor ()
      ensures stream == null
    {
      stream := null;
    }

    /** `parse($content)`: tokenize the normalized text, drop the comments, parse nodes while
        tokens remain and put them under a Document; the stream is released afterwards. */
    method Parse(content: string, normalize: string -> string) returns (r: Result<Node>)
      modifies this
      ensures stream == null
      ensures r.Ok? ==> r.value.kind == DocumentNode && Built(r.value)
      ensures r.Ok? ==> forall d :: d in Descendants(r.value) ==> d.node.kind != DocumentNode
      ensures r.Ok? ==> forall d :: d in Descendants(r.value) && IsTocSection(d.node) ==> d.ancestors == [r.value]
    {
      var it := Tokenize(normalize(content));
      stream := it.Without([Comment]);
      var nodes := DoParse();
      if nodes.Err? {
        stream := null;
        return Err(nodes.error);
      }
      r := NewNode(DocumentNode, nodes.value);
      stream := null;
      if r.Ok? {
        BuildBuilt(DocumentNode, nodes.value);
        BuiltTreeShape(r.value);
      }
    }

    /** `doParse()`: the top-level nodes, until no token is left. */
    method DoParse() returns (r: Result<seq<Node>>)
      requires Valid()
      modifies stream
      ensures Valid() && stream.tokens == old(stream.tokens)
      ensures r.Ok? ==> AllBuilt(r.value) && !stream.IsNext([])
    {
      var nodes: seq<Node> := [];
      while stream.IsNext([])
        invariant Valid() && stream.tokens == old(stream.tokens)
        invariant AllBuilt(nodes)
        decreases |stream.tokens| - stream.position
      {
        var node :- ParseNext();
        AllBuiltSnoc(nodes, node);
        nodes := nodes + [node];
      }
      r := Ok(nodes);
    }

    /** `parseNext()`: take a token and dispatch on its type; at the end of the stream the parser
        raises its exception. */
    method ParseNext() returns (r: Result<Node>)
      requires Valid()
      modifies stream
      ensures Valid() && stream.tokens == old(stream.tokens)
      ensures !old(stream.IsNext([])) ==> r == Err(ParserException)
      ensures r.Ok? ==> old(stream.position) < stream.position && Built(r.value)
      ensures r.Ok? ==> Dispatched(stream.tokens[old(stream.position) + 1].kind, r.value.kind)
      decreases |stream.tokens| - stream.position, 1
    {
      var t := stream.NextToken();
      if t.None? {
        return Err(ParserException);
      }
      r := ParseToken(t.value);
    }

    /** The dispatch of `parseNext()` on the type of the token just taken. */
    method ParseToken(token: Token) returns (r: Result<Node>)
      requires Valid() && 0 <= stream.position < |stream.tokens|
      modifies stream
      ensures Valid() && stream.tokens == old(stream.tokens)
      ensures r.Ok? ==> old(stream.position) <= stream.position && Built(r.value)
      ensures r.Ok? ==> Dispatched(token.kind, r.value.kind)
      decreases |stream.tokens| - stream.position, 7
    {
      var kind := token.kind;
      if kind == CommandSection {
        r := ParseTocSection(token);
      } else if kind == CommandSubsection {
        r := ParseTocSubSection(token);
      } else if kind == CommandBegin {
        r := ParseSection(token);
      } else if kind == CommandEnd || kind == Command {
        r := ParseCommand(token);
      } else if kind == CurlyLeft {
        r := ParseScope(token);
      } else {
        var leaf := ParseLeaf(token);
        r := Ok(leaf);
      }
    }

    /** The dispatch of `parseNext()` for the tokens that give a leaf: a formula for `$` or
        `$$`, text for every other type that opens no command, section or scope. */
    method ParseLeaf(token: Token) returns (n: Node)
      requires Valid() && 0 <= stream.position < |stream.tokens|
      requires token.kind !in {CommandSection, CommandSubsection, CommandBegin, CommandEnd, Command, CurlyLeft}
      modifies stream
      ensures Valid() && stream.tokens == old(stream.tokens)
      ensures old(stream.position) <= stream.position && Built(n)
      ensures Dispatched(token.kind, n.kind)
    {
      if token.kind == MathInline || token.kind == MathBlock {
        n := ParseMath(token);
      } else {
        n := ParseText(token);
      }
      LeafBuilt(n.kind);
    }

    /** The loop of `parseCommandArgument` and `parseScope`: nodes until the next token has the
        closing type; at the end of the stream `parseNext` fails. */
    method ParseNodesUntil(close: TokenType) returns (r: Result<seq<Node>>)
      requires Valid()
      modifies stream
      ensures Valid() && stream.tokens == old(stream.tokens)
      ensures r.Ok? ==> old(stream.position) <= stream.position && AllBuilt(r.value)
      ensures r.Ok? ==> stream.IsNext([close])
      decreases |stream.tokens| - stream.position, 2
    {
      var nodes: seq<Node> := [];
      while !stream.IsNext([close])
        invariant Valid() && stream.tokens == old(stream.tokens)
        invariant old(stream.position) <= stream.position
        invariant AllBuilt(nodes)
        decreases |stream.tokens| - stream.position
      {
        var node :- ParseNext();
        AllBuiltSnoc(nodes, node);
        nodes := nodes + [node];
      }
      r := Ok(nodes);
    }

    /** The loop of `parseTocSection`, `parseTocSubSection` and `parseSection`: nodes while a
        token is left and it has none of the stop types. */
    method ParseNodesWhile(stop: seq<TokenType>) returns (r: Result<seq<Node>>)
      requires Valid() && stop != []
      modifies stream
      ensures Valid() && stream.tokens == old(stream.tokens)
      ensures r.Ok? ==> old(stream.position) <= stream.position && AllBuilt(r.value)
      ensures r.Ok? ==> !stream.IsNext([]) || stream.IsNext(stop)
      decreases |stream.tokens| - stream.position, 2
    {
      var nodes: seq<Node> := [];
      while stream.IsNext([]) && !stream.IsNext(stop)
        invariant Valid() && stream.tokens == old(stream.tokens)
        invariant old(stream.position) <= stream.position
        invariant AllBuilt(nodes)
        decreases |stream.tokens| - stream.position
      {
        var node :- ParseNext();
        AllBuiltSnoc(nodes, node);
        nodes := nodes + [node];
      }
      r := Ok(nodes);
    }

    /** `parseText($token)`: the token's value and the values of the tokens after it up to the
        next terminal type (or the end), each `~` turned into a space. */
    method ParseText(token: Token) returns (n: Node)
      requires Valid() && stream.position < |stream.tokens|
      modifies stream
      ensures Valid() && stream.tokens == old(stream.tokens)
      ensures old(stream.position) <= stream.position < |stream.tokens|
      ensures n == Node(TextNode(TextOf(token, stream.tokens[old(stream.position) + 1..stream.position + 1])), [])
      ensures NoneOfBetween(stream.tokens, old(stream.position), stream.position, Terminal)
      ensures !stream.IsNext([]) || stream.IsNext(Terminal)
    {
      var start := stream.position;
      var text := token.value;
      while stream.IsNext([]) && !stream.IsNext(Terminal)
        invariant Valid() && stream.tokens == old(stream.tokens)
        invariant start <= stream.position < |stream.tokens|
        invariant text == token.value + Join(stream.tokens[start + 1..stream.position + 1])
        invariant NoneOfBetween(stream.tokens, start, stream.position, Terminal)
        decreases |stream.tokens| - stream.position
      {
        text := TextStep(token, start, text);
      }
      n := Node(TextNode(ReplaceChar(text, '~', ' ')), []);
    }

    /** One round of `parseText`'s loop: the next token, of no terminal type, adds its value. */
    method TextStep(token: Token, start: int, text: string) returns (longer: string)
      requires Valid() && -1 <= start <= stream.position && stream.IsNext([]) && !stream.IsNext(Terminal)
      requires text == token.value + Join(stream.tokens[start + 1..stream.position + 1])
      requires NoneOfBetween(stream.tokens, start, stream.position, Terminal)
      modifies stream
      ensures Valid() && stream.tokens == old(stream.tokens) && stream.position == old(stream.position) + 1
      ensures longer == token.value + Join(stream.tokens[start + 1..stream.position + 1])
      ensures NoneOfBetween(stream.tokens, start, stream.position, Terminal)
    {
      NoneOfBetweenExtend(stream.tokens, start, stream.position, Terminal);
      TextGrows(stream.tokens, start, stream.position, token.value, text);
      var v := stream.NextValue();
      longer := text + v;
    }

    /** The text read so far grows by the value of the next token. */
    static lemma TextGrows(ts: seq<Token>, start: int, position: int, first: string, text: string)
      requires -1 <= start <= position && position + 1 < |ts|
      requires text == first + Join(ts[start + 1..position + 1])
      ensures text + ts[position + 1].value == first + Join(ts[start + 1..position + 2])
    {
      JoinExtend(ts, start + 1, position + 1);
      assert text + ts[position + 1].value == first + (Join(ts[start + 1..position + 1]) + ts[position + 1].value);
    }

    /** `parseMath($token)`: the values up to the next token of the opening's type, which is
        consumed; the formula is inline exactly for `$`. */
    method ParseMath(token: Token) returns (n: Node)
      requires Valid() && stream.position < |stream.tokens|
      modifies stream
      ensures Valid() && stream.tokens == old(stream.tokens)
      ensures old(stream.position) < stream.position
      ensures n == Node(MathNode(Join(stream.tokens[old(stream.position) + 1..stream.position]),
                                 token.kind == MathInline), [])
      ensures forall k :: old(stream.position) < k < stream.position ==> stream.tokens[k].kind != token.kind
      ensures stream.position < |stream.tokens| ==> stream.tokens[stream.position].kind == token.kind
    {
      var content := stream.JoinUntil([token.kind]);
      var _ := stream.NextToken();
      n := Node(MathNode(content, token.kind == MathInline), []);
    }

    /** `parseCommandArgument($open, $closeType)`: nodes up to the closing bracket, which is
        consumed; the argument is optional exactly for a square bracket. */
    method ParseCommandArgument(open: Token, closeType: TokenType) returns (r: Result<Node>)
      requires Valid()
      modifies stream
      ensures Valid() && stream.tokens == old(stream.tokens)
      ensures r.Ok? ==> old(stream.position) < stream.position < |stream.tokens|
      ensures r.Ok? ==> stream.tokens[stream.position].kind == closeType
      ensures r.Ok? ==> r.value.kind == ArgumentNode(open.kind == SquareLeft) && Built(r.value)
      decreases |stream.tokens| - stream.position, 3
    {
      var nodes :- ParseNodesUntil(closeType);
      var _ := stream.NextToken();
      r := NewNode(ArgumentNode(open.kind == SquareLeft), nodes);
      if r.Ok? {
        BuildBuilt(ArgumentNode(open.kind == SquareLeft), nodes);
      }
    }

    /** The condition of `parseCommand`'s loop: a `lookahead` for an opening bracket past
        whitespace and newlines, answered by the position of the cursor it returns. */
    method ArgumentAhead() returns (at: Option<int>)
      requires Valid()
      ensures at == LookaheadPosition(stream.tokens, stream.position, ArgumentOpen, ArgumentGap)
    {
      var cursor := stream.Lookahead(ArgumentOpen, ArgumentGap);
      at := if cursor == null then None else Some(cursor.position);
    }

    /** One round of `parseCommand`'s loop: move to the gap `lookahead` skipped, take the opening
        bracket and parse the argument it opens. */
    method TakeArgument(at: int) returns (r: Result<Node>)
      requires Valid() && LookaheadPosition(stream.tokens, stream.position, ArgumentOpen, ArgumentGap) == Some(at)
      modifies stream
      ensures Valid() && stream.tokens == old(stream.tokens)
      ensures old(stream.position) <= at && at + 1 < |stream.tokens|
      ensures r.Ok? ==> at + 1 < stream.position < |stream.tokens|
      ensures r.Ok? ==> Built(r.value) && r.value.kind == ArgumentNode(stream.tokens[at + 1].kind == SquareLeft)
      ensures r.Ok? ==> stream.tokens[stream.position].kind == CloseOf(stream.tokens[at + 1].kind)
      decreases |stream.tokens| - stream.position, 0
    {
      assert KindAt(stream.tokens, at + 1, AsList(ArgumentOpen));
      stream.position := at;
      var open := stream.NextToken();
      r := ParseCommandArgument(open.value, CloseOf(open.value.kind));
    }

    /** `parseCommand($token)`: the name without its backslashes and every bracket group that
        follows, whitespace and newlines skipped; `reseni` with its one argument becomes a
        solution, any other name a command of the class `createCommand` gives. */
    method ParseCommand(token: Token) returns (r: Result<Node>)
      requires Valid() && stream.position < |stream.tokens|
      modifies stream
      ensures Valid() && stream.tokens == old(stream.tokens)
      ensures r.Ok? ==> old(stream.position) <= stream.position < |stream.tokens| && Built(r.value)
      ensures r.Ok? ==> LookaheadPosition(stream.tokens, stream.position, ArgumentOpen, ArgumentGap).None?
      ensures r.Ok? ==> CommandShape(LTrimBackslashes(token.value), r.value)
      ensures r.Ok? && LookaheadPosition(stream.tokens, old(stream.position), ArgumentOpen, ArgumentGap).Some? ==>
        r.value.children != []
      decreases |stream.tokens| - stream.position, 1
    {
      var name := LTrimBackslashes(token.value);
      var arguments: seq<Node> := [];
      var at := ArgumentAhead();
      ghost var first := at;
      while at.Some?
        invariant Valid() && stream.tokens == old(stream.tokens)
        invariant old(stream.position) <= stream.position < |stream.tokens|
        invariant AllBuilt(arguments)
        invariant AllArguments(arguments)
        invariant at == LookaheadPosition(stream.tokens, stream.position, ArgumentOpen, ArgumentGap)
        invariant first.Some? ==> arguments != [] || at.Some?
        decreases |stream.tokens| - stream.position
      {
        var arg :- TakeArgument(at.value);
        AllBuiltSnoc(arguments, arg);
        AllArgumentsSnoc(arguments, arg);
        arguments := arguments + [arg];
        at := ArgumentAhead();
      }
      r := CommandFrom(name, arguments);
    }

    /** `parseScope($token)`: a `{` not followed by a command is text; otherwise the command,
        which may not have arguments of its own, takes the nodes up to the matching `}` as its
        one mandatory argument. */
    method ParseScope(token: Token) returns (r: Result<Node>)
      requires Valid() && stream.position < |stream.tokens|
      modifies stream
      ensures Valid() && stream.tokens == old(stream.tokens)
      ensures !old(stream.IsNext([Command])) ==>
        r == Ok(Node(TextNode(token.value), [])) && stream.position == old(stream.position)
      ensures r.Ok? ==> old(stream.position) <= stream.position < |stream.tokens| && Built(r.value)
      ensures r.Ok? && old(stream.IsNext([Command])) ==> ScopedCommand(stream.tokens, old(stream.position), stream.position, r.value)
      ensures old(stream.IsNext([Command])) && ArgumentAfterCommand(stream.tokens, old(stream.position)) ==> r.Err?
      decreases |stream.tokens| - stream.position, 2
    {
      if !stream.IsNext([Command]) {
        r := Ok(Node(TextNode(token.value), []));
        LeafBuilt(r.value.kind);
        return;
      }
      r := ParseScopeCommand();
    }

    /** The command branch of `parseScope`: a command with an argument of its own is refused
        with an InvalidStateException; a bare one takes the body up to the `}`. */
    method ParseScopeCommand() returns (r: Result<Node>)
      requires Valid() && stream.IsNext([Command])
      modifies stream
      ensures Valid() && stream.tokens == old(stream.tokens)
      ensures r.Ok? ==> old(stream.position) < stream.position < |stream.tokens| && Built(r.value)
      ensures r.Ok? ==> ScopedCommand(stream.tokens, old(stream.position), stream.position, r.value)
      ensures ArgumentAfterCommand(stream.tokens, old(stream.position)) ==> r.Err?
      decreases |stream.tokens| - stream.position, 1
    {
      var t := stream.NextToken();
      ghost var name := LTrimBackslashes(t.value.value);
      var command :- ParseCommand(t.value);
      if command.children != [] {
        return Err(InvalidState);
      }
      ScopeCommand(name, command);
      r := ParseScopeBody(command.kind.name);
    }

    /** The rest of `parseScope`: the nodes up to the matching `}` become the one mandatory
        argument of the command called `name`. */
    method ParseScopeBody(name: string) returns (r: Result<Node>)
      requires Valid()
      modifies stream
      ensures Valid() && stream.tokens == old(stream.tokens)
      ensures r.Ok? ==>
        && old(stream.position) < stream.position < |stream.tokens| && Built(r.value)
        && r.value.kind == CommandNode(CommandClassFor(name), name)
        && |r.value.children| == 1 && r.value.children[0].kind == ArgumentNode(false)
        && stream.tokens[stream.position].kind == CurlyRight
      decreases |stream.tokens| - stream.position, 3
    {
      var body :- ParseNodesUntil(CurlyRight);
      CloseAhead(stream.tokens, stream.position, CurlyRight);
      var _ := stream.NextToken();
      r := ScopeFrom(name, body);
    }

    /** `parseTocSection($token)`: the `\section` command and every node up to the next
        `\section` or the end. */
    method ParseTocSection(token: Token) returns (r: Result<Node>)
      requires Valid() && stream.position < |stream.tokens|
      modifies stream
      ensures Valid() && stream.tokens == old(stream.tokens)
      ensures r.Ok? ==> old(stream.position) <= stream.position && Built(r.value)
      ensures r.Ok? ==> r.value.kind == SectionNode(TocSection)
      ensures r.Ok? ==> !stream.IsNext([]) || stream.IsNext([CommandSection])
      decreases |stream.tokens| - stream.position, 3
    {
      var begin :- ParseCommand(token);
      var nodes :- ParseNodesWhile([CommandSection]);
      r := NewNode(SectionNode(TocSection), [begin] + nodes);
      if r.Ok? {
        BuildBuilt(SectionNode(TocSection), [begin] + nodes);
      }
    }

    /** `parseTocSubSection($token)`: the `\subsection` command and every node up to the next
        `\section`, `\subsection` or the end. */
    method ParseTocSubSection(token: Token) returns (r: Result<Node>)
      requires Valid() && stream.position < |stream.tokens|
      modifies stream
      ensures Valid() && stream.tokens == old(stream.tokens)
      ensures r.Ok? ==> old(stream.position) <= stream.position && Built(r.value)
      ensures r.Ok? ==> r.value.kind == SectionNode(TocSubSection)
      ensures r.Ok? ==> !stream.IsNext([]) || stream.IsNext([CommandSection, CommandSubsection])
      decreases |stream.tokens| - stream.position, 3
    {
      var begin :- ParseCommand(token);
      var nodes :- ParseNodesWhile([CommandSection, CommandSubsection]);
      r := NewNode(SectionNode(TocSubSection), [begin] + nodes);
      if r.Ok? {
        BuildBuilt(SectionNode(TocSubSection), [begin] + nodes);
      }
    }

    /** `parseSectionBegin($token)`: the command, which must be a `\begin` boundary. */
    method ParseSectionBegin(token: Token) returns (r: Result<Node>)
      requires Valid() && stream.position < |stream.tokens|
      modifies stream
      ensures Valid() && stream.tokens == old(stream.tokens)
      ensures r.Ok? ==> old(stream.position) <= stream.position < |stream.tokens| && Built(r.value)
      ensures r.Ok? ==> IsBoundary(r.value, "begin")
      decreases |stream.tokens| - stream.position, 3
    {
      var begin :- ParseCommand(token);
      r := CheckSectionBegin(begin);
    }

    /** `parseSectionEnd($token, $begin)`: the command, which must be an `\end` boundary with
        the section name of `begin`. */
    method ParseSectionEnd(token: Token, begin: Node) returns (r: Result<Node>)
      requires Valid() && stream.position < |stream.tokens|
      modifies stream
      ensures Valid() && stream.tokens == old(stream.tokens)
      ensures r.Ok? ==> old(stream.position) <= stream.position < |stream.tokens| && Built(r.value)
      ensures r.Ok? ==> IsBoundary(r.value, "end") && BoundaryName(r.value) == BoundaryName(begin)
      decreases |stream.tokens| - stream.position, 3
    {
      var end :- ParseCommand(token);
      r := CheckSectionEnd(end, begin);
    }

    /** `parseMathBlockBody($begin)`: walk to the `\end` (or the end of the stream) keeping the
        `\label` commands, also those of nested environments, then read the walked tokens again
        as the formula text. A body without tokens gives `Text(null)`, which fails. The ghost
        `at` gives the position of the `\label` token each kept label was parsed from. */
    method ParseMathBlockBody(begin: Node) returns (r: Result<seq<Node>>, ghost at: seq<int>)
      requires Valid() && stream.position < |stream.tokens|
      modifies stream
      ensures Valid() && stream.tokens == old(stream.tokens)
      ensures r.Ok? ==> old(stream.position) < stream.position < |stream.tokens|
      ensures r.Ok? ==> AllBuilt(r.value) && MathBody(r.value)
      ensures r.Ok? ==> LabelsFrom(stream.tokens, at, r.value[..|r.value| - 1], old(stream.position), stream.position)
      ensures r.Ok? ==>
        r.value[|r.value| - 1] == Node(MathNode(Join(stream.tokens[old(stream.position) + 1..stream.position + 1]), false), [])
      ensures r.Ok? ==> !stream.IsNext([]) || stream.IsNext([CommandEnd])
      ensures !old(stream.IsNext([])) || old(stream.IsNext([CommandEnd])) ==> r == Err(NullValue)
      decreases |stream.tokens| - stream.position, 3
    {
      var startPosition := stream.position;
      var walked, walkedAt := WalkMathBody(begin);
      at := walkedAt;
      if walked.Err? {
        return Err(walked.error), at;
      }
      var body := walked.value;
      var text := Reread(startPosition);
      if text.None? {
        return Err(NullValue), at;
      }
      var math := Node(MathNode(text.value, false), []);
      LeafBuilt(math.kind);
      AllBuiltSnoc(body, math);
      assert (body + [math])[..|body|] == body;
      r := Ok(body + [math]);
    }

    /** The first loop of `parseMathBlockBody`: the rounds of the walk up to an `\end` or the
        end of the stream, with the labels they keep. */
    method WalkMathBody(begin: Node) returns (r: Result<seq<Node>>, ghost at: seq<int>)
      requires Valid() && stream.position < |stream.tokens|
      modifies stream
      ensures Valid() && stream.tokens == old(stream.tokens)
      ensures r.Ok? ==> old(stream.position) <= stream.position < |stream.tokens|
      ensures r.Ok? ==> AllBuilt(r.value) && AllLabels(r.value)
      ensures r.Ok? ==> LabelsFrom(stream.tokens, at, r.value, old(stream.position), stream.position)
      ensures r.Ok? ==> !stream.IsNext([]) || stream.IsNext([CommandEnd])
      ensures !old(stream.IsNext([])) || old(stream.IsNext([CommandEnd])) ==> r.Ok? && stream.position == old(stream.position)
      decreases |stream.tokens| - stream.position, 2
    {
      var body: seq<Node> := [];
      at := [];
      ghost var atEnd := !stream.IsNext([]) || stream.IsNext([CommandEnd]);
      while stream.IsNext([])
        invariant Valid() && stream.tokens == old(stream.tokens)
        invariant old(stream.position) <= stream.position < |stream.tokens|
        invariant AllBuilt(body) && AllLabels(body)
        invariant LabelsFrom(stream.tokens, at, body, old(stream.position), stream.position)
        invariant atEnd ==> stream.position == old(stream.position)
        decreases |stream.tokens| - stream.position
      {
        ghost var before := stream.position;
        var step, stop, stepAt := MathBodyStep(begin);
        if step.Err? {
          return Err(step.error), at;
        }
        var labels := step.value;
        AllBuiltAppend(body, labels);
        AllLabelsAppend(body, labels);
        LabelsFromAppend(stream.tokens, at, body, old(stream.position), before, stepAt, labels, stream.position);
        body := body + labels;
        at := at + stepAt;
        if stop {
          break;
        }
      }
      r := Ok(body);
    }

    /** One round of `parseMathBlockBody`'s walk: a `\label` is parsed, any other command
        skipped; a nested environment is parsed for its labels and closed; an `\end` stops the
        walk; otherwise the walk skips to the next command, `\begin` or `\end`. */
    method MathBodyStep(begin: Node) returns (r: Result<seq<Node>>, stop: bool, ghost at: seq<int>)
      requires Valid() && stream.IsNext([])
      modifies stream
      ensures Valid() && stream.tokens == old(stream.tokens)
      ensures r.Ok? ==> AllBuilt(r.value) && AllLabels(r.value)
      ensures r.Ok? ==> LabelsFrom(stream.tokens, at, r.value, old(stream.position), stream.position)
      ensures r.Ok? && stop ==> stream.position == old(stream.position) && stream.IsNext([CommandEnd])
      ensures r.Ok? && !stop ==> old(stream.position) < stream.position < |stream.tokens|
      ensures old(stream.IsNext([CommandEnd])) ==> r == Ok([]) && stop
      ensures old(stream.IsNext([Command])) && IsLabelToken(stream.tokens[old(stream.position) + 1]) && r.Ok? ==>
        |r.value| == 1 && at == [old(stream.position) + 1]
      ensures old(stream.IsNext([Command])) && !IsLabelToken(stream.tokens[old(stream.position) + 1]) ==>
        r == Ok([]) && !stop
      ensures !old(stream.IsNext([Command, CommandBegin, CommandEnd])) ==> r == Ok([]) && !stop
      decreases |stream.tokens| - stream.position, 1
    {
      stop := false;
      r := Ok([]);
      at := [];
      if stream.IsNext([Command]) {
        r, at := MathCommand();
      } else if stream.IsNext([CommandBegin]) {
        r, at := MathNested(begin);
      } else if stream.IsNext([CommandEnd]) {
        return Ok([]), true, [];
      }
      if r.Err? {
        return r, false, at;
      }
      ghost var mid := stream.position;
      var _ := stream.NextUntil([Command, CommandBegin, CommandEnd]);
      LabelsFromWiden(stream.tokens, at, r.value, old(stream.position), mid, stream.position);
    }

    /** A command inside a math body: a `\label` is parsed and kept, any other is passed over. */
    method MathCommand() returns (r: Result<seq<Node>>, ghost at: seq<int>)
      requires Valid() && stream.IsNext([Command])
      modifies stream
      ensures Valid() && stream.tokens == old(stream.tokens)
      ensures r.Ok? ==> old(stream.position) < stream.position < |stream.tokens|
      ensures r.Ok? ==> AllBuilt(r.value) && AllLabels(r.value)
      ensures r.Ok? ==> LabelsFrom(stream.tokens, at, r.value, old(stream.position), stream.position)
      ensures IsLabelToken(stream.tokens[old(stream.position) + 1]) && r.Ok? ==>
        |r.value| == 1 && at == [old(stream.position) + 1]
      ensures !IsLabelToken(stream.tokens[old(stream.position) + 1]) ==>
        r == Ok([]) && at == [] && stream.position == old(stream.position) + 1
      decreases |stream.tokens| - stream.position, 0
    {
      ghost var p := stream.position + 1;
      var t := stream.NextToken();
      assert t == Some(stream.tokens[p]) && stream.position == p;
      if LTrimBackslashes(t.value.value) != "label" {
        assert !IsLabelToken(stream.tokens[p]);
        return Ok([]), [];
      }
      assert IsLabelToken(stream.tokens[p]);
      var labelNode := MathLabel(t.value);
      if labelNode.Err? {
        return Err(labelNode.error), [];
      }
      LabelsFromOne(stream.tokens, p - 1, stream.position, labelNode.value);
      r, at := Ok([labelNode.value]), [p];
    }

    /** The `\label` command just taken, parsed with its arguments. */
    method MathLabel(token: Token) returns (r: Result<Node>)
      requires Valid() && 0 <= stream.position < |stream.tokens| && LTrimBackslashes(token.value) == "label"
      modifies stream
      ensures Valid() && stream.tokens == old(stream.tokens)
      ensures r.Ok? ==> old(stream.position) <= stream.position < |stream.tokens|
      ensures r.Ok? ==> Built(r.value) && CommandShape("label", r.value) && IsLabelNode(r.value)
      decreases |stream.tokens| - stream.position, 3
    {
      r := ParseCommand(token);
      if r.Ok? {
        CommandTable("label");
      }
    }

    /** A nested environment inside a math body: its begin, its own math body and its end are
        parsed, and the labels of its body are kept. */
    method MathNested(begin: Node) returns (r: Result<seq<Node>>, ghost at: seq<int>)
      requires Valid() && stream.IsNext([CommandBegin])
      modifies stream
      ensures Valid() && stream.tokens == old(stream.tokens)
      ensures r.Ok? ==> old(stream.position) < stream.position < |stream.tokens|
      ensures r.Ok? ==> AllBuilt(r.value) && AllLabels(r.value)
      ensures r.Ok? ==> LabelsFrom(stream.tokens, at, r.value, old(stream.position), stream.position)
      decreases |stream.tokens| - stream.position, 0
    {
      at := [];
      var t := stream.NextToken();
      var innerBegin :- ParseSectionBegin(t.value);
      ghost var from := stream.position;
      var inner, innerAt := ParseMathBlockBody(begin);
      if inner.Err? {
        return Err(inner.error), at;
      }
      ghost var to := stream.position;
      var endToken := stream.NextToken();
      if endToken.None? {
        return Err(NullValue), at;
      }
      var end :- ParseSectionEnd(endToken.value, innerBegin);
      NestedLabelsOfBody(inner.value);
      LabelsFromWiden(stream.tokens, innerAt, inner.value[..|inner.value| - 1], from, to, stream.position);
      LabelsFromNarrow(stream.tokens, innerAt, inner.value[..|inner.value| - 1], old(stream.position), from, stream.position);
      r, at := Ok(NestedLabels(inner.value)), innerAt;
    }

    /** The second loop of `parseMathBlockBody`: rewind to `start` and join the values of the
        tokens walked over; null when there were none. */
    method Reread(start: int) returns (text: Option<string>)
      requires Valid() && -1 <= start <= stream.position < |stream.tokens|
      modifies stream
      ensures Valid() && stream.tokens == old(stream.tokens) && stream.position == old(stream.position)
      ensures text.None? <==> start == stream.position
      ensures text.Some? ==> text.value == Join(stream.tokens[start + 1..stream.position + 1])
    {
      var endPosition := stream.position;
      text := None;
      stream.position := start;
      while endPosition > stream.position
        invariant Valid() && stream.tokens == old(stream.tokens)
        invariant start <= stream.position <= endPosition
        invariant text.None? <==> stream.position == start
        invariant text.Some? ==> text.value == Join(stream.tokens[start + 1..stream.position + 1])
        decreases endPosition - stream.position
      {
        RereadGrows(stream.tokens, start, stream.position, text);
        var v := stream.NextValue();
        text := Some((if text.Some? then text.value else "") + v);
      }
    }

    /** `parseSectionItems()`: the nodes of an itemize or enumerate environment up to its
        `\end`, each `\item` closing the item before it; the last item is kept only when its
        body is not empty. The ghost results name the parts: `openings` are the `\item`
        commands in order, `bodies` the nodes collected for each, and `leading` the commands met
        before the first `\item`, which begin the first body (other nodes met there are
        dropped). */
    method ParseSectionItems() returns (r: Result<seq<Node>>, ghost openings: seq<Node>,
                                        ghost bodies: seq<seq<Node>>, ghost leading: seq<Node>)
      requires Valid()
      modifies stream
      ensures Valid() && stream.tokens == old(stream.tokens)
      ensures r.Ok? ==> old(stream.position) <= stream.position && AllBuilt(r.value)
      ensures r.Ok? ==> AllItems(r.value)
      ensures r.Ok? ==> !stream.IsNext([]) || stream.IsNext([CommandEnd])
      ensures r.Ok? ==> ItemsOf(r.value, openings, bodies)
      ensures r.Ok? ==> forall i :: 0 <= i < |openings| ==> CommandShape("item", openings[i])
      ensures r.Ok? && openings != [] ==> leading <= bodies[0]
      ensures r.Ok? && openings == [] ==> r.value == []
      decreases |stream.tokens| - stream.position, 4
    {
      var st := ItemsLoop(None, [], []);
      ghost var parts := ItemParts([], [], []);
      while stream.IsNext([]) && !stream.IsNext([CommandEnd])
        invariant Valid() && stream.tokens == old(stream.tokens)
        invariant old(stream.position) <= stream.position
        invariant Collecting(st, parts)
        decreases |stream.tokens| - stream.position
      {
        var next, nextParts := ItemsRound(st, parts);
        if next.Err? {
          return Err(next.error), parts.openings, parts.bodies, parts.leading;
        }
        st, parts := next.value, nextParts;
      }
      openings, bodies, leading := parts.openings, parts.bodies, parts.leading;
      if st.current.Some? && st.nodes != [] {
        var item :- CreateEnumerationItem(st.current.value, st.nodes);
        ItemBuilt(st.current.value, st.nodes);
        AllBuiltSnoc(st.items, item);
        AllItemsSnoc(st.items, item);
        ItemsSoFarLast(st.items, openings, bodies, st.current, st.nodes, leading, item);
        r := Ok(st.items + [item]);
      } else {
        ItemsSoFarDone(st.items, openings, bodies, st.current, st.nodes, leading);
        r := Ok(st.items);
      }
    }

    /** An `\item` command: the open item, if any, is completed with its body, and the command
        opens the next one. */
    static method OpenItem(st: ItemsLoop, ghost parts: ItemParts, command: Node) returns (r: Result<ItemsLoop>, ghost parts': ItemParts)
      requires Collecting(st, parts) && Built(command) && CommandShape("item", command)
      ensures r.Ok? ==> Collecting(r.value, parts')
    {
      parts' := parts.(openings := parts.openings + [command]);
      if st.current.None? {
        ItemsSoFarFirst(parts.openings, parts.bodies, st.nodes, parts.leading, command);
        parts' := parts'.(bodies := parts.bodies + [st.nodes]);
        return Ok(ItemsLoop(Some(command), st.items, st.nodes)), parts';
      }
      var item :- CreateEnumerationItem(st.current.value, st.nodes);
      ItemBuilt(st.current.value, st.nodes);
      AllBuiltSnoc(st.items, item);
      AllItemsSnoc(st.items, item);
      ItemsSoFarNext(st.items, parts.openings, parts.bodies, st.current, st.nodes, parts.leading, item, command);
      parts' := parts'.(bodies := parts.bodies + [[]]);
      r := Ok(ItemsLoop(Some(command), st.items + [item], []));
    }

    /** One round of `parseSectionItems`' loop: a token that is not a command is parsed and
        added to the open item's body (dropped when no item is open); a command is parsed and
        either opens the next item, completing the one before, or joins the current body. */
    method ItemsRound(st: ItemsLoop, ghost parts: ItemParts) returns (r: Result<ItemsLoop>, ghost parts': ItemParts)
      requires Valid() && Collecting(st, parts) && stream.IsNext([])
      modifies stream
      ensures Valid() && stream.tokens == old(stream.tokens)
      ensures r.Ok? ==> old(stream.position) < stream.position && Collecting(r.value, parts')
      decreases |stream.tokens| - stream.position, 3
    {
      if !stream.IsNext([Command]) {
        r, parts' := ItemsText(st, parts);
      } else {
        r, parts' := ItemsCommand(st, parts);
      }
    }

    /** A token that is not a command: the node parsed from it joins the open item's body. */
    method ItemsText(st: ItemsLoop, ghost parts: ItemParts) returns (r: Result<ItemsLoop>, ghost parts': ItemParts)
      requires Valid() && Collecting(st, parts) && stream.IsNext([])
      modifies stream
      ensures Valid() && stream.tokens == old(stream.tokens)
      ensures r.Ok? ==> old(stream.position) < stream.position && Collecting(r.value, parts')
      decreases |stream.tokens| - stream.position, 2
    {
      parts' := parts;
      var node :- ParseNext();
      CollectingAddNode(st, parts, node);
      r, parts' := Ok(AddNode(st, node)), AddNodeParts(st, parts, node);
    }

    /** A command token: the command parsed from it opens an item when it is `\item` and joins
        the current nodes otherwise. */
    method ItemsCommand(st: ItemsLoop, ghost parts: ItemParts) returns (r: Result<ItemsLoop>, ghost parts': ItemParts)
      requires Valid() && Collecting(st, parts) && stream.IsNext([Command])
      modifies stream
      ensures Valid() && stream.tokens == old(stream.tokens)
      ensures r.Ok? ==> old(stream.position) < stream.position && Collecting(r.value, parts')
      decreases |stream.tokens| - stream.position, 2
    {
      parts' := parts;
      var next := stream.NextToken();
      var command :- ParseCommand(next.value);
      if next.value.value == "\\item" {
        ItemName();
        r, parts' := OpenItem(st, parts, command);
      } else {
        CollectingAddCommand(st, parts, command);
        r, parts' := Ok(AddCommand(st, command)), AddCommandParts(st, parts, command);
      }
    }

    /** `parseSection($token)`: the `\begin` boundary, then a math environment's formula body,
        an itemize or enumerate environment's items, or any other environment's nodes, then the
        matching `\end`; the class comes from the lower-cased, trimmed environment name. */
    method ParseSection(token: Token) returns (r: Result<Node>)
      requires Valid() && stream.position < |stream.tokens|
      modifies stream
      ensures Valid() && stream.tokens == old(stream.tokens)
      ensures r.Ok? ==> old(stream.position) < stream.position && Built(r.value)
      ensures r.Ok? ==> HasBegin(r.value) && IsBoundary(r.value.children[0], "begin")
      ensures r.Ok? && IsMathEnvironment(EnvironmentName(r.value.children[0])) ==>
        r.value.kind == SectionNode(MathSectionClass) && MathBody(Body(r.value))
      ensures r.Ok? && !IsMathEnvironment(EnvironmentName(r.value.children[0])) ==>
        r.value.kind == SectionNode(SectionClassFor(Trim(ToLower(EnvironmentName(r.value.children[0])))))
      decreases |stream.tokens| - stream.position, 6
    {
      var begin :- ParseSectionBegin(token);
      var env := EnvironmentName(begin);
      if IsMathEnvironment(env) {
        r := ParseMathSection(begin);
      } else {
        r := ParsePlainSection(begin, Trim(ToLower(env)));
      }
    }

    /** A math environment: the formula body, the matching `\end`, a MathSection. */
    method ParseMathSection(begin: Node) returns (r: Result<Node>)
      requires Valid() && stream.position < |stream.tokens|
      requires Built(begin) && IsBoundary(begin, "begin")
      modifies stream
      ensures Valid() && stream.tokens == old(stream.tokens)
      ensures r.Ok? ==> old(stream.position) < stream.position && Built(r.value)
      ensures r.Ok? ==> r.value.kind == SectionNode(MathSectionClass) && HasBegin(r.value)
      ensures r.Ok? ==> r.value.children[0] == begin && MathBody(Body(r.value))
      decreases |stream.tokens| - stream.position, 4
    {
      var parsed, at := ParseMathBlockBody(begin);
      var body :- parsed;
      var end :- CloseSection(begin);
      r := NewNode(SectionNode(MathSectionClass), [begin] + body);
      if r.Ok? {
        BuildBuilt(SectionNode(MathSectionClass), [begin] + body);
        assert Body(r.value) == body;
      }
    }

    /** Any other environment: its items (itemize, enumerate) or its nodes up to the `\end`,
        the matching `\end`, and the section class the name selects. */
    method ParsePlainSection(begin: Node, name: string) returns (r: Result<Node>)
      requires Valid() && Built(begin) && IsBoundary(begin, "begin")
      modifies stream
      ensures Valid() && stream.tokens == old(stream.tokens)
      ensures r.Ok? ==> old(stream.position) < stream.position && Built(r.value)
      ensures r.Ok? ==> r.value.kind == SectionNode(SectionClassFor(name)) && HasBegin(r.value)
      ensures r.Ok? ==> r.value.children[0] == begin
      ensures r.Ok? && (name == "itemize" || name == "enumerate") ==> AllItems(Body(r.value))
      decreases |stream.tokens| - stream.position, 5
    {
      var nodes: seq<Node>;
      if name == "itemize" || name == "enumerate" {
        var parsed, openings, bodies, leading := ParseSectionItems();
        nodes :- parsed;
      } else {
        nodes :- ParseNodesWhile([CommandEnd]);
      }
      var end :- CloseSection(begin);
      r := CreateSection(name, begin, nodes);
      if r.Ok? {
        BuildBuilt(SectionNode(SectionClassFor(name)), [begin] + nodes);
        assert Body(r.value) == nodes;
      }
    }

    /** The token after a section's body must be an `\end` naming the same environment. */
    method CloseSection(begin: Node) returns (r: Result<Node>)
      requires Valid() && IsBoundary(begin, "begin")
      modifies stream
      ensures Valid() && stream.tokens == old(stream.tokens)
      ensures r.Ok? ==> old(stream.position) < stream.position < |stream.tokens|
      ensures r.Ok? ==> IsBoundary(r.value, "end") && BoundaryName(r.value) == BoundaryName(begin)
      ensures !old(stream.IsNext([])) ==> r == Err(NullValue)
      decreases |stream.tokens| - stream.position, 1
    {
      var endToken := stream.NextToken();
      if endToken.None? {
        return Err(NullValue);
      }
      r := ParseSectionEnd(endToken.value, begin);
    }
  }

  /** The Command nodes of a nested math body, in order: its labels. */
  function NestedLabels(inner: seq<Node>): (r: seq<Node>)
    requires MathBody(inner) && AllBuilt(inner)
    ensures AllLabels(r) && AllBuilt(r)
    ensures forall n :: n in r <==> n in inner && IsCommand(n)
  {
    var labels := Filter(inner, IsCommand);
    FilterMembers(inner, IsCommand);
    assert forall i :: 0 <= i < |labels| ==> labels[i] in labels;
    assert forall n :: n in labels ==> exists j :: 0 <= j < |inner| && inner[j] == n;
    labels
  }

  /** The labels of a math body are all of its nodes but the formula. */
  lemma NestedLabelsOfBody(inner: seq<Node>)
    requires MathBody(inner) && AllBuilt(inner)
    ensures NestedLabels(inner) == inner[..|inner| - 1]
  {
    var body := inner[..|inner| - 1];
    assert !IsCommand(inner[|inner| - 1]);
    LabelsAreCommands(body);
  }

  /** Labels are commands, so keeping the commands keeps all of them. */
  lemma {:induction false} LabelsAreCommands(ns: seq<Node>)
    requires AllLabels(ns)
    ensures Filter(ns, IsCommand) == ns
    decreases |ns|
  {
    if ns != [] {
      var init := ns[..|ns| - 1];
      assert AllLabels(init) by {
        forall i | 0 <= i < |init| ensures IsLabelNode(init[i]) { assert init[i] == ns[i]; }
      }
      LabelsAreCommands(init);
      assert IsLabelNode(ns[|ns| - 1]);
      assert ns == init + [ns[|ns| - 1]];
    }
  }

  /** A `\label` token: a command whose name without backslashes is `label`. */
  predicate IsLabelToken(t: Token) { t.kind == Command && LTrimBackslashes(t.value) == "label" }

  /** Each label of `labels` was parsed from the `\label` token at the matching position of
      `at`; the positions rise and lie after `lo` and no later than `hi`. */
  ghost predicate LabelsFrom(ts: seq<Token>, at: seq<int>, labels: seq<Node>, lo: int, hi: int) {
    && |at| == |labels|
    && (forall i :: 0 <= i < |at| ==> 0 <= at[i] < |ts| && lo < at[i] <= hi && IsLabelToken(ts[at[i]]))
    && (forall i :: 0 <= i < |labels| ==> CommandShape("label", labels[i]))
    && (forall i, j :: 0 <= i < j < |at| ==> at[i] < at[j])
  }

  /** The one label parsed from the `\label` token after `lo`. */
  lemma LabelsFromOne(ts: seq<Token>, lo: int, hi: int, n: Node)
    requires 0 <= lo + 1 <= hi < |ts| && IsLabelToken(ts[lo + 1]) && CommandShape("label", n)
    ensures LabelsFrom(ts, [lo + 1], [n], lo, hi)
  {
  }

  lemma LabelsFromAppend(ts: seq<Token>, a1: seq<int>, l1: seq<Node>, lo: int, mid: int,
                         a2: seq<int>, l2: seq<Node>, hi: int)
    requires LabelsFrom(ts, a1, l1, lo, mid) && LabelsFrom(ts, a2, l2, mid, hi) && lo <= mid <= hi
    ensures LabelsFrom(ts, a1 + a2, l1 + l2, lo, hi)
  {
    var a := a1 + a2;
    var l := l1 + l2;
    forall i | 0 <= i < |a| ensures 0 <= a[i] < |ts| && lo < a[i] <= hi && IsLabelToken(ts[a[i]]) {
      if i < |a1| { assert a[i] == a1[i]; } else { assert a[i] == a2[i - |a1|]; }
    }
    forall i | 0 <= i < |l| ensures CommandShape("label", l[i]) {
      if i < |l1| { assert l[i] == l1[i]; } else { assert l[i] == l2[i - |l1|]; }
    }
    forall i, j | 0 <= i < j < |a| ensures a[i] < a[j] {
      if j < |a1| {
        assert a[i] == a1[i] && a[j] == a1[j];
      } else if i < |a1| {
        assert a[i] == a1[i] && a[j] == a2[j - |a1|];
      } else {
        assert a[i] == a2[i - |a1|] && a[j] == a2[j - |a1|];
      }
    }
  }

  lemma LabelsFromWiden(ts: seq<Token>, at: seq<int>, labels: seq<Node>, lo: int, hi: int, hi': int)
    requires LabelsFrom(ts, at, labels, lo, hi) && hi <= hi'
    ensures LabelsFrom(ts, at, labels, lo, hi')
  {
  }

  lemma LabelsFromNarrow(ts: seq<Token>, at: seq<int>, labels: seq<Node>, lo': int, lo: int, hi: int)
    requires LabelsFrom(ts, at, labels, lo, hi) && lo' <= lo
    ensures LabelsFrom(ts, at, labels, lo', hi)
  {
  }

  /** The items of an itemize or enumerate environment against their parts: one item per
      opening, built from that opening and its body, except that the last opening gives no item
      when its body is empty. */
  predicate ItemsOf(items: seq<Node>, openings: seq<Node>, bodies: seq<seq<Node>>) {
    && |bodies| == |openings|
    && |items| == (if openings != [] && bodies[|bodies| - 1] == [] then |openings| - 1 else |openings|)
    && forall i :: 0 <= i < |items| ==> CreateEnumerationItem(openings[i], bodies[i]) == Ok(items[i])
  }

  /** The state of `parseSectionItems`' loop: every opening but the current one has its item,
      the current body is the last of `bodies`, and before the first `\item` the nodes kept
      are the leading commands. */
  ghost predicate ItemsSoFar(items: seq<Node>, openings: seq<Node>, bodies: seq<seq<Node>>,
                            current: Option<Node>, nodes: seq<Node>, leading: seq<Node>) {
    && |bodies| == |openings|
    && (current.None? <==> openings == [])
    && (current.None? ==> items == [] && nodes == leading)
    && (current.Some? ==> current.value == openings[|openings| - 1] && bodies[|bodies| - 1] == nodes)
    && (current.Some? ==> |items| == |openings| - 1 && leading <= bodies[0])
    && forall i :: 0 <= i < |items| ==> CreateEnumerationItem(openings[i], bodies[i]) == Ok(items[i])
  }

  lemma ItemName()
    ensures LTrimBackslashes("\\item") == "item"
  {
    assert "\\item"[1..] == "item";
  }

  /** A node added to the current body, or a command kept before the first `\item`. */
  lemma ItemsSoFarGrow(items: seq<Node>, openings: seq<Node>, bodies: seq<seq<Node>>,
                       current: Option<Node>, nodes: seq<Node>, leading: seq<Node>, n: Node)
    requires ItemsSoFar(items, openings, bodies, current, nodes, leading)
    ensures current.Some? ==>
      ItemsSoFar(items, openings, bodies[|bodies| - 1 := nodes + [n]], current, nodes + [n], leading)
    ensures current.None? ==> ItemsSoFar(items, openings, bodies, current, nodes + [n], nodes + [n])
  {
    if current.Some? {
      var bodies' := bodies[|bodies| - 1 := nodes + [n]];
      if |bodies| == 1 {
        assert leading <= nodes;
      } else {
        assert bodies'[0] == bodies[0];
      }
      forall i | 0 <= i < |items| ensures CreateEnumerationItem(openings[i], bodies'[i]) == Ok(items[i]) {
        assert bodies'[i] == bodies[i];
      }
    }
  }

  /** The first `\item`: the commands met so far start its body. */
  lemma ItemsSoFarFirst(openings: seq<Node>, bodies: seq<seq<Node>>, nodes: seq<Node>, leading: seq<Node>, c: Node)
    requires ItemsSoFar([], openings, bodies, None, nodes, leading)
    ensures ItemsSoFar([], openings + [c], bodies + [nodes], Some(c), nodes, leading)
  {
  }

  /** A later `\item`: the open item is completed with its body. */
  lemma ItemsSoFarNext(items: seq<Node>, openings: seq<Node>, bodies: seq<seq<Node>>, current: Option<Node>,
                       nodes: seq<Node>, leading: seq<Node>, item: Node, c: Node)
    requires ItemsSoFar(items, openings, bodies, current, nodes, leading) && current.Some?
    requires CreateEnumerationItem(current.value, nodes) == Ok(item)
    ensures ItemsSoFar(items + [item], openings + [c], bodies + [[]], Some(c), [], leading)
  {
    var items', openings', bodies' := items + [item], openings + [c], bodies + [[]];
    forall i | 0 <= i < |items'| ensures CreateEnumerationItem(openings'[i], bodies'[i]) == Ok(items'[i]) {
      if i < |items| {
        assert items'[i] == items[i] && openings'[i] == openings[i] && bodies'[i] == bodies[i];
      }
    }
  }

  /** After the loop the open item is completed when its body is not empty. */
  lemma ItemsSoFarLast(items: seq<Node>, openings: seq<Node>, bodies: seq<seq<Node>>, current: Option<Node>,
                       nodes: seq<Node>, leading: seq<Node>, item: Node)
    requires ItemsSoFar(items, openings, bodies, current, nodes, leading) && current.Some? && nodes != []
    requires CreateEnumerationItem(current.value, nodes) == Ok(item)
    ensures ItemsOf(items + [item], openings, bodies) && leading <= bodies[0]
  {
    var items' := items + [item];
    forall i | 0 <= i < |items'| ensures CreateEnumerationItem(openings[i], bodies[i]) == Ok(items'[i]) {
      if i < |items| {
        assert items'[i] == items[i];
      }
    }
  }

  /** After the loop with no item open, or with an empty body, the items are complete. */
  lemma ItemsSoFarDone(items: seq<Node>, openings: seq<Node>, bodies: seq<seq<Node>>, current: Option<Node>,
                       nodes: seq<Node>, leading: seq<Node>)
    requires ItemsSoFar(items, openings, bodies, current, nodes, leading) && !(current.Some? && nodes != [])
    ensures ItemsOf(items, openings, bodies)
    ensures openings != [] ==> leading <= bodies[0]
    ensures openings == [] ==> items == []
  {
  }

  /** The locals of `parseSectionItems`: the open `\item` (`$itemOpened`), the items
      completed and the nodes of the current body. */
  datatype ItemsLoop = ItemsLoop(current: Option<Node>, items: seq<Node>, nodes: seq<Node>)

  /** The parts the items are made of: the `\item` commands, the bodies collected for each, and
      the commands met before the first `\item`. */
  datatype ItemParts = ItemParts(openings: seq<Node>, bodies: seq<seq<Node>>, leading: seq<Node>)

  ghost predicate Collecting(st: ItemsLoop, parts: ItemParts) {
    && AllBuilt(st.items) && AllBuilt(st.nodes) && AllItems(st.items)
    && (st.current.Some? ==> Built(st.current.value))
    && ItemsSoFar(st.items, parts.openings, parts.bodies, st.current, st.nodes, parts.leading)
    && (forall i :: 0 <= i < |parts.openings| ==> CommandShape("item", parts.openings[i]))
  }

  /** A node parsed from a token that is not a command joins the open item's body; with no
      item open it is dropped. */
  function AddNode(st: ItemsLoop, n: Node): (r: ItemsLoop)
    ensures r.current == st.current && r.items == st.items
    ensures st.current.Some? ==> r.nodes == st.nodes + [n]
    ensures st.current.None? ==> r == st
  {
    if st.current.Some? then st.(nodes := st.nodes + [n]) else st
  }

  ghost function AddNodeParts(st: ItemsLoop, parts: ItemParts, n: Node): ItemParts
    requires |parts.bodies| > 0 || st.current.None?
  {
    if st.current.Some? then parts.(bodies := parts.bodies[|parts.bodies| - 1 := st.nodes + [n]]) else parts
  }

  /** A command other than `\item` joins the current nodes, which before the first `\item`
      are the leading commands. */
  function AddCommand(st: ItemsLoop, n: Node): (r: ItemsLoop)
    ensures r.current == st.current && r.items == st.items && r.nodes == st.nodes + [n]
  {
    st.(nodes := st.nodes + [n])
  }

  ghost function AddCommandParts(st: ItemsLoop, parts: ItemParts, n: Node): ItemParts
    requires |parts.bodies| > 0 || st.current.None?
  {
    if st.current.Some? then parts.(bodies := parts.bodies[|parts.bodies| - 1 := st.nodes + [n]])
    else parts.(leading := st.nodes + [n])
  }

  lemma CollectingAddNode(st: ItemsLoop, parts: ItemParts, n: Node)
    requires Collecting(st, parts) && Built(n)
    ensures Collecting(AddNode(st, n), AddNodeParts(st, parts, n))
  {
    if st.current.Some? {
      AllBuiltSnoc(st.nodes, n);
      ItemsSoFarGrow(st.items, parts.openings, parts.bodies, st.current, st.nodes, parts.leading, n);
    }
  }

  lemma CollectingAddCommand(st: ItemsLoop, parts: ItemParts, n: Node)
    requires Collecting(st, parts) && Built(n)
    ensures Collecting(AddCommand(st, n), AddCommandParts(st, parts, n))
  {
    AllBuiltSnoc(st.nodes, n);
    ItemsSoFarGrow(st.items, parts.openings, parts.bodies, st.current, st.nodes, parts.leading, n);
  }

  /** An item built from constructed parts is constructed. */
  lemma ItemBuilt(opening: Node, body: seq<Node>)
    requires Built(opening) && AllBuilt(body) && CreateEnumerationItem(opening, body).Ok?
    ensures Built(CreateEnumerationItem(opening, body).value)
  {
    var arg := Node(ArgumentNode(false), body);
    BuildBuilt(ArgumentNode(false), body);
    BuildBuilt(CommandNode(EnumerationItemCommand, "item"), opening.children + [arg]);
  }
}
