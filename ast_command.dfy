/** `Command` and the classes built on it: `CommandArgument`, `SectionBoundary`, `Label` and
    `BibiItem`. Every field these constructors derive is a function of the node. */
module AstCommand {
  import opened Wrappers
  import opened StringUtils
  import opened AstNode

  predicate IsCommand(n: Node) { n.kind.CommandNode? }

  /** `getFirstArgument()`: the first child, or null. */
  function FirstArgument(n: Node): Option<Node> {
    if n.children == [] then None else Some(n.children[0])
  }

  /** `getBody()`: the last child, or null. */
  function LastArgument(n: Node): Option<Node> {
    if n.children == [] then None else Some(n.children[|n.children| - 1])
  }

  /** `getArguments()` are the children; the first and the last argument are their ends, and
      coincide exactly when there is at most one argument. */
  lemma ArgumentEnds(n: Node)
    ensures FirstArgument(n).None? <==> n.children == []
    ensures LastArgument(n).None? <==> n.children == []
    ensures FirstArgument(n).Some? ==> FirstArgument(n).value == n.children[0]
    ensures LastArgument(n).Some? ==> LastArgument(n).value == n.children[|n.children| - 1]
    ensures |n.children| == 1 ==> FirstArgument(n) == LastArgument(n)
  {
  }

  /** `Command::filterByName(...$names)`: exact, case-sensitive name membership. */
  predicate FilterByName(names: seq<string>, n: Node): (r: bool)
    requires IsCommand(n)
    ensures r <==> exists i :: 0 <= i < |names| && names[i] == n.kind.name
  {
    n.kind.name in names
  }

  /** `CommandArgument::getFirstValue()`: the first child. On an empty argument PHP reads an
      undefined index and the declared return type `Node` raises a TypeError. */
  function FirstValue(a: Node): (r: Result<Node>)
    ensures r.Ok? <==> a.children != []
    ensures r.Ok? ==> r.value == a.children[0]
    ensures r.Err? ==> r.error == NullValue
  {
    if a.children == [] then Err(NullValue) else Ok(a.children[0])
  }

  /** `CommandArgument::filterOptional($optional = true)`. */
  predicate FilterOptional(a: Node, optional: bool := true): (r: bool)
    requires a.kind.ArgumentNode?
    ensures optional ==> (r <==> a.kind.optional)
    ensures !optional ==> (r <==> !a.kind.optional)
  {
    a.kind.optional == optional
  }

  /** The string of a `Text` node, null for any other node (`$name instanceof Text`). */
  function TextValue(n: Node): (r: Option<string>)
    ensures r.Some? <==> n.kind.TextNode?
  {
    if n.kind.TextNode? then Some(n.kind.value) else None
  }

  /** The name read from a command's first argument, as `SectionBoundary` and `Section` take it:
      null without an argument or when its first value is not a Text; the first value of an empty
      first argument fails. */
  function LeadName(n: Node): (r: Result<Option<string>>)
    ensures r.Err? <==> n.children != [] && n.children[0].children == []
    ensures r.Ok? && r.value.Some? <==>
      n.children != [] && n.children[0].children != [] && n.children[0].children[0].kind.TextNode?
    ensures r.Ok? && r.value.Some? ==> r.value.value == n.children[0].children[0].kind.value
  {
    match FirstArgument(n)
    case None => Ok(None)
    case Some(a) =>
      var v :- FirstValue(a);
      Ok(TextValue(v))
  }

  /** `SectionBoundary::getSectionName()`. */
  function SectionName(b: Node): (r: Result<Option<string>>)
    requires InstanceOf(b.kind, TSectionBoundary)
    ensures b.children == [] ==> r == Ok(None)
    ensures r.Err? <==> b.children != [] && b.children[0].children == []
    ensures r.Ok? && r.value.Some? ==>
      b.children[0].children[0].kind.TextNode? && r.value.value == b.children[0].children[0].kind.value
  {
    LeadName(b)
  }

  // Command::__toString

  /** The string form of a node where `implode` meets it: a Text is its value, a command is
      `Command::__toString`, and any other node uses `Node::__toString`, which hashes the object
      and is given here as `other`. */
  function Stringify(n: Node, other: Node -> string): string
    decreases n
  {
    match n.kind
    case TextNode(v) => v
    case CommandNode(_, name) => "\\" + name + ArgumentsString(n.children, other)
    case _ => other(n)
  }

  /** Each argument wrapped in `[...]` when optional and `{...}` otherwise. */
  function ArgumentsString(args: seq<Node>, other: Node -> string): string
    decreases args
  {
    if args == [] then ""
    else ArgumentsString(args[..|args| - 1], other) + Wrapped(args[|args| - 1], other)
  }

  function Wrapped(a: Node, other: Node -> string): string
    decreases a
  {
    var optional := a.kind.ArgumentNode? && a.kind.optional;
    (if optional then "[" else "{") + Implode(a.children, other) + (if optional then "]" else "}")
  }

  /** `implode($nodes)` over an array of nodes. */
  function Implode(cs: seq<Node>, other: Node -> string): string
    decreases cs
  {
    if cs == [] then "" else Implode(cs[..|cs| - 1], other) + Stringify(cs[|cs| - 1], other)
  }

  /** The source passes `$argument->getChildren()`, a Collection object, to the one-argument
      form of `implode`, which accepts only an array: PHP 7 warns and yields null, so every
      argument renders as its brackets alone. */
  function CommandStringAsWritten(n: Node): (r: string)
    requires IsCommand(n)
    ensures |r| == 1 + |n.kind.name| + 2 * |n.children| && r[..1 + |n.kind.name|] == "\\" + n.kind.name
    ensures forall k :: 1 + |n.kind.name| <= k < |r| ==> IsBracket(r[k])
  {
    var b := BracketsOnly(n.children);
    var r := "\\" + n.kind.name + b;
    assert forall k :: 1 + |n.kind.name| <= k < |r| ==> r[k] == b[k - 1 - |n.kind.name|];
    r
  }

  predicate IsBracket(c: char) { c == '[' || c == ']' || c == '{' || c == '}' }

  /** Each argument as its brackets alone. */
  function BracketsOnly(args: seq<Node>): (r: string)
    ensures |r| == 2 * |args| && forall k :: 0 <= k < |r| ==> IsBracket(r[k])
  {
    if args == [] then ""
    else
      var a := args[|args| - 1];
      var optional := a.kind.ArgumentNode? && a.kind.optional;
      BracketsOnly(args[..|args| - 1]) + (if optional then "[]" else "{}")
  }

  /** `\ref{x}` as the source renders it, against the evidently intended `\ref{x}`. */
  lemma CommandStringDropsBodies(other: Node -> string)
    ensures var ref := Node(CommandNode(PlainCommand, "ref"), [Node(ArgumentNode(false), [Node(TextNode("x"), [])])]);
      CommandStringAsWritten(ref) == "\\ref{}" && Stringify(ref, other) == "\\ref{x}"
  {
    var x := Node(TextNode("x"), []);
    var arg := Node(ArgumentNode(false), [x]);
    var ref := Node(CommandNode(PlainCommand, "ref"), [arg]);
    assert [arg][..0] == [] && [x][..0] == [];
    assert Implode([x], other) == "x";
    assert Wrapped(arg, other) == "{x}";
    assert ArgumentsString([arg], other) == "{x}";
  }

  /** Adding an argument appends its bracketed text: the rendering lists the arguments in order. */
  lemma ArgumentsStringAppend(args: seq<Node>, a: Node, other: Node -> string)
    ensures ArgumentsString(args + [a], other) == ArgumentsString(args, other) + Wrapped(a, other)
  {
    assert (args + [a])[..|args|] == args;
  }

  /** One more argument after a fixed prefix. */
  lemma PrefixedArgumentsStep(p: string, args: seq<Node>, i: nat, other: Node -> string)
    requires i < |args|
    ensures p + ArgumentsString(args[..i + 1], other) == p + ArgumentsString(args[..i], other) + Wrapped(args[i], other)
  {
    assert args[..i + 1] == args[..i] + [args[i]];
    ArgumentsStringAppend(args[..i], args[i], other);
  }

  /** A command whose arguments each hold one text renders as the LaTeX it came from. */
  lemma {:induction false} TextArgumentsString(args: seq<Node>, other: Node -> string)
    requires forall i :: 0 <= i < |args| ==>
      args[i].kind.ArgumentNode? && |args[i].children| == 1 && args[i].children[0].kind.TextNode?
    ensures ArgumentsString(args, other) == PlainArguments(args)
    decreases |args|
  {
    if args != [] {
      var a := args[|args| - 1];
      TextArgumentsString(args[..|args| - 1], other);
      assert a.children[..0] == [];
      assert Implode(a.children, other) == a.children[0].kind.value;
    }
  }

  /** The bracketed texts of arguments that each hold one text. */
  function PlainArguments(args: seq<Node>): string
    requires forall i :: 0 <= i < |args| ==>
      args[i].kind.ArgumentNode? && |args[i].children| == 1 && args[i].children[0].kind.TextNode?
  {
    if args == [] then ""
    else
      var a := args[|args| - 1];
      var v := a.children[0].kind.value;
      PlainArguments(args[..|args| - 1]) + (if a.kind.optional then "[" + v + "]" else "{" + v + "}")
  }

  /** `Command::__toString`: the loop over the arguments, rendering each body as intended. */
  method CommandToString(n: Node, other: Node -> string) returns (text: string)
    requires IsCommand(n)
    ensures text == Stringify(n, other)
  {
    text := "\\" + n.kind.name;
    for i := 0 to |n.children|
      invariant text == "\\" + n.kind.name + ArgumentsString(n.children[..i], other)
    {
      var a := n.children[i];
      var optional := a.kind.ArgumentNode? && a.kind.optional;
      var body := ImplodeNodes(a.children, other);
      var wrapped := (if optional then "[" else "{") + body + (if optional then "]" else "}");
      assert wrapped == Wrapped(a, other);
      PrefixedArgumentsStep("\\" + n.kind.name, n.children, i, other);
      text := text + wrapped;
    }
    assert n.children[..|n.children|] == n.children;
  }

  /** `implode`: the loop concatenating the string forms of the nodes. */
  method ImplodeNodes(cs: seq<Node>, other: Node -> string) returns (s: string)
    ensures s == Implode(cs, other)
  {
    s := "";
    for i := 0 to |cs|
      invariant s == Implode(cs[..i], other)
    {
      assert cs[..i + 1][..i] == cs[..i];
      s := s + Stringify(cs[i], other);
    }
    assert cs[..|cs|] == cs;
  }

  // Label

  /** `labelName`: the first value of the first argument. Without an argument PHP calls a
      method on null. */
  function LabelNameNode(l: Node): (r: Result<Node>)
    ensures r.Ok? <==> l.children != [] && l.children[0].children != []
    ensures r.Ok? ==> r.value == l.children[0].children[0]
  {
    match FirstArgument(l)
    case None => Err(NullValue)
    case Some(a) => FirstValue(a)
  }

  /** `getLabelName()->getValue()`; the declared return type `Text` fails on any other node. */
  function LabelName(l: Node): (r: Result<string>)
    ensures r.Ok? <==> LabelNameNode(l).Ok? && LabelNameNode(l).value.kind.TextNode?
    ensures r.Ok? ==> r.value == LabelNameNode(l).value.kind.value
  {
    var v :- LabelNameNode(l);
    if v.kind.TextNode? then Ok(v.kind.value) else Err(NullValue)
  }

  /** The string cast of the label's name node, as `explode` takes it: a Text is its value, a
      command renders through `Command::__toString` as written (bodies dropped), any other node
      through `Node::__toString`, given as `other`. */
  function CastToString(v: Node, other: Node -> string): (r: string)
    ensures v.kind.TextNode? ==> r == v.kind.value
    ensures IsCommand(v) ==> r == CommandStringAsWritten(v)
  {
    match v.kind
    case TextNode(t) => t
    case CommandNode(_, _) => CommandStringAsWritten(v)
    case _ => other(v)
  }

  /** `getLabelType()`: the text before the first `:` of the label name as a string (the whole
      name when it has none). */
  function LabelType(l: Node, other: Node -> string): (r: Result<string>)
    ensures r.Ok? <==> LabelNameNode(l).Ok?
    ensures LabelName(l).Ok? ==> r.Ok? && StartsWith(LabelName(l).value, r.value) && ':' !in r.value
    ensures LabelName(l).Ok? && |r.value| < |LabelName(l).value| ==> LabelName(l).value[|r.value|] == ':'
    ensures r.Ok? && IsCommand(LabelNameNode(l).value) ==>
      StartsWith(CommandStringAsWritten(LabelNameNode(l).value), r.value) && ':' !in r.value
  {
    var v :- LabelNameNode(l);
    Ok(Before(CastToString(v, other), ':'))
  }

  /** `\label{\emph{x}}`: the name node is a command, whose string form as written is `\emph{}`,
      and that is the label's type. */
  lemma LabelTypeOfCommandName(other: Node -> string)
    ensures var emph := Node(CommandNode(PlainCommand, "emph"), [Node(ArgumentNode(false), [Node(TextNode("x"), [])])]);
      var l := Node(CommandNode(LabelCommand, "label"), [Node(ArgumentNode(false), [emph])]);
      LabelType(l, other) == Ok("\\emph{}")
  {
    var emph := Node(CommandNode(PlainCommand, "emph"), [Node(ArgumentNode(false), [Node(TextNode("x"), [])])]);
    assert [emph.children[0]][..0] == [];
    assert CommandStringAsWritten(emph) == "\\emph{}";
    assert ':' !in "\\emph{}";
  }

  /** A type tag of length `n`: `v` starts with `n > 0` ASCII letters and a `:`. */
  predicate TaggedAt(v: string, n: int) {
    0 < n < |v| && v[n] == ':' && forall k :: 0 <= k < n ==> IsAsciiLetter(v[k])
  }

  /** The case-insensitive `^[a-z]+:` prefix removed by `getLabelId`: the label name without
      its leading type tag when it has one, the name itself when it has none. */
  function StripTypePrefix(v: string): (r: string)
    ensures forall n :: TaggedAt(v, n) ==> r == v[n + 1..]
    ensures (forall n :: !TaggedAt(v, n)) ==> r == v
  {
    var n := LetterRun(v, 0);
    if 0 < n < |v| && v[n] == ':' then
      assert TaggedAt(v, n);
      TagUnique(v, n);
      v[n + 1..]
    else
      assert forall m :: TaggedAt(v, m) ==> m == n by {
        forall m | TaggedAt(v, m) ensures m == n { TagIsLetterRun(v, m); }
      }
      v
  }

  /** A tag ends where the leading run of letters ends, so a name has at most one. */
  lemma TagIsLetterRun(v: string, n: int)
    requires TaggedAt(v, n)
    ensures n == LetterRun(v, 0)
  {
  }

  lemma TagUnique(v: string, n: int)
    requires TaggedAt(v, n)
    ensures forall m :: TaggedAt(v, m) ==> m == n
  {
    forall m | TaggedAt(v, m) ensures m == n {
      TagIsLetterRun(v, m);
      TagIsLetterRun(v, n);
    }
  }

  function LetterRun(s: string, i: nat): (n: nat)
    ensures i + n <= |s| || n == 0
    ensures forall k :: i <= k < i + n ==> IsAsciiLetter(s[k])
    ensures i + n < |s| ==> !IsAsciiLetter(s[i + n])
    decreases |s| - i
  {
    if i < |s| && IsAsciiLetter(s[i]) then 1 + LetterRun(s, i + 1) else 0
  }

  /** Tags of letters are dropped. */
  lemma StripTypePrefixExamples()
    ensures StripTypePrefix("thm:euler") == "euler"
    ensures StripTypePrefix("EQ:2") == "2"
  {
    assert TaggedAt("thm:euler", 3);
    assert TaggedAt("EQ:2", 2);
  }

  /** A tag with a digit, or an empty tag, is kept. */
  lemma StripTypePrefixKeeps()
    ensures StripTypePrefix("a1:b") == "a1:b"
    ensures StripTypePrefix(":x") == ":x"
  {
    assert LetterRun("a1:b", 1) == 0;
  }

  /** `getLabelId()`: the label name without its type tag, webalized, with `-` trimmed from both
      ends. `webalize` is Nette's `Strings::webalize`, given as a parameter. */
  function LabelId(l: Node, webalize: string -> string): (r: Result<string>)
    ensures r.Ok? <==> LabelName(l).Ok?
    ensures r.Ok? ==> r.value == TrimDashes(webalize(StripTypePrefix(LabelName(l).value)))
  {
    var name :- LabelName(l);
    Ok(TrimDashes(webalize(StripTypePrefix(name))))
  }

  /** A label name `tag:rest` with a tag of letters loses the tag: its id is made from `rest`
      alone. */
  lemma LabelIdDropsTag(l: Node, tag: string, rest: string, webalize: string -> string)
    requires tag != [] && (forall k :: 0 <= k < |tag| ==> IsAsciiLetter(tag[k]))
    requires LabelName(l) == Ok(tag + ":" + rest)
    ensures LabelId(l, webalize) == Ok(TrimDashes(webalize(rest)))
  {
    var v := tag + ":" + rest;
    assert forall k :: 0 <= k < |tag| ==> v[k] == tag[k];
    assert TaggedAt(v, |tag|);
    assert v[|tag| + 1..] == rest;
  }

  /** A label name without such a tag is used whole. */
  lemma LabelIdKeepsUntagged(l: Node, webalize: string -> string)
    requires LabelName(l).Ok? && forall n :: !TaggedAt(LabelName(l).value, n)
    ensures LabelId(l, webalize) == Ok(TrimDashes(webalize(LabelName(l).value)))
  {
  }

  /** The `NAME` constant of each theorem class. */
  function TheoremName(k: TheoremKind): string {
    match k
    case Assumption => "assumption"
    case Axiom => "axiom"
    case Conjecture => "conjecture"
    case Corollary => "corollary"
    case Definition => "definition"
    case Example => "example"
    case Lemma => "lemma"
    case Notation => "notation"
    case Proof => "proof"
    case Proposition => "proposition"
    case Remark => "remark"
    case ResultThm => "result"
    case Solution => "solution"
    case Theorem => "theorem"
  }

  predicate IsTheoremOrMath(n: Node) {
    FilterByType([TTheorem(Theorem), TMathSection], n)
  }

  /** The prefix of a complete label id chosen by the label's owner: `cst-NAME-` under a theorem
      (its own class's `NAME`), `equation-` under a math environment. */
  function IdPrefix(owner: Node): string
    requires IsTheoremOrMath(owner)
  {
    if owner.kind.section.TheoremSection? then "cst-" + TheoremName(owner.kind.section.theorem) + "-"
    else "equation-"
  }

  /** `getCompleteLabelId()`: the nearest Theorem or MathSection ancestor gives `cst-NAME-id`
      or `equation-id`; with neither the label is not supported. */
  function CompleteLabelId(l: Located, webalize: string -> string): (r: Result<string>)
    ensures Nearest(l.ancestors, IsTheoremOrMath).None? ==> r == Err(NotImplemented)
    ensures Nearest(l.ancestors, IsTheoremOrMath).Some? ==>
      var owner := l.ancestors[Nearest(l.ancestors, IsTheoremOrMath).value];
      (r.Ok? <==> LabelId(l.node, webalize).Ok?) &&
      (r.Ok? ==> r.value == IdPrefix(owner) + LabelId(l.node, webalize).value)
  {
    match ParentOf(l, Some(IsTheoremOrMath))
    case None => Err(NotImplemented)
    case Some(p) =>
      var id :- LabelId(l.node, webalize);
      Ok(IdPrefix(p.node) + id)
  }

  predicate IsTocSection(n: Node) { InstanceOf(n.kind, TTocSection) }
  predicate IsTocSubSection(n: Node) { InstanceOf(n.kind, TTocSubSection) }

  /** `getTocSection()`: the nearest Toc section ancestor, or null. */
  function TocSectionOf(l: Located): (r: Option<Located>)
    ensures r.None? <==> forall k :: 0 <= k < |l.ancestors| ==> !IsTocSection(l.ancestors[k])
    ensures r.Some? ==> IsTocSection(r.value.node)
  {
    ParentOf(l, Some(IsTocSection))
  }

  /** `getTocSubSection()`: the nearest Toc subsection ancestor, or null. */
  function TocSubSectionOf(l: Located): (r: Option<Located>)
    ensures r.None? <==> forall k :: 0 <= k < |l.ancestors| ==> !IsTocSubSection(l.ancestors[k])
    ensures r.Some? ==> IsTocSubSection(r.value.node)
  {
    ParentOf(l, Some(IsTocSubSection))
  }

  /** `Label::filterByValue(...$names)`: exact membership of the label name. */
  function LabelFilterByValue(names: seq<string>, l: Node): (r: Result<bool>)
    ensures r.Ok? <==> LabelName(l).Ok?
    ensures r.Ok? ==> (r.value <==> LabelName(l).value in names)
  {
    var name :- LabelName(l);
    Ok(name in names)
  }

  // BibiItem

  /** `getArguments()->get($i)`: the argument at position `i`, or null. */
  function ArgumentAt(n: Node, i: nat): (r: Option<Node>)
    ensures r.Some? <==> i < |n.children|
    ensures r.Some? ==> r.value == n.children[i]
  {
    if i < |n.children| then Some(n.children[i]) else None
  }

  function BookAuthor(b: Node): Option<Node> { ArgumentAt(b, 1) }
  function BookName(b: Node): Option<Node> { ArgumentAt(b, 2) }
  function BookPublisher(b: Node): Option<Node> { ArgumentAt(b, 3) }
  function BookSource(b: Node): Option<Node> { ArgumentAt(b, 4) }

  /** `getBook()`: the field is never assigned. */
  function Book(b: Node): Option<Node> { None }

  /** The five positional fields of a bibliography item; `book` stays null whatever the input. */
  lemma BibiItemFields(b: Node)
    ensures BookAuthor(b).Some? <==> |b.children| >= 2
    ensures BookSource(b).Some? <==> |b.children| >= 5
    ensures BookSource(b).Some? ==> BookName(b).Some? && BookPublisher(b).Some?
    ensures Book(b).None?
  {
  }

  /** `getRefName()`: the first value of argument 0, null without one. */
  function RefName(b: Node): (r: Result<Option<Node>>)
    ensures r.Err? <==> b.children != [] && b.children[0].children == []
    ensures r.Ok? && r.value.Some? <==> b.children != [] && b.children[0].children != []
    ensures r.Ok? && r.value.Some? ==> r.value.value == b.children[0].children[0]
  {
    match ArgumentAt(b, 0)
    case None => Ok(None)
    case Some(a) =>
      var v :- FirstValue(a);
      Ok(Some(v))
  }

  /** `BibiItem::filterByName(...$names)`: exact membership of the ref name's value; PHP fails
      when there is no ref name or it is not a Text. */
  function BibiItemFilterByName(names: seq<string>, b: Node): (r: Result<bool>)
    ensures r.Ok? <==> RefName(b).Ok? && RefName(b).value.Some? && RefName(b).value.value.kind.TextNode?
    ensures r.Ok? ==> (r.value <==> RefName(b).value.value.kind.value in names)
  {
    var ref :- RefName(b);
    if ref.Some? && ref.value.kind.TextNode? then Ok(ref.value.kind.value in names) else Err(NullValue)
  }
}
