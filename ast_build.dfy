/** Node construction: `new X(...$children)` runs `Node::__construct`, which attaches each child
    through `addChild` (refusing a child whose `validateParent` rejects the new node), and then
    the subclass constructor derives its fields, which can fail on a missing argument or value.
    Also the class tables of `Parser::createSection`/`createCommand` and `Solution::fromCommand`. */
module AstBuild {
  import opened Wrappers
  import opened AstNode
  import opened AstCommand
  import opened AstSection

  /** Every child accepts the node under construction as its parent. */
  predicate ParentsAccept(kind: Kind, children: seq<Node>) {
    forall i :: 0 <= i < |children| ==> ValidateParent(children[i].kind, kind)
  }

  /** `Section::__construct(Command $beginCommand, ...)`: the first child must be a command. */
  predicate BeginMissing(kind: Kind, children: seq<Node>) {
    kind.SectionNode? && (children == [] || !IsCommand(children[0]))
  }

  /** Whether the subclass constructor, run after the children are attached, completes: a section
      reads its name (and a theorem its title), a boundary its section name, a label its name. */
  predicate Derives(n: Node) {
    match n.kind
    case SectionNode(cls) =>
      HasBegin(n) && Name(n).Ok? && (!cls.TheoremSection? || Title(n).Ok?)
    case CommandNode(BoundaryCommand, _) => LeadName(n).Ok?
    case CommandNode(LabelCommand, _) => LabelNameNode(n).Ok?
    case _ => true
  }

  /** `new X(...$children)` for the class and stored fields `kind`. */
  function Build(kind: Kind, children: seq<Node>): (r: Result<Node>)
    requires (kind.TextNode? || kind.MathNode?) ==> children == []
    ensures r.Ok? <==> !BeginMissing(kind, children) && ParentsAccept(kind, children) &&
                       Derives(Node(kind, children))
    ensures r.Ok? ==> r.value == Node(kind, children)
    ensures BeginMissing(kind, children) ==> r == Err(NullValue)
    ensures !BeginMissing(kind, children) && !ParentsAccept(kind, children) ==> r == Err(InvalidNodeParent)
    ensures r.Err? ==> r.error in {NullValue, InvalidNodeParent}
  {
    if BeginMissing(kind, children) then Err(NullValue)
    else if !ParentsAccept(kind, children) then Err(InvalidNodeParent)
    else if Derives(Node(kind, children)) then Ok(Node(kind, children))
    else Err(NullValue)
  }

  /** The constructor as the source runs it: the type check of the begin command, one `addChild`
      per child in order, then the derived fields. */
  method NewNode(kind: Kind, children: seq<Node>) returns (r: Result<Node>)
    requires (kind.TextNode? || kind.MathNode?) ==> children == []
    ensures r == Build(kind, children)
  {
    if BeginMissing(kind, children) {
      return Err(NullValue);
    }
    var attached: seq<Node> := [];
    for i := 0 to |children|
      invariant attached == children[..i]
      invariant forall j :: 0 <= j < i ==> ValidateParent(children[j].kind, kind)
    {
      if !ValidateParent(children[i].kind, kind) {
        return Err(InvalidNodeParent);
      }
      attached := attached + [children[i]];
    }
    assert attached == children;
    var node := Node(kind, attached);
    if !Derives(node) {
      return Err(NullValue);
    }
    r := Ok(node);
  }

  /** A tree every node of which its constructor completed on. */
  predicate Built(n: Node)
    decreases n
  {
    ((n.kind.TextNode? || n.kind.MathNode?) ==> n.children == []) &&
    Build(n.kind, n.children) == Ok(n) &&
    forall i :: 0 <= i < |n.children| ==> Built(n.children[i])
  }

  predicate AllBuilt(ns: seq<Node>) {
    forall i :: 0 <= i < |ns| ==> Built(ns[i])
  }

  /** A Text or Math node, which has no children, is constructed. */
  lemma LeafBuilt(kind: Kind)
    requires kind.TextNode? || kind.MathNode?
    ensures Built(Node(kind, []))
  {
    assert ParentsAccept(kind, []);
  }

  /** Appending a constructed node keeps a sequence constructed. */
  lemma AllBuiltSnoc(ns: seq<Node>, n: Node)
    requires AllBuilt(ns) && Built(n)
    ensures AllBuilt(ns + [n])
  {
    assert forall i :: 0 <= i < |ns| ==> (ns + [n])[i] == ns[i];
  }

  lemma AllBuiltAppend(a: seq<Node>, b: seq<Node>)
    requires AllBuilt(a) && AllBuilt(b)
    ensures AllBuilt(a + b)
  {
    assert forall i :: 0 <= i < |a| ==> (a + b)[i] == a[i];
    assert forall i :: |a| <= i < |a + b| ==> (a + b)[i] == b[i - |a|];
  }

  /** Constructing a node from constructed children gives a constructed tree. */
  lemma BuildBuilt(kind: Kind, children: seq<Node>)
    requires (kind.TextNode? || kind.MathNode?) ==> children == []
    requires AllBuilt(children) && Build(kind, children).Ok?
    ensures Built(Build(kind, children).value)
  {
  }

  /** A Document refuses every parent, so no constructor accepts one as a child. */
  lemma DocumentNeverChild(kind: Kind, children: seq<Node>, i: nat)
    requires (kind.TextNode? || kind.MathNode?) ==> children == []
    requires i < |children| && children[i].kind == DocumentNode
    ensures Build(kind, children).Err?
  {
    ValidateParentCases(children[i].kind, kind);
  }

  /** A Toc section can only be attached to a Document: under a section, a command or an
      argument the constructor raises the parent error. */
  lemma TocSectionOnlyUnderDocument(kind: Kind, children: seq<Node>, i: nat)
    requires (kind.TextNode? || kind.MathNode?) ==> children == []
    requires i < |children| && IsTocSection(children[i])
    requires Build(kind, children).Ok?
    ensures kind == DocumentNode
  {
    ValidateParentCases(children[i].kind, kind);
  }

  /** A Toc subsection can only be attached to a Toc section; in particular a Document with a
      subsection among its children (one before any `\section`) is refused. */
  lemma TocSubSectionOnlyUnderTocSection(kind: Kind, children: seq<Node>, i: nat)
    requires (kind.TextNode? || kind.MathNode?) ==> children == []
    requires i < |children| && IsTocSubSection(children[i])
    ensures Build(kind, children).Ok? ==> kind == SectionNode(TocSection)
    ensures kind == DocumentNode ==> Build(kind, children) == Err(InvalidNodeParent)
  {
    ValidateParentCases(children[i].kind, kind);
  }

  /** Every ancestor on the chain of a node found below a constructed root is itself
      constructed, and so is the node. */
  lemma {:induction false} BuiltChain(d: Located, root: Node, k: nat)
    requires Built(root) && Linked(d) && |d.ancestors| >= 1
    requires d.ancestors[|d.ancestors| - 1] == root
    requires k < |d.ancestors|
    ensures Built(d.ancestors[k])
    decreases |d.ancestors| - k
  {
    if k < |d.ancestors| - 1 {
      BuiltChain(d, root, k + 1);
      assert d.ancestors[k] in d.ancestors[k + 1].children;
      var j :| 0 <= j < |d.ancestors[k + 1].children| && d.ancestors[k + 1].children[j] == d.ancestors[k];
    }
  }

  lemma BuiltNode(d: Located, root: Node)
    requires Built(root) && Linked(d) && |d.ancestors| >= 1
    requires d.ancestors[|d.ancestors| - 1] == root
    ensures Built(d.node)
    ensures ValidateParent(d.node.kind, d.ancestors[0].kind)
    ensures forall k :: 1 <= k < |d.ancestors| ==> ValidateParent(d.ancestors[k - 1].kind, d.ancestors[k].kind)
  {
    BuiltChain(d, root, 0);
    var j :| 0 <= j < |d.ancestors[0].children| && d.ancestors[0].children[j] == d.node;
    forall k | 1 <= k < |d.ancestors|
      ensures ValidateParent(d.ancestors[k - 1].kind, d.ancestors[k].kind)
    {
      BuiltChain(d, root, k);
      assert d.ancestors[k - 1] in d.ancestors[k].children;
      var i :| 0 <= i < |d.ancestors[k].children| && d.ancestors[k].children[i] == d.ancestors[k - 1];
    }
  }

  /** A node below a constructed root is not a Document, and it is a Toc section only as a
      child of the root, which is then a Document. */
  lemma PlacedShape(d: Located, root: Node)
    requires Built(root) && Linked(d) && |d.ancestors| >= 1
    requires d.ancestors[|d.ancestors| - 1] == root
    ensures d.node.kind != DocumentNode
    ensures IsTocSection(d.node) ==> d.ancestors == [root] && root.kind == DocumentNode
  {
    BuiltNode(d, root);
    var parent := d.ancestors[0].kind;
    PlacedKind(d.node.kind, parent);
    if IsTocSection(d.node) {
      assert parent == DocumentNode;
      if |d.ancestors| >= 2 {
        PlacedKind(parent, d.ancestors[1].kind);
      }
      assert |d.ancestors| == 1;
    }
  }

  /** A kind accepted under `parent` is no Document, and a Toc section is accepted only under a
      Document. */
  lemma PlacedKind(child: Kind, parent: Kind)
    requires ValidateParent(child, parent)
    ensures child != DocumentNode
    ensures child.SectionNode? && child.section == TocSection ==> parent == DocumentNode
  {
    ValidateParentCases(child, parent);
  }

  /** In a constructed tree no Document lies below the root, and every Toc section is a direct
      child of the root, which is then a Document: Toc sections never nest. */
  lemma BuiltTreeShape(root: Node)
    requires Built(root)
    ensures forall d :: d in Descendants(root) ==> d.node.kind != DocumentNode
    ensures forall d :: d in Descendants(root) && IsTocSection(d.node) ==>
      d.ancestors == [root] && root.kind == DocumentNode
  {
    forall d | d in Descendants(root)
      ensures d.node.kind != DocumentNode
      ensures IsTocSection(d.node) ==> d.ancestors == [root] && root.kind == DocumentNode
    {
      DescendantPlaced(d, root);
      PlacedShape(d, root);
    }
  }

  /** Each descendant of the root has its place below it: linked, with the root outermost. */
  lemma DescendantPlaced(d: Located, root: Node)
    requires d in Descendants(root)
    ensures Linked(d) && |d.ancestors| >= 1 && d.ancestors[|d.ancestors| - 1] == root
  {
    var top := Located(root, []);
    BfsBelow([top]);
    var m :| m in [top] && Below(d, m);
    assert m == top;
    assert d.ancestors[|d.ancestors| - 1..] == [root];
  }

  /** The environment table of `createSection`: each theorem class under its `NAME`, `pf` as a
      proof, `reseni` as a solution, any other name as a plain section. */
  function SectionClassFor(name: string): SectionClass {
    if name == "assumption" then TheoremSection(Assumption)
    else if name == "axiom" then TheoremSection(Axiom)
    else if name == "conjecture" then TheoremSection(Conjecture)
    else if name == "corollary" then TheoremSection(Corollary)
    else if name == "definition" then TheoremSection(Definition)
    else if name == "example" then TheoremSection(Example)
    else if name == "lemma" then TheoremSection(Lemma)
    else if name == "notation" then TheoremSection(Notation)
    else if name == "pf" || name == "proof" then TheoremSection(Proof)
    else if name == "proposition" then TheoremSection(Proposition)
    else if name == "remark" then TheoremSection(Remark)
    else if name == "result" then TheoremSection(ResultThm)
    else if name == "reseni" || name == "solution" then TheoremSection(Solution)
    else if name == "theorem" then TheoremSection(Theorem)
    else PlainSection
  }

  /** Every theorem class is reached through its own `NAME`, and the two aliases reach proof
      and solution. */
  lemma SectionTableNames()
    ensures forall k :: SectionClassFor(TheoremName(k)) == TheoremSection(k)
    ensures SectionClassFor("pf") == TheoremSection(Proof)
    ensures SectionClassFor("reseni") == TheoremSection(Solution)
  {
    forall k ensures SectionClassFor(TheoremName(k)) == TheoremSection(k) {
      match k
      case Assumption =>
      case Axiom =>
      case Conjecture =>
      case Corollary =>
      case Definition =>
      case Example =>
      case Lemma =>
      case Notation =>
      case Proof =>
      case Proposition =>
      case Remark =>
      case ResultThm =>
      case Solution =>
      case Theorem =>
    }
  }

  /** A name selects a theorem class only when it is that class's `NAME` or one of the two
      aliases; every other name gives a plain section, never a math or a Toc section. */
  lemma SectionTableOthers(name: string)
    ensures SectionClassFor(name) == PlainSection || SectionClassFor(name).TheoremSection?
    ensures SectionClassFor(name).TheoremSection? ==>
      var k := SectionClassFor(name).theorem;
      name == TheoremName(k) || (k == Proof && name == "pf") || (k == Solution && name == "reseni")
    ensures (forall k :: name != TheoremName(k)) && name != "pf" && name != "reseni" ==>
      SectionClassFor(name) == PlainSection
  {
    if SectionClassFor(name).TheoremSection? {
      var k := SectionClassFor(name).theorem;
      assert name == TheoremName(k) || (k == Proof && name == "pf") || (k == Solution && name == "reseni");
    }
  }

  /** `createSection($name, $begin, $nodes)`: the class its table gives, the begin command
      first and the nodes after it. */
  function CreateSection(name: string, begin: Node, nodes: seq<Node>): (r: Result<Node>)
    ensures r.Ok? ==> r.value == Node(SectionNode(SectionClassFor(name)), [begin] + nodes)
    ensures r.Ok? <==> IsCommand(begin) && ParentsAccept(SectionNode(SectionClassFor(name)), [begin] + nodes) &&
                       Derives(Node(SectionNode(SectionClassFor(name)), [begin] + nodes))
  {
    Build(SectionNode(SectionClassFor(name)), [begin] + nodes)
  }

  /** The command table of `createCommand`. */
  function CommandClassFor(name: string): CommandClass {
    if name in ["ms", "medskip", "smallskip", "bigskip", "par"] then StyleCommand(NewParagraph)
    else if name == "uv" then StyleCommand(TypographicQuote)
    else if name == "ul" then StyleCommand(Underlined)
    else if name == "bf" then StyleCommand(Bold)
    else if name == "textit" then StyleCommand(Italic)
    else if name == "fbox" then StyleCommand(Border)
    else if name == "bibitem" then BibiItemCommand
    else if name == "label" then LabelCommand
    else if name == "begin" || name == "end" then BoundaryCommand
    else PlainCommand
  }

  /** The table gives a boundary, a label or a bibliography item exactly for its own names, and
      a plain command for every name outside it. */
  lemma CommandTable(name: string)
    ensures CommandClassFor(name) == BoundaryCommand <==> name == "begin" || name == "end"
    ensures CommandClassFor(name) == LabelCommand <==> name == "label"
    ensures CommandClassFor(name) == BibiItemCommand <==> name == "bibitem"
    ensures CommandClassFor(name) == StyleCommand(Bold) <==> name == "bf"
    ensures CommandClassFor(name).StyleCommand? <==>
      name in ["ms", "medskip", "smallskip", "bigskip", "par", "uv", "ul", "bf", "textit", "fbox"]
    ensures CommandClassFor(name) != EnumerationItemCommand
  {
  }

  /** `createCommand($name, $arguments)`: a command of the class its table gives, holding the
      name and the arguments in order. */
  function CreateCommand(name: string, arguments: seq<Node>): (r: Result<Node>)
    ensures r.Ok? ==> r.value == Node(CommandNode(CommandClassFor(name), name), arguments)
    ensures r.Ok? <==> ParentsAccept(CommandNode(CommandClassFor(name), name), arguments) &&
                       Derives(Node(CommandNode(CommandClassFor(name), name), arguments))
  {
    Build(CommandNode(CommandClassFor(name), name), arguments)
  }

  /** `Solution::fromCommand($command)`: a solution whose begin command has the command's name
      and the single mandatory argument `Solution`, and whose body is the children of the
      command's first argument; a command without arguments fails. */
  function SolutionFromCommand(command: Node): (r: Result<Node>)
    requires IsCommand(command)
    ensures command.children == [] ==> r == Err(NullValue)
    ensures r.Ok? ==>
      (r.value.kind == SectionNode(TheoremSection(Solution)) &&
       r.value.children == [BeginCommand(command.kind.name, "Solution")] + command.children[0].children)
  {
    match FirstArgument(command)
    case None => Err(NullValue)
    case Some(a) =>
      Build(SectionNode(TheoremSection(Solution)), [BeginCommand(command.kind.name, "Solution")] + a.children)
  }

  /** `new Command($name, new CommandArgument(false, new Text($title)))`, the begin command a
      solution is given. */
  function BeginCommand(name: string, title: string): Node {
    Node(CommandNode(PlainCommand, name), [Node(ArgumentNode(false), [Node(TextNode(title), [])])])
  }

  /** That begin command is constructed, and names any section it opens after its title. */
  lemma BeginCommandBuilt(name: string, title: string)
    ensures Built(BeginCommand(name, title))
    ensures forall cls, body :: Name(Node(SectionNode(cls), [BeginCommand(name, title)] + body)) == Ok(Some(title))
  {
    var text := Node(TextNode(title), []);
    var arg := Node(ArgumentNode(false), [text]);
    assert Built(text);
    assert Built(arg);
  }
}
