/** The AST of a parsed document. A node never changes once its constructor has returned (its
    children are attached only there), so a node is a value: its kind, holding the fields the
    constructor stores, and its children in order. The parent back-link a child receives from
    `addChild` is modelled by `Located`: a node together with its chain of ancestors. */
module AstNode {
  import opened Wrappers

  datatype StyleKind = NewParagraph | TypographicQuote | Underlined | Bold | Italic | Border

  /** The subclasses of `Command`. */
  datatype CommandClass =
    | PlainCommand
    | StyleCommand(style: StyleKind)
    | BoundaryCommand
    | LabelCommand
    | BibiItemCommand
    | EnumerationItemCommand

  /** The subclasses of `Theorem` (itself included, as `Theorem`). */
  datatype TheoremKind =
    | Assumption | Axiom | Conjecture | Corollary | Definition | Example | Lemma | Notation
    | Proof | Proposition | Remark | ResultThm | Solution | Theorem

  /** The subclasses of `Section` (itself included, as `PlainSection`). */
  datatype SectionClass =
    | PlainSection
    | MathSectionClass
    | TocSection
    | TocSubSection
    | TheoremSection(theorem: TheoremKind)

  /** The concrete class of a node with the fields its constructor stores directly. */
  datatype Kind =
    | DocumentNode
    | TextNode(value: string)
    | MathNode(formulae: string, inline: bool)
    | CommandNode(cls: CommandClass, name: string)
    | ArgumentNode(optional: bool)
    | SectionNode(section: SectionClass)

  datatype Node = Node(kind: Kind, children: seq<Node>)

  /** The class names `instanceof` and `filterByType` test against. */
  datatype Type =
    | TNode | TDocument | TText | TMath | TArgument
    | TCommand | TSectionBoundary | TLabel | TBibiItem | TEnumerationItem | TStyle(style: StyleKind)
    | TSection | TMathSection | TTocSection | TTocSubSection | TTheorem(theorem: TheoremKind)

  /** `$node instanceof $type`, following the class hierarchy: every command class extends
      `Command`, every section class extends `Section`, every theorem kind extends `Theorem`. */
  predicate InstanceOf(k: Kind, t: Type) {
    match t
    case TNode => true
    case TDocument => k.DocumentNode?
    case TText => k.TextNode?
    case TMath => k.MathNode?
    case TArgument => k.ArgumentNode?
    case TCommand => k.CommandNode?
    case TSectionBoundary => k.CommandNode? && k.cls.BoundaryCommand?
    case TLabel => k.CommandNode? && k.cls.LabelCommand?
    case TBibiItem => k.CommandNode? && k.cls.BibiItemCommand?
    case TEnumerationItem => k.CommandNode? && k.cls.EnumerationItemCommand?
    case TStyle(s) => k.CommandNode? && k.cls == StyleCommand(s)
    case TSection => k.SectionNode?
    case TMathSection => k.SectionNode? && k.section.MathSectionClass?
    case TTocSection => k.SectionNode? && k.section.TocSection?
    case TTocSubSection => k.SectionNode? && k.section.TocSubSection?
    case TTheorem(th) => k.SectionNode? && k.section.TheoremSection? && (th == Theorem || k.section.theorem == th)
  }

  /** `Node::filterByType(...$types)` applied to a node. */
  predicate FilterByType(types: seq<Type>, n: Node): (r: bool)
    ensures types == [] ==> !r
    ensures r <==> exists t :: t in types && InstanceOf(n.kind, t)
  {
    exists i :: 0 <= i < |types| && InstanceOf(n.kind, types[i])
  }

  /** `$child->validateParent($parent)`: a Document refuses every parent, an argument needs a
      command, a Toc section needs the Document, a Toc subsection needs a Toc section; every other
      class keeps the default, which accepts any parent. */
  predicate ValidateParent(child: Kind, parent: Kind) {
    match child
    case DocumentNode => false
    case ArgumentNode(_) => InstanceOf(parent, TCommand)
    case SectionNode(TocSection) => InstanceOf(parent, TDocument)
    case SectionNode(TocSubSection) => InstanceOf(parent, TTocSection)
    case _ => true
  }

  lemma ValidateParentCases(child: Kind, parent: Kind)
    ensures child.DocumentNode? ==> !ValidateParent(child, parent)
    ensures child.ArgumentNode? ==> (ValidateParent(child, parent) <==> parent.CommandNode?)
    ensures child == SectionNode(TocSection) ==> (ValidateParent(child, parent) <==> parent == DocumentNode)
    ensures child == SectionNode(TocSubSection) ==>
      (ValidateParent(child, parent) <==> parent == SectionNode(TocSection))
    ensures (!child.DocumentNode? && !child.ArgumentNode? && child != SectionNode(TocSection) &&
             child != SectionNode(TocSubSection)) ==> ValidateParent(child, parent)
  {
  }

  /** The elements of `s` satisfying `p`, in their order. */
  function Filter<T>(s: seq<T>, p: T -> bool): (r: seq<T>)
    ensures |r| <= |s|
    decreases |s|
  {
    if s == [] then [] else Filter(s[..|s| - 1], p) + (if p(s[|s| - 1]) then [s[|s| - 1]] else [])
  }

  /** `Filter` keeps exactly the elements satisfying `p`. */
  lemma {:induction false} FilterMembers<T>(s: seq<T>, p: T -> bool)
    ensures forall x :: x in Filter(s, p) ==> x in s && p(x)
    ensures forall i :: 0 <= i < |s| && p(s[i]) ==> s[i] in Filter(s, p)
    decreases |s|
  {
    if s != [] {
      FilterMembers(s[..|s| - 1], p);
      forall i | 0 <= i < |s| - 1 ensures s[i] == s[..|s| - 1][i] {}
    }
  }

  lemma {:induction false} FilterAppend<T>(a: seq<T>, b: seq<T>, p: T -> bool)
    ensures Filter(a + b, p) == Filter(a, p) + Filter(b, p)
    decreases |b|
  {
    if b == [] {
      assert a + b == a;
    } else {
      assert (a + b)[..|a + b| - 1] == a + b[..|b| - 1];
      FilterAppend(a, b[..|b| - 1], p);
    }
  }

  lemma FilterSnoc<T>(s: seq<T>, x: T, p: T -> bool)
    ensures Filter(s + [x], p) == Filter(s, p) + (if p(x) then [x] else [])
  {
    assert (s + [x])[..|s|] == s;
  }

  lemma FilterOne<T>(x: T, p: T -> bool)
    ensures Filter([x], p) == if p(x) then [x] else []
  {
    assert [x][..0] == [];
  }

  lemma {:induction false} FilterNone<T>(s: seq<T>, p: T -> bool)
    requires forall i :: 0 <= i < |s| ==> !p(s[i])
    ensures Filter(s, p) == []
    decreases |s|
  {
    if s != [] {
      FilterNone(s[..|s| - 1], p);
    }
  }

  /** The first element of `Filter(s, p)` is the first element of `s` satisfying `p`. */
  lemma {:induction false} FilterFirst<T>(s: seq<T>, p: T -> bool, k: nat)
    requires k < |s| && p(s[k]) && forall j :: 0 <= j < k ==> !p(s[j])
    ensures Filter(s, p) != [] && Filter(s, p)[0] == s[k]
  {
    assert s == s[..k] + [s[k]] + s[k + 1..];
    FilterAppend(s[..k] + [s[k]], s[k + 1..], p);
    FilterAppend(s[..k], [s[k]], p);
    FilterOne(s[k], p);
    FilterNone(s[..k], p);
  }

  /** `getChildren($filter)`: the children the filter accepts, in order; all of them
      without a filter. */
  method GetChildren(n: Node, filter: Option<Node -> bool>) returns (r: seq<Node>)
    ensures filter.None? ==> r == n.children
    ensures filter.Some? ==> r == Filter(n.children, filter.value)
  {
    if filter.None? {
      return n.children;
    }
    r := [];
    for i := 0 to |n.children|
      invariant r == Filter(n.children[..i], filter.value)
    {
      assert n.children[..i + 1] == n.children[..i] + [n.children[i]];
      FilterAppend(n.children[..i], [n.children[i]], filter.value);
      FilterOne(n.children[i], filter.value);
      if filter.value(n.children[i]) {
        r := r + [n.children[i]];
      }
    }
    assert n.children[..|n.children|] == n.children;
  }

  /** A node with its ancestors, the parent first and the root last. */
  datatype Located = Located(node: Node, ancestors: seq<Node>)

  /** The ancestor chain follows the parent links: each entry has the one before it (or the
      node itself) among its children. */
  predicate Linked(l: Located) {
    (l.ancestors != [] ==> l.node in l.ancestors[0].children) &&
    forall k :: 0 <= k < |l.ancestors| - 1 ==> l.ancestors[k] in l.ancestors[k + 1].children
  }

  /** Each of `cs` located below the ancestor chain `anc`. */
  function Place(cs: seq<Node>, anc: seq<Node>): (r: seq<Located>)
    ensures |r| == |cs|
  {
    if cs == [] then [] else [Located(cs[0], anc)] + Place(cs[1..], anc)
  }

  lemma {:induction false} PlaceAt(cs: seq<Node>, anc: seq<Node>)
    ensures forall i :: 0 <= i < |cs| ==> Place(cs, anc)[i] == Located(cs[i], anc)
  {
    if cs != [] {
      PlaceAt(cs[1..], anc);
      forall i | 0 < i < |cs| ensures Place(cs, anc)[i] == Located(cs[i], anc) {
        assert Place(cs, anc)[i] == Place(cs[1..], anc)[i - 1];
      }
    }
  }

  lemma KidsAt(l: Located)
    ensures forall i :: 0 <= i < |Kids(l)| ==> Kids(l)[i] == Located(l.node.children[i], [l.node] + l.ancestors)
  {
    PlaceAt(l.node.children, [l.node] + l.ancestors);
  }

  /** The children of a located node, each located below it. */
  function Kids(l: Located): seq<Located> {
    Place(l.node.children, [l.node] + l.ancestors)
  }

  lemma KidsLinked(l: Located)
    requires Linked(l)
    ensures forall d :: d in Kids(l) ==> Linked(d)
  {
    KidsAt(l);
    forall d | d in Kids(l) ensures Linked(d) {
      var i :| 0 <= i < |Kids(l)| && Kids(l)[i] == d;
      assert d.ancestors == [l.node] + l.ancestors;
      forall k | 0 <= k < |d.ancestors| - 1 ensures d.ancestors[k] in d.ancestors[k + 1].children {
        if k > 0 {
          assert d.ancestors[k] == l.ancestors[k - 1] && d.ancestors[k + 1] == l.ancestors[k];
        }
      }
    }
  }

  function Size(n: Node): nat {
    1 + SizeOfAll(n.children)
  }

  function SizeOfAll(cs: seq<Node>): nat {
    if cs == [] then 0 else Size(cs[0]) + SizeOfAll(cs[1..])
  }

  function QueueSize(q: seq<Located>): nat {
    if q == [] then 0 else Size(q[0].node) + QueueSize(q[1..])
  }

  lemma {:induction false} QueueSizeAppend(a: seq<Located>, b: seq<Located>)
    ensures QueueSize(a + b) == QueueSize(a) + QueueSize(b)
  {
    if a == [] {
      assert a + b == b;
    } else {
      assert (a + b)[1..] == a[1..] + b;
      QueueSizeAppend(a[1..], b);
    }
  }

  lemma {:induction false} PlaceSize(cs: seq<Node>, anc: seq<Node>)
    ensures QueueSize(Place(cs, anc)) == SizeOfAll(cs)
  {
    if cs != [] {
      PlaceSize(cs[1..], anc);
    }
  }

  lemma QueueShrinks(q: seq<Located>)
    requires q != []
    ensures QueueSize(q[1..] + Kids(q[0])) < QueueSize(q)
  {
    QueueSizeAppend(q[1..], Kids(q[0]));
    PlaceSize(q[0].node.children, [q[0].node] + q[0].ancestors);
  }

  /** The order `getChildrenRecursive` visits nodes in, as a function of its queue: take the
      head, emit its children and queue them at the back. */
  function Bfs(q: seq<Located>): seq<Located>
    decreases QueueSize(q)
  {
    if q == [] then []
    else
      QueueShrinks(q);
      Kids(q[0]) + Bfs(q[1..] + Kids(q[0]))
  }

  lemma BfsUnfold(q: seq<Located>)
    requires q != []
    ensures Bfs(q) == Kids(q[0]) + Bfs(q[1..] + Kids(q[0]))
  {
  }

  /** The children of every node of `q`, in queue order: the next level down. */
  function Level(q: seq<Located>): seq<Located>
    decreases |q|
  {
    if q == [] then [] else Kids(q[0]) + Level(q[1..])
  }

  lemma {:induction false} LevelAppend(a: seq<Located>, b: seq<Located>)
    ensures Level(a + b) == Level(a) + Level(b)
  {
    if a == [] {
      assert a + b == b;
    } else {
      assert (a + b)[1..] == a[1..] + b;
      LevelAppend(a[1..], b);
    }
  }

  lemma {:induction false} BfsThrough(q: seq<Located>, r: seq<Located>)
    ensures Bfs(q + r) == Level(q) + Bfs(r + Level(q))
    decreases |q|
  {
    if q == [] {
      assert q + r == r && r + [] == r;
    } else {
      var k := Kids(q[0]);
      BfsUnfold(q + r);
      assert (q + r)[0] == q[0] && (q + r)[1..] + k == q[1..] + (r + k);
      BfsThrough(q[1..], r + k);
      assert Level(q) == k + Level(q[1..]);
      assert r + k + Level(q[1..]) == r + Level(q);
    }
  }

  /** Breadth-first order: first every node one level down, then the search of that level. */
  lemma BfsByLevels(q: seq<Located>)
    ensures Bfs(q) == Level(q) + Bfs(Level(q))
  {
    BfsThrough(q, []);
    assert q + [] == q && [] + Level(q) == Level(q);
  }

  /** Every visited node is linked up to a queued node: its ancestor chain ends with that node's
      own chain, so the queued nodes themselves are never emitted again as their own results. */
  lemma {:induction false} BfsBelow(q: seq<Located>)
    requires forall l :: l in q ==> Linked(l)
    ensures forall d :: d in Bfs(q) ==> Linked(d) && exists l :: l in q && Below(d, l)
    decreases QueueSize(q)
  {
    if q != [] {
      KidsLinked(q[0]);
      KidsAt(q[0]);
      var next := q[1..] + Kids(q[0]);
      QueueShrinks(q);
      BfsBelow(next);
      forall d | d in Bfs(q) ensures Linked(d) && exists l :: l in q && Below(d, l) {
        if d in Kids(q[0]) {
          var i :| 0 <= i < |Kids(q[0])| && Kids(q[0])[i] == d;
          assert Below(d, q[0]);
        } else {
          assert d in Bfs(next);
          var l :| l in next && Below(d, l);
          if l in q[1..] {
            assert l in q;
          } else {
            var i :| 0 <= i < |Kids(q[0])| && Kids(q[0])[i] == l;
            BelowTrans(d, l, q[0]);
          }
        }
      }
    }
  }

  /** `d` lies strictly below `l`: its ancestors are a path ending in `l` then `l`'s ancestors. */
  predicate Below(d: Located, l: Located) {
    |d.ancestors| > |l.ancestors| &&
    d.ancestors[|d.ancestors| - |l.ancestors| - 1..] == [l.node] + l.ancestors
  }

  lemma BelowTrans(d: Located, m: Located, l: Located)
    requires Below(d, m) && Below(m, l)
    ensures Below(d, l)
  {
    var a := d.ancestors;
    var j := |a| - |m.ancestors| - 1;
    assert a[j + 1..] == m.ancestors;
    assert a[|a| - |l.ancestors| - 1..] == a[j + 1..][|m.ancestors| - |l.ancestors| - 1..];
  }

  /** Every child of a queued or visited node is visited. */
  lemma {:induction false} BfsComplete(q: seq<Located>)
    ensures forall l, i :: (l in q || l in Bfs(q)) && 0 <= i < |Kids(l)| ==> Kids(l)[i] in Bfs(q)
    decreases QueueSize(q)
  {
    if q != [] {
      var next := q[1..] + Kids(q[0]);
      QueueShrinks(q);
      BfsComplete(next);
      forall l, i | (l in q || l in Bfs(q)) && 0 <= i < |Kids(l)| ensures Kids(l)[i] in Bfs(q) {
        if l == q[0] {
          assert Kids(l)[i] in Kids(q[0]);
        } else if l in q {
          assert l in next;
        } else if l in Kids(q[0]) {
          assert l in next;
        }
      }
    }
  }

  /** The filter of `getChildrenRecursive` on located nodes; no filter accepts everything. */
  function Keep(filter: Option<Node -> bool>): Located -> bool {
    (d: Located) => filter.None? || filter.value(d.node)
  }

  /** `getChildrenRecursive($filter)`: the queue loop, proved to emit the filtered search order. */
  method GetChildrenRecursive(root: Located, filter: Option<Node -> bool>) returns (results: seq<Located>)
    ensures results == Filter(Bfs([root]), Keep(filter))
  {
    results := [];
    var queue := [root];
    while queue != []
      invariant Filter(Bfs([root]), Keep(filter)) == results + Filter(Bfs(queue), Keep(filter))
      decreases QueueSize(queue)
    {
      var node := queue[0];
      QueueShrinks(queue);
      VisitKeepsOrder(queue, results, Keep(filter));
      queue, results := VisitChildren(node, queue[1..], results, filter);
    }
  }

  /** Visiting the head of the queue moves its accepted children into the results and leaves
      the filtered search order of what is still to come unchanged. */
  lemma VisitKeepsOrder(queue: seq<Located>, results: seq<Located>, keep: Located -> bool)
    requires queue != []
    ensures results + Filter(Bfs(queue), keep) ==
      (results + Filter(Kids(queue[0]), keep)) + Filter(Bfs(queue[1..] + Kids(queue[0])), keep)
  {
    var kids := Kids(queue[0]);
    BfsUnfold(queue);
    FilterAppend(kids, Bfs(queue[1..] + kids), keep);
  }

  /** The inner `foreach` of `getChildrenRecursive`: queue every child of `node` and keep the
      accepted ones. */
  method VisitChildren(node: Located, rest: seq<Located>, found: seq<Located>, filter: Option<Node -> bool>)
    returns (queue: seq<Located>, results: seq<Located>)
    ensures queue == rest + Kids(node)
    ensures results == found + Filter(Kids(node), Keep(filter))
  {
    var kids := Kids(node);
    queue, results := rest, found;
    for j := 0 to |kids|
      invariant queue == rest + kids[..j]
      invariant results == found + Filter(kids[..j], Keep(filter))
    {
      var child := kids[j];
      assert kids[..j + 1] == kids[..j] + [child];
      FilterSnoc(kids[..j], child, Keep(filter));
      queue := queue + [child];
      if Keep(filter)(child) {
        results := results + [child];
      }
    }
    assert kids[..|kids|] == kids;
  }

  /** Index of the nearest ancestor the filter accepts. */
  function Nearest(ancestors: seq<Node>, f: Node -> bool): (r: Option<nat>)
    ensures r.None? <==> forall k :: 0 <= k < |ancestors| ==> !f(ancestors[k])
    ensures r.Some? ==> (r.value < |ancestors| && f(ancestors[r.value]) &&
                         forall j :: 0 <= j < r.value ==> !f(ancestors[j]))
    decreases |ancestors|
  {
    if ancestors == [] then None
    else if f(ancestors[0]) then Some(0)
    else
      var r := Nearest(ancestors[1..], f);
      if r.None? then None else Some(r.value + 1)
  }

  /** The ancestor at index `k`, itself located. */
  function AncestorAt(l: Located, k: nat): Located
    requires k < |l.ancestors|
  {
    Located(l.ancestors[k], l.ancestors[k + 1..])
  }

  /** `getParent($filter)` as a value. */
  function ParentOf(l: Located, filter: Option<Node -> bool>): Option<Located> {
    if filter.None? then (if l.ancestors == [] then None else Some(AncestorAt(l, 0)))
    else
      var k := Nearest(l.ancestors, filter.value);
      if k.None? then None else Some(AncestorAt(l, k.value))
  }

  /** `getParent($filter)`: the walk up the parent links, proved to stop at the nearest accepted
      ancestor. */
  method GetParent(l: Located, filter: Option<Node -> bool>) returns (p: Option<Located>)
    ensures p == ParentOf(l, filter)
    ensures filter.Some? ==> (p.None? <==> forall k :: 0 <= k < |l.ancestors| ==> !filter.value(l.ancestors[k]))
  {
    if filter.None? {
      return if l.ancestors == [] then None else Some(AncestorAt(l, 0));
    }
    var k := 0;
    while k < |l.ancestors| && !filter.value(l.ancestors[k])
      invariant 0 <= k <= |l.ancestors|
      invariant forall j :: 0 <= j < k ==> !filter.value(l.ancestors[j])
    {
      k := k + 1;
    }
    if k == |l.ancestors| {
      p := None;
    } else {
      p := Some(AncestorAt(l, k));
    }
    NearestIsFirst(l.ancestors, filter.value, k);
  }

  lemma NearestIsFirst(ancestors: seq<Node>, f: Node -> bool, k: nat)
    requires k <= |ancestors|
    requires forall j :: 0 <= j < k ==> !f(ancestors[j])
    requires k < |ancestors| ==> f(ancestors[k])
    ensures Nearest(ancestors, f) == if k == |ancestors| then None else Some(k)
  {
    var r := Nearest(ancestors, f);
    if r.Some? {
      assert r.value >= k;
      if k < |ancestors| { assert r.value <= k; }
    }
  }
}
