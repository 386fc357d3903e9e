/** `Section` and its subclasses (`MathSection`, the Toc sections, the theorems), `Document`,
    `Math` and `Text`: the fields their constructors derive, as functions of the node. */
module AstSection {
  import opened Wrappers
  import opened AstNode
  import opened AstCommand

  predicate IsSection(n: Node) { n.kind.SectionNode? }

  /** A section's children are its begin command followed by its body. */
  predicate HasBegin(s: Node) {
    IsSection(s) && s.children != [] && IsCommand(s.children[0])
  }

  /** `Section::getName()`: the begin command's first-argument first value when it is a Text. */
  function Name(s: Node): (r: Result<Option<string>>)
    requires HasBegin(s)
    ensures s.children[0].children == [] ==> r == Ok(None)
    ensures r.Err? <==> s.children[0].children != [] && s.children[0].children[0].children == []
    ensures r.Ok? && r.value.Some? ==>
      s.children[0].children[0].children[0].kind.TextNode? && r.value.value == s.children[0].children[0].children[0].kind.value
  {
    LeadName(s.children[0])
  }

  /** `Section::getArguments()`: the begin command's arguments after the first, in order. */
  function Arguments(s: Node): (r: seq<Node>)
    requires HasBegin(s)
    ensures |r| == if s.children[0].children == [] then 0 else |s.children[0].children| - 1
    ensures forall i :: 0 <= i < |r| ==> r[i] == s.children[0].children[i + 1]
  {
    var args := s.children[0].children;
    if args == [] then [] else args[1..]
  }

  /** `Section::getBody()`: the children after the begin command. */
  function Body(s: Node): (r: seq<Node>)
    requires HasBegin(s)
    ensures s.children == [s.children[0]] + r
  {
    s.children[1..]
  }

  /** `Section::filterByName(...$names)`: exact membership of the name; PHP fails on a section
      without a name. */
  function SectionFilterByName(names: seq<string>, s: Node): (r: Result<bool>)
    requires HasBegin(s)
    ensures r.Ok? <==> Name(s).Ok? && Name(s).value.Some?
    ensures r.Ok? ==> (r.value <==> Name(s).value.value in names)
  {
    var name :- Name(s);
    if name.Some? then Ok(name.value in names) else Err(NullValue)
  }

  /** The descendants of a node in breadth-first order, the node itself not included. */
  function Descendants(n: Node): seq<Located> {
    Bfs([Located(n, [])])
  }

  predicate IsMath(d: Located) { d.node.kind.MathNode? }

  /** `MathSection::$formulae`: the first Math descendant in breadth-first order, or null. */
  function Formulae(s: Node): (r: Option<Node>)
    ensures r.Some? ==> r.value.kind.MathNode?
  {
    var maths := Filter(Descendants(s), IsMath);
    if maths == [] then None
    else
      FilterMembers(Descendants(s), IsMath);
      assert maths[0] in maths;
      Some(maths[0].node)
  }

  /** The search finds the first Math in breadth-first order, and finds one whenever there is. */
  lemma FormulaeIsFirstMath(s: Node, k: nat)
    requires k < |Descendants(s)| && IsMath(Descendants(s)[k])
    requires forall j :: 0 <= j < k ==> !IsMath(Descendants(s)[j])
    ensures Formulae(s) == Some(Descendants(s)[k].node)
  {
    FilterFirst(Descendants(s), IsMath, k);
  }

  /** `MathSection::getFirstArgument()`: the first section argument, or null. */
  function MathFirstArgument(s: Node): (r: Option<Node>)
    requires HasBegin(s)
    ensures r.Some? <==> |s.children[0].children| >= 2
    ensures r.Some? ==> r.value == s.children[0].children[1]
  {
    var args := Arguments(s);
    if args == [] then None else Some(args[0])
  }

  /** `MathSection::getFormulae()`: the formula text of that Math; PHP fails when the section
      holds none. */
  function MathFormulae(s: Node): (r: Result<string>)
    ensures r.Ok? <==> Formulae(s).Some?
    ensures r.Ok? ==> r.value == Formulae(s).value.kind.formulae
  {
    match Formulae(s)
    case None => Err(NullValue)
    case Some(m) => Ok(m.kind.formulae)
  }

  predicate IsLabelNode(n: Node) { InstanceOf(n.kind, TLabel) }

  /** `Theorem::$label`: the first child that is a Label, or null. */
  function TheoremLabel(t: Node): (r: Option<Node>)
    ensures r.Some? ==> r.value in t.children && IsLabelNode(r.value)
    ensures r.None? <==> forall i :: 0 <= i < |t.children| ==> !IsLabelNode(t.children[i])
  {
    var labels := Filter(t.children, IsLabelNode);
    FilterMembers(t.children, IsLabelNode);
    if labels == [] then None
    else
      assert labels[0] in labels;
      Some(labels[0])
  }

  predicate IsBold(d: Located) { d.node.kind.CommandNode? && d.node.kind.name == "bf" }

  /** The first `\bf` command among the descendants, breadth first. */
  function BoldTitle(t: Node): (r: Option<Node>)
    ensures r.Some? ==> r.value.kind.CommandNode? && r.value.kind.name == "bf"
    ensures r.None? <==> forall i :: 0 <= i < |Descendants(t)| ==> !IsBold(Descendants(t)[i])
  {
    var bolds := Filter(Descendants(t), IsBold);
    FilterMembers(Descendants(t), IsBold);
    if bolds == [] then None
    else
      assert bolds[0] in bolds;
      Some(bolds[0].node)
  }

  /** `Theorem::$title`: the first value of the first argument of the first `\bf`, or else the
      first value of section argument 1 when that argument is optional, or else null. Reading
      the argument of a `\bf` without one, the first value of an empty argument, or the
      optional flag of something that is not an argument fails. */
  function Title(t: Node): (r: Result<Option<Node>>)
    requires HasBegin(t)
    ensures r.Err? ==> r.error == NullValue
    ensures r.Ok? && r.value.Some? ==> BoldTitle(t).Some? || Arguments(t) != []
    // Without a `\bf`, an optional second argument of the begin command gives the title and a
    // missing or mandatory one gives none.
    ensures ((forall i :: 0 <= i < |Descendants(t)| ==> !IsBold(Descendants(t)[i])) &&
             |t.children[0].children| >= 2 && t.children[0].children[1].kind == ArgumentNode(true))
      ==>
      var a := t.children[0].children[1];
      r == if a.children == [] then Err(NullValue) else Ok(Some(a.children[0]))
    ensures ((forall i :: 0 <= i < |Descendants(t)| ==> !IsBold(Descendants(t)[i])) &&
             (|t.children[0].children| < 2 || t.children[0].children[1].kind == ArgumentNode(false)))
      ==> r == Ok(None)
  {
    match BoldTitle(t)
    case Some(b) =>
      (match FirstArgument(b)
       case None => Err(NullValue)
       case Some(a) => var v :- FirstValue(a); Ok(Some(v)))
    case None =>
      var args := Arguments(t);
      if args == [] then Ok(None)
      else if !args[0].kind.ArgumentNode? then Err(NullValue)
      else if args[0].kind.optional then
        var v :- FirstValue(args[0]);
        Ok(Some(v))
      else Ok(None)
  }

  /** The first `\bf` in breadth-first order decides the title, whatever the section arguments. */
  lemma TitleFromBold(t: Node, k: nat)
    requires HasBegin(t)
    requires k < |Descendants(t)| && IsBold(Descendants(t)[k])
    requires forall j :: 0 <= j < k ==> !IsBold(Descendants(t)[j])
    ensures var b := Descendants(t)[k].node;
      Title(t) == if b.children == [] || b.children[0].children == [] then Err(NullValue)
                  else Ok(Some(b.children[0].children[0]))
  {
    FilterFirst(Descendants(t), IsBold, k);
  }

  /** `Document::getSections()`: the children that are Toc sections, in order. */
  function GetSections(d: Node): (r: seq<Node>)
    ensures |r| <= |d.children|
    ensures forall n :: n in r <==> n in d.children && IsTocSection(n)
  {
    FilterMembers(d.children, IsTocSection);
    Filter(d.children, IsTocSection)
  }

  predicate IsBibiItemAt(l: Located) { InstanceOf(l.node.kind, TBibiItem) }
  predicate IsLabelAt(l: Located) { InstanceOf(l.node.kind, TLabel) }

  /** `Document::$bibiItems`: every BibiItem descendant in breadth-first order, each with its
      ancestors. */
  function BibiItems(d: Node): seq<Located> {
    Filter(Descendants(d), IsBibiItemAt)
  }

  /** `Document::$labels`: every Label descendant in breadth-first order, each with its
      ancestors. */
  function Labels(d: Node): seq<Located> {
    Filter(Descendants(d), IsLabelAt)
  }

  /** The indices hold exactly the labels and bibliography items of the tree, each linked to the
      document through its ancestors; the sections are exactly the Toc-section children. */
  lemma DocumentIndices(d: Node)
    ensures forall l :: l in Labels(d) ==>
      (IsLabelAt(l) && l in Descendants(d) && Linked(l) &&
       |l.ancestors| >= 1 && l.ancestors[|l.ancestors| - 1] == d)
    ensures forall l :: l in BibiItems(d) ==> IsBibiItemAt(l) && l in Descendants(d)
    ensures forall l :: l in Descendants(d) && IsLabelAt(l) ==> l in Labels(d)
    ensures forall l :: l in Descendants(d) && IsBibiItemAt(l) ==> l in BibiItems(d)
    ensures forall c :: c in GetSections(d) <==> c in d.children && IsTocSection(c)
  {
    var root := Located(d, []);
    BfsBelow([root]);
    FilterMembers(Descendants(d), IsLabelAt);
    FilterMembers(Descendants(d), IsBibiItemAt);
    FilterMembers(d.children, IsTocSection);
    forall l | l in Labels(d)
      ensures |l.ancestors| >= 1 && l.ancestors[|l.ancestors| - 1] == d
    {
      assert l in Descendants(d);
      var m :| m in [root] && Below(l, m);
      assert l.ancestors[|l.ancestors| - 1..] == [d];
    }
    forall l | l in Descendants(d) && IsLabelAt(l) ensures l in Labels(d) {
      var i :| 0 <= i < |Descendants(d)| && Descendants(d)[i] == l;
    }
    forall l | l in Descendants(d) && IsBibiItemAt(l) ensures l in BibiItems(d) {
      var i :| 0 <= i < |Descendants(d)| && Descendants(d)[i] == l;
    }
    forall c | c in d.children && IsTocSection(c) ensures c in GetSections(d) {
      var i :| 0 <= i < |d.children| && d.children[i] == c;
    }
  }

  /** `Math`: the formula text and the inline flag given at construction. */
  function MathText(m: Node): string
    requires m.kind.MathNode?
  {
    m.kind.formulae
  }

  /** `Text::__toString()` is the value. */
  function TextString(t: Node): (r: string)
    requires t.kind.TextNode?
    ensures TextValue(t) == Some(r)
  {
    t.kind.value
  }
}
