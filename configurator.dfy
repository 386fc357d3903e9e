/** The macro catalog of the MB102 course: a registry of named macros, the templates of the
    mask handlers, the renaming macros and the `text` handler. */
module Configurator {
  import opened Wrappers
  import opened Tokens
  import opened StringUtils
  import opened MacroExpansion

  // Handlers

  /** `LatexMacroExpansion::mask($template)` as a handler value. */
  function MaskHandler(template: string): seq<string> -> Result<string> {
    args => Mask(template, args)
  }

  /** The handler of a renaming macro: the invocation becomes the command `\target`. */
  function RenameHandler(target: string): seq<string> -> Result<string> {
    args => Ok("\\" + target)
  }

  /** The handler registered for `text`: a `\scriptsize` prefix (any letter case) becomes
      `\LARGE{…}`, otherwise a `\rm` prefix becomes `\textrm{…}`, anything else is wrapped in
      `\text{…}`. A missing argument reads as the empty string, as PHP reads `null`. */
  function TextHandler(args: seq<string>): (r: Result<string>)
    ensures r.Ok?
  {
    var a := if args == [] then "" else args[0];
    if StartsWithCI(a, "\\scriptsize") then Ok("\\LARGE{" + a[11..] + "}")
    else if StartsWithCI(a, "\\rm") then Ok("\\textrm{" + a[3..] + "}")
    else Ok("\\text{" + a + "}")
  }

  // The registry

  /** One renaming pair `name => target` as a macro without arguments. */
  function Rename(pair: (string, string)): Macro {
    Macro(pair.0, 0, RenameHandler(pair.1))
  }

  /** The registry after registering the renaming pairs in order, a later pair replacing an
      earlier one of the same name. */
  function Register(macros: map<string, Macro>, pairs: seq<(string, string)>): map<string, Macro>
    decreases |pairs|
  {
    if pairs == [] then macros
    else Register(macros, pairs[..|pairs| - 1])[pairs[|pairs| - 1].0 := Rename(pairs[|pairs| - 1])]
  }

  /** The registry that the chained registration calls build: the macros by name. */
  class MacroRegistry {
    var macros: map<string, Macro>

    constructor ()
      ensures macros == map[]
    {
      macros := map[];
    }

    /** `addMacroHandler($name, $count, $handler)`: registers (or replaces) one macro. */
    method AddMacroHandler(name: string, argumentsCount: int, handler: seq<string> -> Result<string>)
      modifies this
      ensures macros == old(macros)[name := Macro(name, argumentsCount, handler)]
    {
      macros := macros[name := Macro(name, argumentsCount, handler)];
    }

    /** `addMacroReplacements($pairs)`: registers each pair as a renaming macro, in order. */
    method AddMacroReplacements(pairs: seq<(string, string)>)
      modifies this
      ensures macros == Register(old(macros), pairs)
    {
      var i := 0;
      while i < |pairs|
        invariant 0 <= i <= |pairs|
        invariant macros == Register(old(macros), pairs[..i])
      {
        assert pairs[..i + 1][..i] == pairs[..i];
        macros := macros[pairs[i].0 := Rename(pairs[i])];
        i := i + 1;
      }
      assert pairs[..i] == pairs;
    }

    /** `Configurator::configureMB102()`. */
    static method ConfigureMB102() returns (r: MacroRegistry)
      ensures fresh(r) && r.macros == Catalog()
    {
      r := new MacroRegistry();
      r.AddMacroReplacements(Replacements());
      r.AddMacroHandler("mdet", 1, MaskHandler(MdetTemplate));
      r.AddMacroHandler("mmatrix", 1, MaskHandler(MmatrixTemplate));
      r.AddMacroHandler("bigseq", 3, MaskHandler(BigseqTemplate));
      r.AddMacroHandler("bigtyp", 1, MaskHandler(BigtypTemplate));
      r.AddMacroHandler("biggtyp", 1, MaskHandler(BiggtypTemplate));
      r.AddMacroHandler("perpartes", 4, MaskHandler(PerpartesTemplate));
      r.AddMacroHandler("substituce", 2, MaskHandler(SubstituceTemplate));
      r.AddMacroHandler("lowint", 2, MaskHandler(LowintTemplate));
      r.AddMacroHandler("upint", 2, MaskHandler(UpintTemplate));
      r.AddMacroHandler("bigmeze", 3, MaskHandler(BigmezeTemplate));
      r.AddMacroHandler("biggmeze", 3, MaskHandler(BiggmezeTemplate));
      r.AddMacroHandler("rada", 3, MaskHandler(RadaTemplate));
      r.AddMacroHandler("mathbox", 1, MaskHandler(MathboxTemplate));
      r.AddMacroHandler("qtextq", 1, MaskHandler(QtextqTemplate));
      r.AddMacroHandler("qqtextqq", 1, MaskHandler(QqtextqqTemplate));
      r.AddMacroHandler("label", 1, MaskHandler(""));
      r.AddMacroHandler("ref", 1, MaskHandler(""));
      r.AddMacroHandler("text", 1, TextHandler);
    }
  }

  // The catalog

  function Replacements(): seq<(string, string)> {
    [("Rbb", "R"), ("Zbb", "Z"), ("Nbb", "N"), ("Cbb", "C"), ("Ibb", "I"), ("Qbb", "Q"), ("Dbb", "D"),
     ("D", "mathcal{D}"), ("H", "mathcal{H}"), ("L", "mathcal{L}"), ("R", "mathcal{R}"), ("P", "mathcal{P}"),
     ("st", "operatorname{\\textrm{st}}"), ("sgn", "operatorname{\\textrm{sgn}}"),
     ("tg", "operatorname{\\textrm{tg}}"), ("cotg", "operatorname{\\textrm{cotg}}"),
     ("arctg", "operatorname{\\textrm{arctg}}"), ("arccotg", "operatorname{\\textrm{arccotg}}"),
     ("Gr", "operatorname{\\textrm{Gr}}"), ("Eigen", "operatorname{\\textrm{Eigen}}"),
     ("ul", "underline"), ("eps", "varepsilon"), ("dx", "mathrm{d}x"), ("e", "mathrm{e}"),
     ("la", "lambda"), ("al", "alpha"), ("be", "beta"), ("ps", "psi"), ("De", "Delta")]
  }

  // The mask templates, each written as its literal texts and placeholders in order.
  const MdetTemplate := "\\left|\\,\\begin{matrix} " + "{#1}" + " \\end{matrix}\\,\\right|"
  const MmatrixTemplate := "\\left(\\begin{matrix} " + "{#1}" + " \\end{matrix}\\right)"
  const BigseqTemplate := "\\big\\{" + "{#1}" + "\\big\\}_{" + "{#2}" + "=" + "{#3}" + "}^\\infty"
  const BigtypTemplate := "\\quad\\big| \\text{ typ } " + "{#1}" + "\\ \\big|"
  const BiggtypTemplate := "\\quad\\bigg| \\text{ typ } " + "{#1}" + "\\ \\bigg|"
  const PerpartesTemplate := "\\quad\\bigg| \\begin{array}{ll}\n  u'=" + "{#1}" + " \\quad & u=" + "{#2}" + " \\\\\n  v=" + "{#3}" + " \\quad & v'=" + "{#4}" + "\n\\end{array} \\bigg|"
  const SubstituceTemplate := "\\quad\\left| \\begin{array}{l} " + "{#1}" + " \\\\ " + "{#2}" + " \\end{array}\\ \\right|"
  const LowintTemplate := "{\\ul{\\int}}_{\\,\\, " + "{#1}" + "}^{\\,\\, " + "{#2}" + "}"
  const UpintTemplate := "{\\overline{\\int}}_{\\!\\!\\! " + "{#1}" + "}^{\\,\\,\\, " + "{#2}" + "}"
  const BigmezeTemplate := "\\big[\\," + "{#1}" + "\\,\\big]_{" + "{#2}" + "}^{" + "{#3}" + "}"
  const BiggmezeTemplate := "\\bigg[\\," + "{#1}" + "\\,\\bigg]_{" + "{#2}" + "}^{" + "{#3}" + "}"
  const RadaTemplate := "\\sum_{" + "{#2}" + "=" + "{#3}" + "}^\\infty " + "{#1}"
  const MathboxTemplate := "\\fbox{$\\displaystyle \\, " + "{#1}" + " \\, $}\\,"
  const QtextqTemplate := "\\quad\\text{" + "{#1}" + "}\\quad"
  const QqtextqqTemplate := "\\qquad\\text{" + "{#1}" + "}\\qquad"

  /** The registry `configureMB102` returns. */
  function Catalog(): map<string, Macro> {
    Register(map[], Replacements())
      ["mdet" := Macro("mdet", 1, MaskHandler(MdetTemplate))]
      ["mmatrix" := Macro("mmatrix", 1, MaskHandler(MmatrixTemplate))]
      ["bigseq" := Macro("bigseq", 3, MaskHandler(BigseqTemplate))]
      ["bigtyp" := Macro("bigtyp", 1, MaskHandler(BigtypTemplate))]
      ["biggtyp" := Macro("biggtyp", 1, MaskHandler(BiggtypTemplate))]
      ["perpartes" := Macro("perpartes", 4, MaskHandler(PerpartesTemplate))]
      ["substituce" := Macro("substituce", 2, MaskHandler(SubstituceTemplate))]
      ["lowint" := Macro("lowint", 2, MaskHandler(LowintTemplate))]
      ["upint" := Macro("upint", 2, MaskHandler(UpintTemplate))]
      ["bigmeze" := Macro("bigmeze", 3, MaskHandler(BigmezeTemplate))]
      ["biggmeze" := Macro("biggmeze", 3, MaskHandler(BiggmezeTemplate))]
      ["rada" := Macro("rada", 3, MaskHandler(RadaTemplate))]
      ["mathbox" := Macro("mathbox", 1, MaskHandler(MathboxTemplate))]
      ["qtextq" := Macro("qtextq", 1, MaskHandler(QtextqTemplate))]
      ["qqtextqq" := Macro("qqtextqq", 1, MaskHandler(QqtextqqTemplate))]
      ["label" := Macro("label", 1, MaskHandler(""))]
      ["ref" := Macro("ref", 1, MaskHandler(""))]
      ["text" := Macro("text", 1, TextHandler)]
  }
  // Properties of the registry

  /** Every macro of a registry is filed under its own name. */
  predicate FiledByName(macros: map<string, Macro>) {
    forall x :: x in macros ==> macros[x].name == x
  }

  /** Registering renames keeps every macro filed under its own name. */
  lemma {:induction false} RegisterFilesByName(macros: map<string, Macro>, pairs: seq<(string, string)>)
    requires FiledByName(macros)
    ensures FiledByName(Register(macros, pairs))
    decreases |pairs|
  {
    if pairs != [] {
      RegisterFilesByName(macros, pairs[..|pairs| - 1]);
    }
  }

  /** The last pair registered under a name is the macro found under it. */
  lemma {:induction false} RegisterLast(macros: map<string, Macro>, pairs: seq<(string, string)>, k: nat)
    requires k < |pairs| && forall j :: k < j < |pairs| ==> pairs[j].0 != pairs[k].0
    ensures pairs[k].0 in Register(macros, pairs) && Register(macros, pairs)[pairs[k].0] == Rename(pairs[k])
    decreases |pairs|
  {
    if k < |pairs| - 1 {
      RegisterLast(macros, pairs[..|pairs| - 1], k);
    }
  }

  /** A name no pair registers keeps what the registry held before. */
  lemma {:induction false} RegisterOthers(macros: map<string, Macro>, pairs: seq<(string, string)>, x: string)
    requires forall j :: 0 <= j < |pairs| ==> pairs[j].0 != x
    ensures x in Register(macros, pairs) <==> x in macros
    ensures x in macros ==> Register(macros, pairs)[x] == macros[x]
    decreases |pairs|
  {
    if pairs != [] {
      RegisterOthers(macros, pairs[..|pairs| - 1], x);
    }
  }

  /** The `text` handler, case by case. */
  lemma TextScriptsize(a: string, more: seq<string>)
    requires StartsWithCI(a, "\\scriptsize")
    ensures TextHandler([a] + more) == Ok("\\LARGE{" + a[11..] + "}")
  {
  }

  lemma TextRm(a: string, more: seq<string>)
    requires !StartsWithCI(a, "\\scriptsize") && StartsWithCI(a, "\\rm")
    ensures TextHandler([a] + more) == Ok("\\textrm{" + a[3..] + "}")
  {
  }

  lemma TextPlain(a: string, more: seq<string>)
    requires !StartsWithCI(a, "\\scriptsize") && !StartsWithCI(a, "\\rm")
    ensures TextHandler([a] + more) == Ok("\\text{" + a + "}")
  {
  }

  // Properties of the catalog

  /** Every catalog macro is filed under its own name. */
  lemma CatalogFiledByName()
    ensures FiledByName(Catalog())
  {
    RegisterFilesByName(map[], Replacements());
  }

  /** The declared numbers of brace groups. */
  lemma CatalogArities()
    ensures "mdet" in Catalog() && Catalog()["mdet"].argumentsCount == 1
    ensures "bigseq" in Catalog() && Catalog()["bigseq"].argumentsCount == 3
    ensures "perpartes" in Catalog() && Catalog()["perpartes"].argumentsCount == 4
    ensures "substituce" in Catalog() && Catalog()["substituce"].argumentsCount == 2
    ensures "text" in Catalog() && Catalog()["text"].argumentsCount == 1
  {
  }

  /** `label` and `ref` expand to nothing, whatever their argument. */
  lemma CatalogLabelRefEmpty(args: seq<string>)
    ensures "label" in Catalog() && Catalog()["label"].handler(args) == Ok("")
    ensures "ref" in Catalog() && Catalog()["ref"].handler(args) == Ok("")
  {
  }

  /** `text` is registered with the `text` handler. */
  lemma CatalogText(a: string)
    ensures "text" in Catalog() && Catalog()["text"].handler([a]) == TextHandler([a])
  {
  }

  /** A name of the catalog that only a renaming pair registers. */
  lemma CatalogRenameAt(k: nat)
    requires k < |Replacements()|
    requires forall j :: k < j < |Replacements()| ==> Replacements()[j].0 != Replacements()[k].0
    requires Replacements()[k].0 !in ["mdet", "mmatrix", "bigseq", "bigtyp", "biggtyp", "perpartes", "substituce", "lowint", "upint", "bigmeze", "biggmeze", "rada", "mathbox", "qtextq", "qqtextqq", "label", "ref", "text"]
    ensures Replacements()[k].0 in Catalog()
    ensures Catalog()[Replacements()[k].0] == Macro(Replacements()[k].0, 0, RenameHandler(Replacements()[k].1))
  {
    RegisterLast(map[], Replacements(), k);
  }

  /** The renamings take no argument and produce the target command: `\Rbb` becomes `\R`,
      `\eps` becomes `\varepsilon`, `\la` becomes `\lambda`. */
  lemma CatalogRenameRbb(args: seq<string>)
    ensures "Rbb" in Catalog() && Catalog()["Rbb"].argumentsCount == 0 && Catalog()["Rbb"].handler(args) == Ok("\\R")
  {
    assert Replacements()[0] == ("Rbb", "R");
    CatalogRenameAt(0);
    assert RenameHandler("R")(args) == Ok("\\" + "R");
    assert "\\" + "R" == "\\R";
  }

  lemma CatalogRenameEps(args: seq<string>)
    ensures "eps" in Catalog() && Catalog()["eps"].argumentsCount == 0 && Catalog()["eps"].handler(args) == Ok("\\varepsilon")
  {
    assert Replacements()[21] == ("eps", "varepsilon");
    CatalogRenameAt(21);
    assert RenameHandler("varepsilon")(args) == Ok("\\" + "varepsilon");
    assert "\\" + "varepsilon" == "\\varepsilon";
  }

  lemma CatalogRenameLa(args: seq<string>)
    ensures "la" in Catalog() && Catalog()["la"].argumentsCount == 0 && Catalog()["la"].handler(args) == Ok("\\lambda")
  {
    assert Replacements()[24] == ("la", "lambda");
    CatalogRenameAt(24);
    assert RenameHandler("lambda")(args) == Ok("\\" + "lambda");
    assert "\\" + "lambda" == "\\lambda";
  }

  /** `\mdet{a}`: a determinant around its argument. */
  lemma MdetFills(args: seq<string>)
    requires |args| >= 1
    ensures Mask(MdetTemplate, args) == Ok("\\left|\\,\\begin{matrix} " + args[0] + " \\end{matrix}\\,\\right|")
  {
    MdetPieces();
    MaskFillsOne("\\left|\\,\\begin{matrix} ", " \\end{matrix}\\,\\right|", args);
  }

  /** The literal pieces of the `\mdet` template hold no `#`. */
  lemma MdetPieces()
    ensures Literal("\\left|\\,\\begin{matrix} ") && Literal(" \\end{matrix}\\,\\right|")
  {
  }

  /** `\bigseq{a}{n}{k}`: the sequence of the `a` for `n` from `k`. */
  lemma BigseqFills(args: seq<string>)
    requires |args| >= 3
    ensures Mask(BigseqTemplate, args) == Ok("\\big\\{" + args[0] + "\\big\\}_{" + args[1] + "=" + args[2] + "}^\\infty")
  {
    BigseqPieces();
    MaskFillsThree("\\big\\{", "\\big\\}_{", "=", "}^\\infty", args);
  }

  /** `\bigseq{a}{b}`: two groups where the macro takes three. The invocation never
      completes, so the formula's text stays as it was. */
  lemma BigseqShortOfGroups(c: Token, l: Token, a: Token, r: Token, b: Token)
    requires l.kind == BraceLeft && l.value == "{" && r.kind == BraceRight && r.value == "}"
    requires Invokes("bigseq", c) && a.kind != BraceLeft && a.kind != BraceRight && b.kind != BraceLeft && b.kind != BraceRight
    ensures Expansion(Catalog()["bigseq"], [c, l, a, r, l, b, r]) == Ok(Join([c, l, a, r, l, b, r]))
  {
    CatalogArities();
    CatalogFiledByName();
    TwoGroupsOfThree(Catalog()["bigseq"], c, l, a, r, b);
  }

  /** The literal pieces of the `\bigseq` template hold no `#`. */
  lemma BigseqPieces()
    ensures Literal("\\big\\{") && Literal("\\big\\}_{") && Literal("=") && Literal("}^\\infty")
  {
  }

  /** `\substituce{a}{b}`: the two substitutions stacked in a bar. */
  lemma SubstituceFills(args: seq<string>)
    requires |args| >= 2
    ensures Mask(SubstituceTemplate, args) ==
      Ok("\\quad\\left| \\begin{array}{l} " + args[0] + " \\\\ " + args[1] + " \\end{array}\\ \\right|")
  {
    SubstitucePieces();
    MaskFillsTwo("\\quad\\left| \\begin{array}{l} ", " \\\\ ", " \\end{array}\\ \\right|", args);
  }

  /** The literal pieces of the `\substituce` template hold no `#`. */
  lemma SubstitucePieces()
    ensures Literal("\\quad\\left| \\begin{array}{l} ") && Literal(" \\\\ ") &&
            Literal(" \\end{array}\\ \\right|")
  {
  }

  /** `\perpartes{u'}{u}{v}{v'}`: the four parts of an integration by parts in a table. */
  lemma PerpartesFills(args: seq<string>)
    requires |args| >= 4
    ensures Mask(PerpartesTemplate, args) ==
      Ok("\\quad\\bigg| \\begin{array}{ll}\n  u'=" + args[0] + " \\quad & u=" + args[1] + " \\\\\n  v=" + args[2] +
         " \\quad & v'=" + args[3] + "\n\\end{array} \\bigg|")
  {
    PerpartesPieces();
    MaskFillsFour("\\quad\\bigg| \\begin{array}{ll}\n  u'=", " \\quad & u=", " \\\\\n  v=", " \\quad & v'=", "\n\\end{array} \\bigg|", args);
  }

  /** The literal pieces of the `\perpartes` template hold no `#`. */
  lemma PerpartesPieces()
    ensures Literal("\\quad\\bigg| \\begin{array}{ll}\n  u'=") && Literal(" \\quad & u=") &&
            Literal(" \\\\\n  v=") && Literal(" \\quad & v'=") && Literal("\n\\end{array} \\bigg|")
  {
  }

  /** The catalog's `\mdet` fills its template with its argument. */
  lemma CatalogMdet(args: seq<string>)
    requires |args| >= 1
    ensures "mdet" in Catalog() &&
      Catalog()["mdet"].handler(args) == Ok("\\left|\\,\\begin{matrix} " + args[0] + " \\end{matrix}\\,\\right|")
  {
    MdetFills(args);
  }

  /** Expanding `\mdet{…}` with the catalog's macro: the group's text goes into the template
      and the tokens after the group are kept. */
  lemma MdetExpansion(c: Token, l: Token, body: seq<Token>, r: Token, rest: seq<Token>)
    requires Invokes("mdet", c)
    requires l.kind == BraceLeft && l.value == "{" && r.kind == BraceRight && r.value == "}"
    requires forall k :: 0 <= k < |body| ==> body[k].kind != BraceLeft && body[k].kind != BraceRight && !Invokes("mdet", body[k])
    requires forall k :: 0 <= k < |rest| ==> !Invokes("mdet", rest[k])
    ensures "mdet" in Catalog()
    ensures Expansion(Catalog()["mdet"], [c, l] + body + [r] + rest) ==
      Ok("\\left|\\,\\begin{matrix} " + Join(body) + " \\end{matrix}\\,\\right|" + Join(rest))
  {
    CatalogMdet([Join(body)]);
    CatalogFiledByName();
    var m := Catalog()["mdet"];
    assert m.name == "mdet" && m.argumentsCount == 1;
    OneArgumentInvocation(m, c, l, body, r, rest);
  }

  /** A renaming registered as a macro without arguments never fires in the expander: a formula
      that mentions `\Rbb` comes back unchanged whenever it can be scanned. */
  lemma CatalogRenameLeavesText(latex: string)
    ensures "Rbb" in Catalog()
    ensures Invocation(Catalog()["Rbb"], latex) ==
      if !Mentions(latex, "Rbb") || MacroLex(latex).Ok? then Ok(latex) else Err(TokenizerError)
  {
    CatalogRenameRbb([]);
    CatalogFiledByName();
    ZeroArityInvocation(Catalog()["Rbb"], latex);
  }
}
