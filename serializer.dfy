/** The parts of the MediaWiki serializer that compute strings: the wiki link of a `\ref`,
    the `ref`/`eqref` macro handler, and the dash conversion of text. */
module Serializer {
  import opened Wrappers
  import opened StringUtils
  import opened AstNode
  import opened AstCommand
  import opened AstSection
  import opened MacroExpansion
  import opened Configurator

  // Page names

  /** The character `strtr` puts in place of each character of a page name. */
  function UrlChar(c: char): char {
    if c == ' ' then '_' else if c == '\'' then '’' else c
  }

  /** The `$toUrl` closure: spaces become `_` and apostrophes become `’`, everything else is
      kept in place. */
  function ToUrl(s: string): (r: string)
    ensures |r| == |s|
    ensures ' ' !in r && '\'' !in r
    ensures forall i :: 0 <= i < |s| && s[i] != ' ' && s[i] != '\'' ==> r[i] == s[i]
    ensures forall i :: 0 <= i < |s| && s[i] == ' ' ==> r[i] == '_'
    ensures forall i :: 0 <= i < |s| && s[i] == '\'' ==> r[i] == '’'
    decreases |s|
  {
    if s == [] then [] else [UrlChar(s[0])] + ToUrl(s[1..])
  }

  /** The name of a Toc section or subsection: `getName()->getValue()`, which fails when the
      section has no name. A Toc section node without its begin command cannot be built by the
      parser; it fails the same way. */
  function TocName(s: Node): (r: Result<string>)
    ensures r.Ok? <==> HasBegin(s) && Name(s).Ok? && Name(s).value.Some?
    ensures r.Ok? ==> r.value == Name(s).value.value
    ensures r.Err? ==> r.error == NullValue
  {
    if !HasBegin(s) then Err(NullValue)
    else
      var name :- Name(s);
      if name.Some? then Ok(name.value) else Err(NullValue)
  }

  /** One level of the page path: `/` and the name made URL-safe, nothing when the level is
      missing. */
  function PageLevel(s: Option<Located>): (r: Result<string>)
    ensures s.None? ==> r == Ok("")
    ensures s.Some? ==> (r.Ok? <==> TocName(s.value.node).Ok?)
    ensures s.Some? && r.Ok? ==> r.value == "/" + ToUrl(TocName(s.value.node).value)
  {
    match s
    case None => Ok("")
    case Some(l) =>
      var name :- TocName(l.node);
      Ok("/" + ToUrl(name))
  }

  // Label lookup

  /** `getLabels()->filter(Label::filterByValue($caption))`: the labels named exactly
      `caption`, in document order. The filter reads every label's name, so one label without a
      name makes the lookup fail. */
  function MatchingLabels(ls: seq<Located>, caption: string): (r: Result<seq<Located>>)
    ensures r.Ok? <==> forall k :: 0 <= k < |ls| ==> LabelName(ls[k].node).Ok?
    ensures r.Err? ==> r.error == NullValue
    decreases |ls|
  {
    if ls == [] then Ok([])
    else
      var keep :- LabelFilterByValue([caption], ls[0].node);
      var rest :- MatchingLabels(ls[1..], caption);
      Ok(if keep then [ls[0]] + rest else rest)
  }

  /** The labels kept are exactly those named `caption`, and the first one kept has no label of
      that name before it. */
  lemma MatchingLabelsKeep(ls: seq<Located>, caption: string)
    requires MatchingLabels(ls, caption).Ok?
    ensures forall x :: x in MatchingLabels(ls, caption).value <==> x in ls && LabelName(x.node) == Ok(caption)
    ensures MatchingLabels(ls, caption).value != [] ==>
      exists j :: 0 <= j < |ls| && ls[j] == MatchingLabels(ls, caption).value[0] &&
        forall k :: 0 <= k < j ==> LabelName(ls[k].node) != Ok(caption)
  {
    MatchingLabelsMembers(ls, caption);
    MatchingLabelsFirst(ls, caption);
  }

  /** The labels kept are exactly those named `caption`. */
  lemma {:induction false} MatchingLabelsMembers(ls: seq<Located>, caption: string)
    requires MatchingLabels(ls, caption).Ok?
    ensures forall x :: x in MatchingLabels(ls, caption).value <==> x in ls && LabelName(x.node) == Ok(caption)
    decreases |ls|
  {
    if ls != [] {
      var rest := MatchingLabels(ls[1..], caption).value;
      MatchingLabelsMembers(ls[1..], caption);
      var keep := LabelName(ls[0].node) == Ok(caption);
      assert MatchingLabels(ls, caption).value == if keep then [ls[0]] + rest else rest;
      assert forall x :: x in ls <==> x == ls[0] || x in ls[1..];
    }
  }

  /** The first label kept has no label named `caption` before it. */
  lemma {:induction false} MatchingLabelsFirst(ls: seq<Located>, caption: string)
    requires MatchingLabels(ls, caption).Ok?
    ensures MatchingLabels(ls, caption).value != [] ==>
      exists j :: 0 <= j < |ls| && ls[j] == MatchingLabels(ls, caption).value[0] &&
        forall k :: 0 <= k < j ==> LabelName(ls[k].node) != Ok(caption)
    decreases |ls|
  {
    if ls != [] {
      var rest := MatchingLabels(ls[1..], caption).value;
      MatchingLabelsFirst(ls[1..], caption);
      var r := MatchingLabels(ls, caption).value;
      var keep := LabelName(ls[0].node) == Ok(caption);
      assert r == if keep then [ls[0]] + rest else rest;
      if r != [] {
        if keep {
          assert ls[0] == r[0];
        } else {
          var j :| 0 <= j < |ls[1..]| && ls[1..][j] == rest[0] && forall k :: 0 <= k < j ==> LabelName(ls[1..][k].node) != Ok(caption);
          assert ls[j + 1] == r[0];
          forall k | 0 <= k < j + 1 ensures LabelName(ls[k].node) != Ok(caption) {
            if k > 0 { assert ls[k] == ls[1..][k - 1]; }
          }
        }
      }
    }
  }

  /** `->first() ?: null`: the first label named `caption`, or none. */
  function FindLabel(ls: seq<Located>, caption: string): (r: Result<Option<Located>>)
    ensures r.Ok? <==> forall k :: 0 <= k < |ls| ==> LabelName(ls[k].node).Ok?
  {
    var m :- MatchingLabels(ls, caption);
    if m == [] then Ok(None) else Ok(Some(m[0]))
  }

  /** The label found is the first one of the document named exactly like the caption, and a
      lookup finds nothing only when no label has that name. */
  lemma FindLabelIsFirst(ls: seq<Located>, caption: string)
    requires FindLabel(ls, caption).Ok?
    ensures FindLabel(ls, caption).value.None? <==> forall k :: 0 <= k < |ls| ==> LabelName(ls[k].node) != Ok(caption)
    ensures FindLabel(ls, caption).value.Some? ==>
      var l := FindLabel(ls, caption).value.value;
      LabelName(l.node) == Ok(caption) &&
      exists j :: 0 <= j < |ls| && ls[j] == l && forall k :: 0 <= k < j ==> LabelName(ls[k].node) != Ok(caption)
  {
    var m := MatchingLabels(ls, caption).value;
    MatchingLabelsKeep(ls, caption);
    if m == [] {
      forall k | 0 <= k < |ls| ensures LabelName(ls[k].node) != Ok(caption) {
        assert ls[k] !in m;
      }
    } else {
      assert m[0] in m;
    }
  }

  // `commandRefToWikiLink`

  /** A wiki link and the label it points to. */
  datatype WikiLink = WikiLink(url: string, target: Located)

  /** The wiki page of a label's Toc section and subsection: `:MB102`, then each present
      level. */
  function Page(section: Option<Located>, subSection: Option<Located>): (r: Result<string>)
    ensures r.Ok? <==> PageLevel(section).Ok? && PageLevel(subSection).Ok?
    ensures r.Ok? ==> r.value == ":MB102" + PageLevel(section).value + PageLevel(subSection).value
  {
    var a :- PageLevel(section);
    var b :- PageLevel(subSection);
    Ok(":MB102" + a + b)
  }

  /** Labels of the types `S` and `SS` head a Toc section and link to its page alone. */
  predicate IsTocLabelType(t: string) { t == "S" || t == "SS" }

  /** `commandRefToWikiLink($caption)`: the wiki link of the first label named `caption`, none
      when there is no such label, and a failure for a label outside every Toc section.
      `webalize` is Nette's `Strings::webalize`, `other` the string form of nodes that are not
      text or commands. */
  function CommandRefToWikiLink(doc: Node, caption: string, webalize: string -> string, other: Node -> string): (r: Result<Option<WikiLink>>)
    ensures FindLabel(Labels(doc), caption).Err? ==> r.Err?
    ensures FindLabel(Labels(doc), caption) == Ok(None) ==> r == Ok(None)
    ensures r.Ok? && r.value.Some? ==> FindLabel(Labels(doc), caption) == Ok(Some(r.value.value.target))
  {
    var found :- FindLabel(Labels(doc), caption);
    match found
    case None => Ok(None)
    case Some(relevant) =>
      var section := TocSectionOf(relevant);
      var subSection := TocSubSectionOf(relevant);
      if section.None? && subSection.None? then Err(InvalidState)
      else
        var page :- Page(section, subSection);
        var kind :- LabelType(relevant.node, other);
        if IsTocLabelType(kind) then Ok(Some(WikiLink(page, relevant)))
        else
          var id :- CompleteLabelId(relevant, webalize);
          Ok(Some(WikiLink(page + "#" + id, relevant)))
  }

  /** The link found points to the document's first label named `caption`. */
  lemma WikiLinkTargetsFirstLabel(doc: Node, caption: string, webalize: string -> string, other: Node -> string)
    requires CommandRefToWikiLink(doc, caption, webalize, other).Ok?
    requires CommandRefToWikiLink(doc, caption, webalize, other).value.Some?
    ensures var l := CommandRefToWikiLink(doc, caption, webalize, other).value.value.target;
      l in Labels(doc) && LabelName(l.node) == Ok(caption) &&
      exists j :: 0 <= j < |Labels(doc)| && Labels(doc)[j] == l &&
        forall k :: 0 <= k < j ==> LabelName(Labels(doc)[k].node) != Ok(caption)
  {
    FindLabelIsFirst(Labels(doc), caption);
  }

  /** A label outside every Toc section and subsection has no page. */
  lemma WikiLinkNeedsToc(doc: Node, caption: string, webalize: string -> string, other: Node -> string, l: Located)
    requires FindLabel(Labels(doc), caption) == Ok(Some(l))
    requires forall k :: 0 <= k < |l.ancestors| ==> !IsTocSection(l.ancestors[k]) && !IsTocSubSection(l.ancestors[k])
    ensures CommandRefToWikiLink(doc, caption, webalize, other) == Err(InvalidState)
  {
  }

  /** The shapes of a link: the page, followed for labels that do not head a Toc section by `#`
      and the label's complete id; the page starts with `:MB102` and has no space and no
      apostrophe. */
  lemma WikiLinkShape(doc: Node, caption: string, webalize: string -> string, other: Node -> string)
    requires CommandRefToWikiLink(doc, caption, webalize, other).Ok?
    requires CommandRefToWikiLink(doc, caption, webalize, other).value.Some?
    ensures var w := CommandRefToWikiLink(doc, caption, webalize, other).value.value;
      var page := Page(TocSectionOf(w.target), TocSubSectionOf(w.target));
      page.Ok? && StartsWith(page.value, ":MB102") && ' ' !in page.value && '\'' !in page.value &&
      LabelType(w.target.node, other).Ok? &&
      (IsTocLabelType(LabelType(w.target.node, other).value) ==> w.url == page.value) &&
      (!IsTocLabelType(LabelType(w.target.node, other).value) ==>
        CompleteLabelId(w.target, webalize).Ok? && w.url == page.value + "#" + CompleteLabelId(w.target, webalize).value)
  {
    var w := CommandRefToWikiLink(doc, caption, webalize, other).value.value;
    PageIsSafe(TocSectionOf(w.target), TocSubSectionOf(w.target));
  }

  /** A page name starts with `:MB102` and holds no space and no apostrophe. */
  lemma PageIsSafe(section: Option<Located>, subSection: Option<Located>)
    requires Page(section, subSection).Ok?
    ensures StartsWith(Page(section, subSection).value, ":MB102")
    ensures ' ' !in Page(section, subSection).value && '\'' !in Page(section, subSection).value
  {
    var a, b := PageLevel(section).value, PageLevel(subSection).value;
    var p := ":MB102" + a + b;
    assert p[..6] == ":MB102";
    forall i | 0 <= i < |p| ensures p[i] != ' ' && p[i] != '\'' {
      if 6 <= i < 6 + |a| {
        assert p[i] == a[i - 6];
        if section.Some? { assert a[i - 6] in a; }
      } else if 6 + |a| <= i {
        assert p[i] == b[i - 6 - |a|];
        if subSection.Some? { assert b[i - 6 - |a|] in b; }
      }
    }
  }

  // The `ref` and `eqref` handler

  /** The handler the serializer registers for `ref` and `eqref`: `\wikiref{link}` for a label
      that is found, nothing for one that is not. The argument is declared `string`, so a call
      without one fails. */
  function RefHandler(doc: Node, webalize: string -> string, other: Node -> string, args: seq<string>): (r: Result<string>)
    ensures args == [] ==> r == Err(NullValue)
    ensures args != [] && CommandRefToWikiLink(doc, args[0], webalize, other) == Ok(None) ==> r == Ok("")
    ensures (args != [] && CommandRefToWikiLink(doc, args[0], webalize, other).Ok? &&
             CommandRefToWikiLink(doc, args[0], webalize, other).value.Some?) ==>
      r == Ok("\\wikiref{" + CommandRefToWikiLink(doc, args[0], webalize, other).value.value.url + "}")
    ensures args != [] && CommandRefToWikiLink(doc, args[0], webalize, other).Err? ==> r.Err?
  {
    if args == [] then Err(NullValue)
    else
      var link :- CommandRefToWikiLink(doc, args[0], webalize, other);
      match link
      case None => Ok("")
      case Some(w) => Ok("\\wikiref{" + w.url + "}")
  }

  /** `RefHandler` as a handler value for one document. */
  function RefHandlerFor(doc: Node, webalize: string -> string, other: Node -> string): seq<string> -> Result<string> {
    args => RefHandler(doc, webalize, other, args)
  }

  /** The macros of a serializer: the catalog with `ref` and `eqref` resolved to wiki links. */
  function SerializerMacros(doc: Node, webalize: string -> string, other: Node -> string): (r: map<string, Macro>)
    ensures r.Keys == Catalog().Keys + {"ref", "eqref"}
    ensures r["ref"].argumentsCount == 1 && r["eqref"].argumentsCount == 1
  {
    Catalog()
      ["ref" := Macro("ref", 1, RefHandlerFor(doc, webalize, other))]
      ["eqref" := Macro("eqref", 1, RefHandlerFor(doc, webalize, other))]
  }

  /** `Serializer`'s macro set-up. The handler reads the document being converted; here that
      document is given when the serializer is made. */
  class MacroSetup {
    var macrosExpansion: MacroRegistry

    constructor (doc: Node, webalize: string -> string, other: Node -> string)
      ensures fresh(macrosExpansion)
      ensures macrosExpansion.macros == SerializerMacros(doc, webalize, other)
    {
      var registry := MacroRegistry.ConfigureMB102();
      registry.AddMacroHandler("ref", 1, RefHandlerFor(doc, webalize, other));
      registry.AddMacroHandler("eqref", 1, RefHandlerFor(doc, webalize, other));
      macrosExpansion := registry;
    }
  }

  /** The serializer's `ref` and `eqref` take one argument and share the link handler; every
      other catalog macro is kept. */
  lemma SerializerRefs(doc: Node, webalize: string -> string, other: Node -> string, args: seq<string>)
    ensures var ms := SerializerMacros(doc, webalize, other);
      "ref" in ms && "eqref" in ms && ms["ref"].argumentsCount == 1 && ms["eqref"].argumentsCount == 1 &&
      ms["ref"].handler(args) == RefHandler(doc, webalize, other, args) &&
      ms["eqref"].handler(args) == RefHandler(doc, webalize, other, args)
    ensures forall x :: x in Catalog() && x != "ref" && x != "eqref" ==>
      x in SerializerMacros(doc, webalize, other) && SerializerMacros(doc, webalize, other)[x] == Catalog()[x]
  {
  }

  // `convertText`

  /** `convertText`: every `--`, scanned left to right, becomes `&ndash;`. */
  function ConvertText(s: string): (r: string)
    ensures StartsWith(s, "--") ==> StartsWith(r, "&ndash;")
    ensures !HasDoubleDash(s) ==> r == s
  {
    ReplacePair(s, '-', '-', "&ndash;")
  }

  predicate HasDoubleDash(s: string) {
    exists i :: 0 <= i < |s| - 1 && s[i] == '-' && s[i + 1] == '-'
  }

  /** The first character of the conversion: `&` where the text starts with `--`, the text's own
      first character otherwise. */
  lemma ConvertTextFirst(s: string)
    requires s != []
    ensures ConvertText(s) != []
    ensures ConvertText(s)[0] == if |s| >= 2 && s[0] == '-' && s[1] == '-' then '&' else s[0]
  {
  }

  /** No `--` is left after the conversion: a dash that remains is followed by something else. */
  lemma {:induction false} ConvertTextRemovesDoubleDashes(s: string)
    ensures !HasDoubleDash(ConvertText(s))
    decreases |s|
  {
    if |s| >= 2 {
      var r := ConvertText(s);
      if s[0] == '-' && s[1] == '-' {
        var rest := ConvertText(s[2..]);
        ConvertTextRemovesDoubleDashes(s[2..]);
        assert r == "&ndash;" + rest;
        forall i | 0 <= i < |r| - 1 ensures !(r[i] == '-' && r[i + 1] == '-') {
          if i >= 7 { assert r[i] == rest[i - 7] && r[i + 1] == rest[i - 6]; }
        }
      } else {
        var rest := ConvertText(s[1..]);
        ConvertTextRemovesDoubleDashes(s[1..]);
        ConvertTextFirst(s[1..]);
        assert r == [s[0]] + rest;
        forall i | 0 <= i < |r| - 1 ensures !(r[i] == '-' && r[i + 1] == '-') {
          if i >= 1 { assert r[i] == rest[i - 1] && r[i + 1] == rest[i]; }
        }
      }
    }
  }

  /** At the first `--` the text before it is kept, that `--` becomes `&ndash;`, and the rest is
      converted in turn: with `ConvertText`'s dash-free case this pins the whole result. */
  lemma ConvertTextSplit(a: string, b: string)
    requires NoNeedleBefore(a, '-', '-')
    ensures ConvertText(a + "--" + b) == a + "&ndash;" + ConvertText(b)
  {
    ReplacePairSplit(a, b, '-', '-', "&ndash;");
  }

  /** A double dash between digits becomes an en dash. */
  lemma ConvertTextExample()
    ensures ConvertText("1--2") == "1&ndash;2"
  {
    assert "1--2"[1..] == "--2";
    assert "--2"[2..] == "2";
  }
}
