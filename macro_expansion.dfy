/** LatexMacroExpansion.php: the expander of one named macro inside a formula string. Its own
    scanner cuts the string into commands, braces, backslash runs, whitespace and other runs;
    `expand` walks the tokens, captures the brace groups after an invocation, expands each
    group's tokens recursively, calls the handler and splices one `replacement` token over the
    invocation. */
module MacroExpansion {
  import opened Wrappers
  import opened Tokens
  import opened StringUtils
  import opened Scanner
  import opened TokenStream
  import opened Tokenizer

  // The scanner of `tokenize`

  /** `[\n\r\t ]`. */
  predicate IsMacroSpace(c: char) { c == '\n' || c == '\r' || c == '\t' || c == ' ' }

  /** `[^{}\\\s]`. */
  predicate IsOtherChar(c: char) { c != '{' && c != '}' && c != '\\' && !IsPcreSpace(c) }

  /** The rules of the expander's scanner in the order they are tried: `command`
      (a backslash not after a backslash, then letters or digits of either case), `brace_left`,
      `brace_right`, `backslash` runs, `whitespace` runs and `other` runs. */
  function MacroRules(s: string, i: nat): (r: (TokenType, nat))
    ensures r.1 == 0 || i + r.1 <= |s|
  {
    if CommandLength(s, i) > 0 then (Command, CommandLength(s, i))
    else if i < |s| && s[i] == '{' then (BraceLeft, 1)
    else if i < |s| && s[i] == '}' then (BraceRight, 1)
    else if Run(s, i, IsBackslash) > 0 then (Backslash, Run(s, i, IsBackslash))
    else if Run(s, i, IsMacroSpace) > 0 then (Whitespace, Run(s, i, IsMacroSpace))
    else (Other, Run(s, i, IsOtherChar))
  }

  function MacroLex(s: string): Result<seq<Token>> {
    Lex(MacroRules, s)
  }

  /** The two characters no rule of the expander's scanner accepts: `\s` holds them, the
      `whitespace` rule does not. */
  predicate IsUnscannable(c: char) { c == '\U{B}' || c == '\U{C}' }

  /** A token of the expander's scanner: braces are the single characters `{` and `}`, a
      command is a backslash and a maximal run of letters and digits, and no token holds a
      vertical tab or a form feed. */
  predicate MacroToken(s: string, t: Token) {
    && 0 <= t.offset && t.offset + |t.value| <= |s| && s[t.offset..t.offset + |t.value|] == t.value
    && (t.kind == BraceLeft ==> t.value == "{")
    && (t.kind == BraceRight ==> t.value == "}")
    && (t.kind == Command ==>
         && |t.value| >= 2 && t.value[0] == '\\'
         && (forall k :: 1 <= k < |t.value| ==> IsAsciiAlnum(t.value[k]))
         && (t.offset + |t.value| == |s| || !IsAsciiAlnum(s[t.offset + |t.value|])))
    && (forall k :: 0 <= k < |t.value| ==> !IsUnscannable(t.value[k]))
  }

  lemma ScannedIsMacroToken(s: string, t: Token)
    requires Scanned(MacroRules, s, t)
    ensures MacroToken(s, t)
  {
    var i := t.offset;
    var r := MacroRules(s, i);
    assert t == Token(r.0, s[i..i + r.1], i, None);
    RuleIsMacroToken(s, i, r.0, r.1);
  }

  /** What each rule of the expander's scanner matches is a token of the expander. */
  lemma RuleIsMacroToken(s: string, i: nat, kind: TokenType, n: nat)
    requires i < |s| && (kind, n) == MacroRules(s, i) && 0 < n
    ensures MacroToken(s, Token(kind, s[i..i + n], i, None))
  {
    if CommandLength(s, i) > 0 {
      CommandToken(s, i, s[i..i + n]);
    } else if s[i] == '{' || s[i] == '}' {
      BraceIsMacroToken(s, i, kind, n);
    } else {
      ScannedRunIsMacroToken(s, i, kind, n);
    }
  }

  /** A brace is a token of its own. */
  lemma BraceIsMacroToken(s: string, i: nat, kind: TokenType, n: nat)
    requires i < |s| && CommandLength(s, i) == 0 && (s[i] == '{' || s[i] == '}')
    requires (kind, n) == MacroRules(s, i)
    ensures MacroToken(s, Token(kind, s[i..i + n], i, None))
  {
    assert s[i..i + n] == [s[i]];
  }

  /** The tokens of the rules after the command and brace rules are runs. */
  lemma ScannedRunIsMacroToken(s: string, i: nat, kind: TokenType, n: nat)
    requires i < |s| && CommandLength(s, i) == 0 && s[i] != '{' && s[i] != '}'
    requires (kind, n) == MacroRules(s, i) && 0 < n
    ensures MacroToken(s, Token(kind, s[i..i + n], i, None))
  {
    if Run(s, i, IsBackslash) > 0 {
      RunIsMacroToken(s, i, n, Backslash, IsBackslash);
    } else if Run(s, i, IsMacroSpace) > 0 {
      RunIsMacroToken(s, i, n, Whitespace, IsMacroSpace);
    } else {
      RunIsMacroToken(s, i, n, Other, IsOtherChar);
    }
  }

  /** A run of characters that are neither a vertical tab nor a form feed, typed other than a
      brace or a command. */
  lemma RunIsMacroToken(s: string, i: nat, n: nat, kind: TokenType, p: char -> bool)
    requires i + n <= |s| && forall k :: i <= k < i + n ==> p(s[k])
    requires kind != BraceLeft && kind != BraceRight && kind != Command
    requires forall c :: p(c) ==> !IsUnscannable(c)
    ensures MacroToken(s, Token(kind, s[i..i + n], i, None))
  {
    RunToken(s, i, s[i..i + n], p);
  }

  /** The characters of a run are those the run's predicate holds of. */
  lemma RunToken(s: string, i: nat, v: string, p: char -> bool)
    requires i + |v| <= |s| && v == s[i..i + |v|]
    requires forall k :: i <= k < i + |v| ==> p(s[k])
    ensures forall k :: 0 <= k < |v| ==> p(v[k])
  {
    forall k | 0 <= k < |v| ensures p(v[k]) {
      assert v[k] == s[i + k];
    }
  }

  /** A command match is a backslash and a maximal run of letters and digits. */
  lemma CommandToken(s: string, i: nat, v: string)
    requires CommandLength(s, i) > 0 && v == s[i..i + CommandLength(s, i)]
    ensures |v| >= 2 && v[0] == '\\'
    ensures forall k :: 1 <= k < |v| ==> IsAsciiAlnum(v[k])
    ensures i + |v| == |s| || !IsAsciiAlnum(s[i + |v|])
    ensures forall k :: 0 <= k < |v| ==> !IsUnscannable(v[k])
  {
    var n := |v|;
    assert n == Run(s, i + 1, IsAsciiAlnum) + 1;
    RunToken(s, i + 1, v[1..], IsAsciiAlnum);
    forall k | 1 <= k < n ensures IsAsciiAlnum(v[k]) {
      assert v[k] == v[1..][k - 1];
    }
  }

  /** The scanner fails exactly on a string holding a vertical tab or a form feed; otherwise its
      tokens give back the string and each is a well-formed token of its type. */
  lemma MacroLexShape(s: string)
    ensures MacroLex(s).Ok? <==> forall k :: 0 <= k < |s| ==> !IsUnscannable(s[k])
    ensures MacroLex(s).Ok? ==> Join(MacroLex(s).value) == s
    ensures MacroLex(s).Ok? ==> forall t :: t in MacroLex(s).value ==> MacroToken(s, t)
  {
    if forall k :: 0 <= k < |s| ==> !IsUnscannable(s[k]) {
      MacroRulesTotal(s);
      LexTotal(MacroRules, s, 0);
    }
    if MacroLex(s).Ok? {
      LexPartitions(MacroRules, s, 0);
      MacroLexTokens(s);
      MacroLexScannable(s);
    }
  }

  /** Every character but a vertical tab or a form feed starts a token. */
  lemma MacroRulesTotal(s: string)
    requires forall k :: 0 <= k < |s| ==> !IsUnscannable(s[k])
    ensures forall k :: 0 <= k < |s| ==> 0 < MacroRules(s, k).1 && k + MacroRules(s, k).1 <= |s|
  {
    forall k | 0 <= k < |s| ensures 0 < MacroRules(s, k).1 && k + MacroRules(s, k).1 <= |s| {
      if CommandLength(s, k) == 0 && s[k] != '{' && s[k] != '}' && Run(s, k, IsBackslash) == 0 &&
         Run(s, k, IsMacroSpace) == 0 {
        assert IsOtherChar(s[k]);
      }
    }
  }

  lemma MacroLexTokens(s: string)
    requires MacroLex(s).Ok?
    ensures forall t :: t in MacroLex(s).value ==> MacroToken(s, t)
  {
    LexTokens(MacroRules, s, 0);
    forall t | t in MacroLex(s).value ensures MacroToken(s, t) {
      ScannedIsMacroToken(s, t);
    }
  }

  /** A string the scanner accepts holds neither a vertical tab nor a form feed. */
  lemma MacroLexScannable(s: string)
    requires MacroLex(s).Ok?
    ensures forall k :: 0 <= k < |s| ==> !IsUnscannable(s[k])
  {
    var ts := MacroLex(s).value;
    LexPartitions(MacroRules, s, 0);
    MacroLexTokens(s);
    forall k | 0 <= k < |s| ensures !IsUnscannable(s[k]) {
      var j := JoinLocate(ts, k);
      assert ts[j] in ts;
      TokenCharScannable(s, ts[j], k);
    }
  }

  lemma TokenCharScannable(s: string, t: Token, k: int)
    requires MacroToken(s, t) && t.offset <= k < t.offset + |t.value|
    ensures !IsUnscannable(s[k])
  {
    assert t.value[k - t.offset] == s[k];
  }

  /** A position of a concatenation lies inside one of the tokens, at its offset into the join. */
  lemma {:induction false} JoinLocate(ts: seq<Token>, k: nat) returns (j: nat)
    requires k < |Join(ts)|
    ensures j < |ts|
    ensures |Join(ts[..j])| <= k < |Join(ts[..j])| + |ts[j].value|
    decreases |ts|
  {
    var init := ts[..|ts| - 1];
    assert Join(ts) == Join(init) + ts[|ts| - 1].value;
    if k < |Join(init)| {
      j := JoinLocate(init, k);
      assert ts[..j] == init[..j];
    } else {
      j := |ts| - 1;
    }
  }

  // The state machine of `expand`

  /** One macro: its name, the number of brace groups it takes and its handler. */
  datatype Macro = Macro(name: string, argumentsCount: int, handler: seq<string> -> Result<string>)

  /** The locals of `expand`: `$begin` (the invocation's position, false when none),
      `$argumentBegin` (the first token of the group being captured), the `$braces` stack and
      the `$arguments` captured so far. */
  datatype Capture = Capture(begin: Option<int>, argumentBegin: Option<int>, braces: seq<string>, arguments: seq<string>)

  const Idle: Capture := Capture(None, None, [], [])

  /** A token that starts an invocation: a command whose value is `\` and the name. */
  predicate Invokes(name: string, t: Token) {
    t.kind == Command && t.value == "\\" + name
  }

  predicate Consistent(position: int, st: Capture) {
    (st.begin.Some? ==> 0 <= st.begin.value <= position) &&
    (st.argumentBegin.Some? ==> 0 <= st.argumentBegin.value <= position + 1)
  }

  /** `array_merge(array_slice($tokens, 0, $begin), [replacement], array_slice($tokens, $end + 1))`:
      the tokens `begin..end` become one `replacement` token; the tokens before are kept in
      place, those after shift left, and the text is the text around the span with the
      replacement between. */
  function Splice(ts: seq<Token>, begin: nat, end: nat, value: string): (r: seq<Token>)
    requires begin <= end < |ts|
    ensures |r| == |ts| - (end - begin)
    ensures forall k :: 0 <= k < begin ==> r[k] == ts[k]
    ensures r[begin] == Token(Replacement, value, -1, None)
    ensures forall k :: end < k < |ts| ==> r[k - (end - begin)] == ts[k]
    ensures Join(r) == Join(ts[..begin]) + value + Join(ts[end + 1..])
  {
    var r := ts[..begin] + [Token(Replacement, value, -1, None)] + ts[end + 1..];
    JoinAppend(ts[..begin] + [Token(Replacement, value, -1, None)], ts[end + 1..]);
    JoinAppend(ts[..begin], [Token(Replacement, value, -1, None)]);
    JoinOne(Token(Replacement, value, -1, None));
    r
  }

  /** `expand($stream)` from the state after the token at `position`: the result of the walk.
      Without an invocation a command naming the macro starts one; inside one a `{` opens a
      group and a `}` closes one; every other token is passed over. */
  function ExpandFrom(m: Macro, ts: seq<Token>, position: int, st: Capture): Result<string>
    requires -1 <= position <= |ts| && Consistent(position, st)
    decreases |ts|, 0, |ts| - position, 3
  {
    if position + 1 >= |ts| then Ok(Join(ts))
    else
      var p := position + 1;
      if st.begin.None? then ExpandFrom(m, ts, p, Seen(m.name, ts[p], p, st))
      else if ts[p].kind == BraceLeft then ExpandFrom(m, ts, p, Opened(ts[p], p, st))
      else if ts[p].kind == BraceRight then CloseGroup(m, ts, p, st)
      else ExpandFrom(m, ts, p, st)
  }

  /** Outside an invocation: a command naming the macro records its position. */
  function Seen(name: string, t: Token, p: int, st: Capture): (r: Capture)
    requires st.begin.None?
    ensures r.braces == st.braces && r.arguments == st.arguments
    ensures Invokes(name, t) ==> r.begin == Some(p) && r.argumentBegin.None?
    ensures !Invokes(name, t) ==> r == st
  {
    if Invokes(name, t) then st.(begin := Some(p), argumentBegin := None) else st
  }

  /** A `{` is pushed; the first one marks where the argument's tokens begin. */
  function Opened(t: Token, p: int, st: Capture): (r: Capture)
    ensures r.braces == st.braces + [t.value] && r.begin == st.begin && r.arguments == st.arguments
    ensures r.argumentBegin == if st.braces == [] then Some(p + 1) else st.argumentBegin
  {
    var braces := st.braces + [t.value];
    st.(braces := braces, argumentBegin := if |braces| == 1 then Some(p + 1) else st.argumentBegin)
  }

  /** A `}` at position `p` inside an invocation: the popped opener must match; a `}` that
      leaves a group open is passed over, one that closes the outermost group ends an
      argument. */
  function CloseGroup(m: Macro, ts: seq<Token>, p: int, st: Capture): Result<string>
    requires 0 <= p < |ts| && st.begin.Some? && Consistent(p - 1, st)
    decreases |ts|, 0, |ts| - p + 1, 2
  {
    var pair := if st.braces == [] then None else Some(st.braces[|st.braces| - 1]);
    var braces := if st.braces == [] then [] else st.braces[..|st.braces| - 1];
    if (pair == Some("{") && ts[p].value != "}") || (pair == Some("[") && ts[p].value != "]") then Err(BracesDoNotMatch)
    else if braces != [] then ExpandFrom(m, ts, p, st.(braces := braces))
    else CloseArgument(m, ts, p, st)
  }

  /** The group's tokens, from the one after its `{` to the one before its `}`, are expanded on
      their own and kept as the next argument. */
  function CloseArgument(m: Macro, ts: seq<Token>, p: int, st: Capture): Result<string>
    requires 0 <= p < |ts| && st.begin.Some? && Consistent(p - 1, st)
    decreases |ts|, 0, |ts| - p + 1, 1
  {
    // PHP reads `$argumentBegin = false` as offset 0
    var from := if st.argumentBegin.Some? then st.argumentBegin.value else 0;
    var argument :- Expansion(m, ArraySlice(ts, from, p - from));
    Complete(m, ts, p, st.begin.value, st.arguments + [argument])
  }

  /** With the last argument the handler's result is spliced over the tokens `begin..p` and the
      walk goes on after the replacement; with fewer, the capture goes on. */
  function Complete(m: Macro, ts: seq<Token>, p: int, begin: int, arguments: seq<string>): Result<string>
    requires 0 <= begin < p < |ts|
    decreases |ts|, 0, |ts| - p + 1, 0
  {
    if |arguments| == m.argumentsCount then
      var replacement :- m.handler(arguments);
      ExpandFrom(m, Splice(ts, begin, p, replacement), begin, Idle)
    else ExpandFrom(m, ts, p, Capture(Some(begin), None, [], arguments))
  }

  /** `expand` of a fresh cursor. */
  function Expansion(m: Macro, ts: seq<Token>): Result<string>
    decreases |ts|, 1, 0, 0
  {
    ExpandFrom(m, ts, -1, Idle)
  }

  /** The pattern of the pre-check in `__invoke`: `\` and the name, not followed by a letter or
      a digit. */
  predicate Mentions(latex: string, name: string) {
    exists i :: 0 <= i <= |latex| && MentionAt(latex, name, i)
  }

  predicate MentionAt(latex: string, name: string, i: nat) {
    i + |name| + 1 <= |latex| && latex[i..i + |name| + 1] == "\\" + name &&
    (i + |name| + 1 == |latex| || !IsAsciiAlnum(latex[i + |name| + 1]))
  }

  /** `__invoke($latex)`: the text unchanged when the pre-check finds no mention, else the
      expansion of its tokens. */
  function Invocation(m: Macro, latex: string): (r: Result<string>)
    ensures !Mentions(latex, m.name) ==> r == Ok(latex)
    ensures Mentions(latex, m.name) && MacroLex(latex).Err? ==> r == Err(TokenizerError)
  {
    if !Mentions(latex, m.name) then Ok(latex)
    else
      var ts :- MacroLex(latex);
      Expansion(m, ts)
  }

  // The class

  /** `LatexMacroExpansion`: one macro with its name, its number of brace groups and its
      handler, applied to a formula by `__invoke`. */
  class LatexMacroExpansion {
    const name: string
    const argumentsCount: int
    const handler: seq<string> -> Result<string>

    constructor (name: string, argumentsCount: int, handler: seq<string> -> Result<string>)
      ensures this.name == name && this.argumentsCount == argumentsCount && this.handler == handler
    {
      this.name := name;
      this.argumentsCount := argumentsCount;
      this.handler := handler;
    }

    function Definition(): Macro {
      Macro(name, argumentsCount, handler)
    }

    /** `__invoke($latex)`. */
    method Invoke(latex: string) returns (r: Result<string>)
      ensures r == Invocation(Definition(), latex)
    {
      if !Mentions(latex, name) {
        return Ok(latex);
      }
      var stream :- Tokenize(latex);
      r := Expand(stream);
    }

    /** `tokenize($latex)`: a fresh cursor over the scanner's tokens. */
    static method Tokenize(latex: string) returns (r: Result<TokenIterator>)
      ensures r.Err? <==> MacroLex(latex).Err?
      ensures r.Err? ==> r.error == TokenizerError
      ensures r.Ok? ==> fresh(r.value) && r.value.Valid() && r.value.tokens == MacroLex(latex).value && r.value.position == -1
    {
      var ts := MacroLex(latex);
      if ts.Err? {
        return Err(ts.error);
      }
      var stream := new TokenIterator(ts.value);
      r := Ok(stream);
    }

    /** `expand($stream)`: the walk over the cursor's tokens, which are rewritten in place as
        invocations are replaced; the result is the text of the final tokens. The locals
        `$begin`, `$argumentBegin`, `$braces` and `$arguments` are kept together in `st`. */
    method Expand(stream: TokenIterator) returns (r: Result<string>)
      requires stream.Valid()
      modifies stream
      ensures r == ExpandFrom(Definition(), old(stream.tokens), old(stream.position), Idle)
      decreases |stream.tokens|, 4
    {
      var st := Idle;
      ghost var goal := ExpandFrom(Definition(), stream.tokens, stream.position, st);
      while true
        invariant stream.Valid() && |stream.tokens| <= old(|stream.tokens|)
        invariant Consistent(stream.position, st)
        invariant goal == ExpandFrom(Definition(), stream.tokens, stream.position, st)
        decreases |stream.tokens|, |stream.tokens| - stream.position
      {
        var token := stream.NextToken();
        if token.None? {
          assert goal == Ok(Join(stream.tokens));
          break;
        }
        var stop;
        st, stop := Step(stream, st, token.value);
        if stop.Some? {
          return stop.value;
        }
      }
      var text := StreamToString(stream);
      r := Ok(text);
    }

    /** One pass of the loop of `expand` on the token `t` just read: outside an invocation a
        command naming the macro starts one; inside one a `{` is pushed (the first marking where
        the argument begins) and a `}` closes a group; any other token is passed over. */
    method Step(stream: TokenIterator, st: Capture, t: Token) returns (next: Capture, stop: Option<Result<string>>)
      requires stream.Valid() && 0 <= stream.position < |stream.tokens| && t == stream.tokens[stream.position]
      requires Consistent(stream.position - 1, st)
      modifies stream
      ensures stream.Valid() && |stream.tokens| <= old(|stream.tokens|)
      ensures |stream.tokens| < old(|stream.tokens|) || (stream.tokens == old(stream.tokens) && stream.position == old(stream.position))
      ensures stop.Some? ==> stop.value == ExpandFrom(Definition(), old(stream.tokens), old(stream.position) - 1, st)
      ensures stop.None? ==> (Consistent(stream.position, next) &&
        ExpandFrom(Definition(), old(stream.tokens), old(stream.position) - 1, st) == ExpandFrom(Definition(), stream.tokens, stream.position, next))
      decreases |stream.tokens|, 3
    {
      var p := stream.position;
      next, stop := st, None;
      if st.begin.None? {
        if t.kind == Command && stream.CurrentValue() == Some("\\" + name) {
          next := st.(begin := Some(p), argumentBegin := None);
        }
      } else if t.kind == BraceLeft {
        var braces := st.braces + [t.value];
        next := st.(braces := braces, argumentBegin := if |braces| == 1 then Some(p + 1) else st.argumentBegin);
      } else if t.kind == BraceRight {
        next, stop := CloseGroupAt(stream, st);
      }
    }

    /** A `}` at the cursor inside an invocation: a mismatched opener fails; a `}` that leaves a
        group open is passed over; one that closes the outermost group expands the group's
        tokens on a fresh cursor and keeps the result as the next argument. */
    method CloseGroupAt(stream: TokenIterator, st: Capture) returns (next: Capture, stop: Option<Result<string>>)
      requires stream.Valid() && 0 <= stream.position < |stream.tokens| && st.begin.Some?
      requires Consistent(stream.position - 1, st)
      modifies stream
      ensures stream.Valid() && |stream.tokens| <= old(|stream.tokens|)
      ensures |stream.tokens| < old(|stream.tokens|) || (stream.tokens == old(stream.tokens) && stream.position == old(stream.position))
      ensures stop.Some? ==> stop.value == CloseGroup(Definition(), old(stream.tokens), old(stream.position), st)
      ensures stop.None? ==> (Consistent(stream.position, next) &&
        CloseGroup(Definition(), old(stream.tokens), old(stream.position), st) == ExpandFrom(Definition(), stream.tokens, stream.position, next))
      decreases |stream.tokens|, 2
    {
      var p := stream.position;
      var t := stream.tokens[p];
      var pair := if st.braces == [] then None else Some(st.braces[|st.braces| - 1]);
      var braces := if st.braces == [] then [] else st.braces[..|st.braces| - 1];
      if (pair == Some("{") && t.value != "}") || (pair == Some("[") && t.value != "]") {
        return st, Some(Err(BracesDoNotMatch));
      }
      if braces != [] {
        return st.(braces := braces), None;
      }
      assert CloseGroup(Definition(), stream.tokens, p, st) == CloseArgument(Definition(), stream.tokens, p, st);
      next, stop := CloseArgumentAt(stream, st);
    }

    /** The `}` closing the outermost group: the group's tokens are expanded on a fresh cursor
        and the result is kept as the next argument. */
    method CloseArgumentAt(stream: TokenIterator, st: Capture) returns (next: Capture, stop: Option<Result<string>>)
      requires stream.Valid() && 0 <= stream.position < |stream.tokens| && st.begin.Some?
      requires Consistent(stream.position - 1, st)
      modifies stream
      ensures stream.Valid() && |stream.tokens| <= old(|stream.tokens|)
      ensures |stream.tokens| < old(|stream.tokens|) || (stream.tokens == old(stream.tokens) && stream.position == old(stream.position))
      ensures stop.Some? ==> stop.value == CloseArgument(Definition(), old(stream.tokens), old(stream.position), st)
      ensures stop.None? ==> (Consistent(stream.position, next) &&
        CloseArgument(Definition(), old(stream.tokens), old(stream.position), st) == ExpandFrom(Definition(), stream.tokens, stream.position, next))
      decreases |stream.tokens|, 1
    {
      var p := stream.position;
      var from := if st.argumentBegin.Some? then st.argumentBegin.value else 0;
      var argument := ExpandGroup(stream, from, p);
      if argument.Err? {
        return st, Some(Err(argument.error));
      }
      assert CloseArgument(Definition(), stream.tokens, p, st) ==
        Complete(Definition(), stream.tokens, p, st.begin.value, st.arguments + [argument.value]);
      next, stop := CompleteAt(stream, st.begin.value, st.arguments + [argument.value]);
    }

    /** The tokens `from..p` of a group, expanded on a fresh cursor. */
    method ExpandGroup(stream: TokenIterator, from: int, p: int) returns (r: Result<string>)
      requires stream.Valid() && 0 <= from <= p < |stream.tokens|
      ensures r == Expansion(Definition(), ArraySlice(stream.tokens, from, p - from))
      decreases |stream.tokens|, 0
    {
      var inner := stream.Slice(from, p - from);
      r := Expand(inner);
    }

    /** With the last argument the handler's result replaces the invocation's tokens and the
        cursor is put back on the replacement; with fewer, the capture goes on. */
    method CompleteAt(stream: TokenIterator, begin: int, arguments: seq<string>) returns (next: Capture, stop: Option<Result<string>>)
      requires stream.Valid() && 0 <= begin < stream.position < |stream.tokens|
      modifies stream
      ensures stream.Valid() && |stream.tokens| <= old(|stream.tokens|)
      ensures |stream.tokens| < old(|stream.tokens|) || (stream.tokens == old(stream.tokens) && stream.position == old(stream.position))
      ensures stop.Some? ==> stop.value == Complete(Definition(), old(stream.tokens), old(stream.position), begin, arguments)
      ensures stop.None? ==> (Consistent(stream.position, next) &&
        Complete(Definition(), old(stream.tokens), old(stream.position), begin, arguments) == ExpandFrom(Definition(), stream.tokens, stream.position, next))
    {
      var p := stream.position;
      if |arguments| != argumentsCount {
        return Capture(Some(begin), None, [], arguments), None;
      }
      var replacement := handler(arguments);
      if replacement.Err? {
        return Idle, Some(Err(replacement.error));
      }
      stream.tokens := Splice(stream.tokens, begin, p, replacement.value);
      stream.position := begin;
      next, stop := Idle, None;
    }

    /** `streamToString($stream)`: the values of the tokens, concatenated in order. */
    static method StreamToString(stream: TokenIterator) returns (s: string)
      ensures s == Join(stream.tokens)
    {
      s := "";
      for i := 0 to |stream.tokens|
        invariant s == Join(stream.tokens[..i])
      {
        assert stream.tokens[..i + 1][..i] == stream.tokens[..i];
        s := s + stream.tokens[i].value;
      }
      assert stream.tokens[..|stream.tokens|] == stream.tokens;
    }
  }

  // Properties of the walk

  /** Without an invocation ahead, the walk keeps every token: the result is their text. */
  lemma {:induction false} NoInvocationKeepsText(m: Macro, ts: seq<Token>, position: int)
    requires -1 <= position <= |ts|
    requires forall k :: position < k < |ts| ==> !Invokes(m.name, ts[k])
    ensures ExpandFrom(m, ts, position, Idle) == Ok(Join(ts))
    decreases |ts| - position
  {
    if position + 1 < |ts| {
      NoInvocationKeepsText(m, ts, position + 1);
    }
  }

  /** An invocation whose groups never close leaves the text as it is: with no `}` ahead,
      nothing is captured and nothing is spliced. */
  lemma {:induction false} UnclosedKeepsText(m: Macro, ts: seq<Token>, position: int, st: Capture)
    requires -1 <= position <= |ts| && Consistent(position, st) && st.begin.Some?
    requires forall k :: position < k < |ts| ==> ts[k].kind != BraceRight
    ensures ExpandFrom(m, ts, position, st) == Ok(Join(ts))
    decreases |ts| - position
  {
    if position + 1 < |ts| {
      var p := position + 1;
      if ts[p].kind == BraceLeft {
        var braces := st.braces + [ts[p].value];
        UnclosedKeepsText(m, ts, p, st.(braces := braces, argumentBegin := if |braces| == 1 then Some(p + 1) else st.argumentBegin));
      } else {
        UnclosedKeepsText(m, ts, p, st);
      }
    }
  }

  /** The first token the walk may still replace: the invocation being captured, or the next
      token. */
  function Frontier(position: int, st: Capture): int {
    if st.begin.Some? then st.begin.value else position + 1
  }

  /** Nothing before the walk's frontier changes: the text of those tokens starts the result.
      A spliced replacement is behind the frontier at once, so its text is never rescanned. */
  lemma {:induction false} ExpandKeepsPrefix(m: Macro, ts: seq<Token>, position: int, st: Capture)
    requires -1 <= position <= |ts| && Consistent(position, st)
    requires ExpandFrom(m, ts, position, st).Ok?
    ensures Join(ts[..Min(Frontier(position, st), |ts|)]) <= ExpandFrom(m, ts, position, st).value
    decreases |ts|, 0, |ts| - position, 3
  {
    var f := Min(Frontier(position, st), |ts|);
    if position + 1 >= |ts| {
      JoinPrefix(ts, f);
    } else {
      var p := position + 1;
      if st.begin.None? {
        ExpandKeepsPrefix(m, ts, p, Seen(m.name, ts[p], p, st));
        JoinPrefixes(ts, f, Min(Frontier(p, Seen(m.name, ts[p], p, st)), |ts|));
      } else if ts[p].kind == BraceLeft {
        ExpandKeepsPrefix(m, ts, p, Opened(ts[p], p, st));
      } else if ts[p].kind == BraceRight {
        CloseKeepsPrefix(m, ts, p, st);
      } else {
        ExpandKeepsPrefix(m, ts, p, st);
      }
    }
  }

  lemma {:induction false} CloseKeepsPrefix(m: Macro, ts: seq<Token>, p: int, st: Capture)
    requires 0 <= p < |ts| && st.begin.Some? && Consistent(p - 1, st)
    requires CloseGroup(m, ts, p, st).Ok?
    ensures Join(ts[..st.begin.value]) <= CloseGroup(m, ts, p, st).value
    decreases |ts|, 0, |ts| - p + 1, 2
  {
    var braces := if st.braces == [] then [] else st.braces[..|st.braces| - 1];
    if braces != [] {
      ExpandKeepsPrefix(m, ts, p, st.(braces := braces));
    } else {
      ArgumentKeepsPrefix(m, ts, p, st);
    }
  }

  lemma {:induction false} ArgumentKeepsPrefix(m: Macro, ts: seq<Token>, p: int, st: Capture)
    requires 0 <= p < |ts| && st.begin.Some? && Consistent(p - 1, st)
    requires CloseArgument(m, ts, p, st).Ok?
    ensures Join(ts[..st.begin.value]) <= CloseArgument(m, ts, p, st).value
    decreases |ts|, 0, |ts| - p + 1, 1
  {
    var from := if st.argumentBegin.Some? then st.argumentBegin.value else 0;
    var argument := Expansion(m, ArraySlice(ts, from, p - from)).value;
    CompleteKeepsPrefix(m, ts, p, st.begin.value, st.arguments + [argument]);
  }

  lemma {:induction false} CompleteKeepsPrefix(m: Macro, ts: seq<Token>, p: int, begin: int, arguments: seq<string>)
    requires 0 <= begin < p < |ts|
    requires Complete(m, ts, p, begin, arguments).Ok?
    ensures Join(ts[..begin]) <= Complete(m, ts, p, begin, arguments).value
    decreases |ts|, 0, |ts| - p + 1, 0
  {
    if |arguments| == m.argumentsCount {
      var spliced := Splice(ts, begin, p, m.handler(arguments).value);
      ExpandKeepsPrefix(m, spliced, begin, Idle);
      assert spliced[..begin + 1][..begin] == ts[..begin];
      JoinPrefix(spliced[..begin + 1], begin);
    } else {
      ExpandKeepsPrefix(m, ts, p, Capture(Some(begin), None, [], arguments));
    }
  }

  /** The text of a shorter prefix starts the text of a longer one. */
  lemma JoinPrefixes(ts: seq<Token>, i: nat, j: nat)
    requires i <= j <= |ts|
    ensures Join(ts[..i]) <= Join(ts[..j])
  {
    JoinPrefix(ts[..j], i);
    assert ts[..j][..i] == ts[..i];
  }

  function Min(a: int, b: int): int { if a <= b then a else b }

  lemma {:induction false} JoinPrefix(ts: seq<Token>, k: nat)
    requires k <= |ts|
    ensures Join(ts[..k]) <= Join(ts)
  {
    assert ts == ts[..k] + ts[k..];
    JoinAppend(ts[..k], ts[k..]);
  }

  /** A single invocation with one group: `\name{body}` followed by tokens without an invocation
      gives the handler's result for the body's text, followed by the rest's text. The body must
      hold no brace, so the group closes at its own `}`. */
  lemma OneArgumentInvocation(m: Macro, c: Token, l: Token, body: seq<Token>, r: Token, rest: seq<Token>)
    requires m.argumentsCount == 1 && Invokes(m.name, c)
    requires l.kind == BraceLeft && l.value == "{" && r.kind == BraceRight && r.value == "}"
    requires forall k :: 0 <= k < |body| ==> body[k].kind != BraceLeft && body[k].kind != BraceRight && !Invokes(m.name, body[k])
    requires forall k :: 0 <= k < |rest| ==> !Invokes(m.name, rest[k])
    ensures var ts := [c, l] + body + [r] + rest;
      Expansion(m, ts) == match m.handler([Join(body)]) { case Ok(v) => Ok(v + Join(rest)) case Err(e) => Err(e) }
  {
    var ts := [c, l] + body + [r] + rest;
    var p := 2 + |body|;
    assert ts[0] == c && ts[1] == l && ts[p] == r;
    assert ts[2..p] == body && ts[p + 1..] == rest;
    forall k | 1 < k < p ensures ts[k].kind != BraceLeft && ts[k].kind != BraceRight && !Invokes(m.name, ts[k]) {
      assert ts[k] == body[k - 2];
    }
    OneGroupAt(m, ts, p);
  }

  /** The same invocation, read off the positions of one token sequence: the invocation at 0,
      its `{` at 1 and its `}` at `p`. */
  lemma OneGroupAt(m: Macro, ts: seq<Token>, p: int)
    requires m.argumentsCount == 1 && 2 <= p < |ts| && Invokes(m.name, ts[0])
    requires ts[1].kind == BraceLeft && ts[1].value == "{" && ts[p].kind == BraceRight && ts[p].value == "}"
    requires forall k :: 1 < k < p ==> ts[k].kind != BraceLeft && ts[k].kind != BraceRight && !Invokes(m.name, ts[k])
    requires forall k :: p < k < |ts| ==> !Invokes(m.name, ts[k])
    ensures Expansion(m, ts) == match m.handler([Join(ts[2..p])]) { case Ok(v) => Ok(v + Join(ts[p + 1..])) case Err(e) => Err(e) }
  {
    var st := Capture(Some(0), Some(2), ["{"], []);
    OpenInvocation(m, ts, st);
    SkipGroupBody(m, ts, 1, p, st);
    assert ExpandFrom(m, ts, p - 1, st) == CloseGroup(m, ts, p, st);
    assert CloseGroup(m, ts, p, st) == CloseArgument(m, ts, p, st);
    var body := ArraySlice(ts, 2, p - 2);
    assert body == ts[2..p];
    forall k | 0 <= k < |body| ensures !Invokes(m.name, body[k]) {
      assert body[k] == ts[k + 2];
    }
    NoInvocationKeepsText(m, body, -1);
    assert Expansion(m, body) == Ok(Join(body));
    assert st.arguments + [Join(body)] == [Join(body)];
    assert CloseArgument(m, ts, p, st) == Complete(m, ts, p, 0, [Join(body)]);
    CompleteAtStart(m, ts, p, [Join(body)]);
  }

  /** The last argument of an invocation at the start: the handler's result replaces the tokens
      up to `p`, and the tokens after it, holding no invocation, are kept. */
  lemma CompleteAtStart(m: Macro, ts: seq<Token>, p: int, arguments: seq<string>)
    requires |arguments| == m.argumentsCount && 0 < p < |ts|
    requires forall k :: p < k < |ts| ==> !Invokes(m.name, ts[k])
    ensures Complete(m, ts, p, 0, arguments) ==
      match m.handler(arguments) { case Ok(v) => Ok(v + Join(ts[p + 1..])) case Err(e) => Err(e) }
  {
    match m.handler(arguments)
    case Err(e) =>
    case Ok(v) =>
      var spliced := Splice(ts, 0, p, v);
      SplicedAtStart(m, ts, p, v);
      NoInvocationKeepsText(m, spliced, 0);
      assert Complete(m, ts, p, 0, arguments) == ExpandFrom(m, spliced, 0, Idle);
  }

  /** A replacement spliced over the start: the tokens after it are those after `p`, and the
      text is the replacement then theirs. */
  lemma SplicedAtStart(m: Macro, ts: seq<Token>, p: int, v: string)
    requires 0 < p < |ts|
    requires forall k :: p < k < |ts| ==> !Invokes(m.name, ts[k])
    ensures forall k :: 0 < k < |Splice(ts, 0, p, v)| ==> !Invokes(m.name, Splice(ts, 0, p, v)[k])
    ensures Join(Splice(ts, 0, p, v)) == v + Join(ts[p + 1..])
  {
    var spliced := Splice(ts, 0, p, v);
    forall k | 0 < k < |spliced| ensures !Invokes(m.name, spliced[k]) {
      assert spliced[k] == ts[k + p];
    }
    assert ts[..0] == [] && Join(ts[..0]) == "";
  }

  /** The invocation and its `{` put the walk inside the first group. */
  lemma OpenInvocation(m: Macro, ts: seq<Token>, st: Capture)
    requires 2 <= |ts| && Invokes(m.name, ts[0]) && ts[1].kind == BraceLeft && ts[1].value == "{"
    requires st == Capture(Some(0), Some(2), ["{"], [])
    ensures Expansion(m, ts) == ExpandFrom(m, ts, 1, st)
  {
    var seen := Seen(m.name, ts[0], 0, Idle);
    assert Expansion(m, ts) == ExpandFrom(m, ts, 0, seen);
    assert Opened(ts[1], 1, seen) == st;
  }

  /** Inside a group, tokens that are not braces are passed over. */
  lemma {:induction false} SkipGroupBody(m: Macro, ts: seq<Token>, position: int, end: int, st: Capture)
    requires 0 <= position < end < |ts| && Consistent(position, st) && st.begin.Some?
    requires forall k :: position < k < end ==> ts[k].kind != BraceLeft && ts[k].kind != BraceRight
    ensures ExpandFrom(m, ts, position, st) == ExpandFrom(m, ts, end - 1, st)
    decreases end - position
  {
    if position + 1 < end {
      SkipGroupBody(m, ts, position + 1, end, st);
    }
  }

  /** Tokens whose braces are the scanner's single characters. */
  predicate BracesWellFormed(ts: seq<Token>) {
    forall k :: 0 <= k < |ts| ==> (ts[k].kind == BraceLeft ==> ts[k].value == "{") && (ts[k].kind == BraceRight ==> ts[k].value == "}")
  }

  predicate OnlyCurly(braces: seq<string>) {
    forall k :: 0 <= k < |braces| ==> braces[k] == "{"
  }

  /** The `braces do not match` exception cannot be raised on the scanner's tokens: every
      `brace_left` pushes `{` and every `brace_right` is `}`. Only a handler can fail with it. */
  lemma {:induction false} NoBraceMismatch(m: Macro, ts: seq<Token>, position: int, st: Capture)
    requires -1 <= position <= |ts| && Consistent(position, st)
    requires BracesWellFormed(ts) && OnlyCurly(st.braces)
    requires forall args :: m.handler(args) != Err(BracesDoNotMatch)
    ensures ExpandFrom(m, ts, position, st) != Err(BracesDoNotMatch)
    decreases |ts|, 0, |ts| - position, 3
  {
    if position + 1 < |ts| {
      var p := position + 1;
      if st.begin.None? {
        var next := Seen(m.name, ts[p], p, st);
        assert ExpandFrom(m, ts, position, st) == ExpandFrom(m, ts, p, next);
        NoBraceMismatch(m, ts, p, next);
      } else if ts[p].kind == BraceLeft {
        OpenedCurly(ts, p, st);
        var next := Opened(ts[p], p, st);
        assert ExpandFrom(m, ts, position, st) == ExpandFrom(m, ts, p, next);
        NoBraceMismatch(m, ts, p, next);
      } else if ts[p].kind == BraceRight {
        assert ExpandFrom(m, ts, position, st) == CloseGroup(m, ts, p, st);
        CloseNeverMismatches(m, ts, p, st);
      } else {
        assert ExpandFrom(m, ts, position, st) == ExpandFrom(m, ts, p, st);
        NoBraceMismatch(m, ts, p, st);
      }
    }
  }

  /** Pushing a scanned `{` keeps only curly openers on the stack. */
  lemma OpenedCurly(ts: seq<Token>, p: int, st: Capture)
    requires 0 <= p < |ts| && BracesWellFormed(ts) && ts[p].kind == BraceLeft
    requires Consistent(p - 1, st) && OnlyCurly(st.braces)
    ensures Consistent(p, Opened(ts[p], p, st)) && OnlyCurly(Opened(ts[p], p, st).braces)
  {
    var braces := Opened(ts[p], p, st).braces;
    assert ts[p].value == "{";
    forall k | 0 <= k < |braces| ensures braces[k] == "{" {
      if k < |st.braces| {
        assert braces[k] == st.braces[k];
      }
    }
  }

  lemma {:induction false} CloseNeverMismatches(m: Macro, ts: seq<Token>, p: int, st: Capture)
    requires 0 <= p < |ts| && st.begin.Some? && Consistent(p - 1, st)
    requires BracesWellFormed(ts) && OnlyCurly(st.braces) && ts[p].kind == BraceRight
    requires forall args :: m.handler(args) != Err(BracesDoNotMatch)
    ensures CloseGroup(m, ts, p, st) != Err(BracesDoNotMatch)
    decreases |ts|, 0, |ts| - p + 1, 2
  {
    var braces := if st.braces == [] then [] else st.braces[..|st.braces| - 1];
    assert ts[p].value == "}";
    if braces != [] {
      NoBraceMismatch(m, ts, p, st.(braces := braces));
    } else {
      ArgumentNeverMismatches(m, ts, p, st);
    }
  }

  lemma {:induction false} ArgumentNeverMismatches(m: Macro, ts: seq<Token>, p: int, st: Capture)
    requires 0 <= p < |ts| && st.begin.Some? && Consistent(p - 1, st)
    requires BracesWellFormed(ts)
    requires forall args :: m.handler(args) != Err(BracesDoNotMatch)
    ensures CloseArgument(m, ts, p, st) != Err(BracesDoNotMatch)
    decreases |ts|, 0, |ts| - p + 1, 1
  {
    var from := if st.argumentBegin.Some? then st.argumentBegin.value else 0;
    var argument := Expansion(m, ArraySlice(ts, from, p - from));
    SliceNeverMismatches(m, ts, from, p);
    if argument.Ok? {
      CompleteNeverMismatches(m, ts, p, st.begin.value, st.arguments + [argument.value]);
      assert CloseArgument(m, ts, p, st) == Complete(m, ts, p, st.begin.value, st.arguments + [argument.value]);
    } else {
      assert CloseArgument(m, ts, p, st) == Err(argument.error);
    }
  }

  /** The expansion of a group's tokens `from..p` never reports mismatched braces. */
  lemma {:induction false} SliceNeverMismatches(m: Macro, ts: seq<Token>, from: int, p: int)
    requires 0 <= from <= p < |ts| && BracesWellFormed(ts)
    requires forall args :: m.handler(args) != Err(BracesDoNotMatch)
    ensures Expansion(m, ArraySlice(ts, from, p - from)) != Err(BracesDoNotMatch)
    decreases |ts|, 0, |ts| - p + 1, 0
  {
    SliceWellFormed(ts, from, p - from);
    NoBraceMismatchExpand(m, ArraySlice(ts, from, p - from));
  }

  lemma {:induction false} CompleteNeverMismatches(m: Macro, ts: seq<Token>, p: int, begin: int, arguments: seq<string>)
    requires 0 <= begin < p < |ts| && BracesWellFormed(ts)
    requires forall args :: m.handler(args) != Err(BracesDoNotMatch)
    ensures Complete(m, ts, p, begin, arguments) != Err(BracesDoNotMatch)
    decreases |ts|, 0, |ts| - p + 1, 0
  {
    if |arguments| == m.argumentsCount {
      if m.handler(arguments).Ok? {
        SpliceWellFormed(ts, begin, p, m.handler(arguments).value);
        NoBraceMismatch(m, Splice(ts, begin, p, m.handler(arguments).value), begin, Idle);
      }
    } else {
      NoBraceMismatch(m, ts, p, Capture(Some(begin), None, [], arguments));
    }
  }

  lemma SpliceWellFormed(ts: seq<Token>, begin: nat, end: nat, value: string)
    requires begin <= end < |ts| && BracesWellFormed(ts)
    ensures BracesWellFormed(Splice(ts, begin, end, value))
  {
    var r := Splice(ts, begin, end, value);
    forall k | begin < k < |r| ensures r[k] == ts[k + (end - begin)] {
      assert r[(k + (end - begin)) - (end - begin)] == ts[k + (end - begin)];
    }
  }

  lemma NoBraceMismatchExpand(m: Macro, ts: seq<Token>)
    requires BracesWellFormed(ts)
    requires forall args :: m.handler(args) != Err(BracesDoNotMatch)
    ensures Expansion(m, ts) != Err(BracesDoNotMatch)
    decreases |ts|, 1, 0, 0
  {
    NoBraceMismatch(m, ts, -1, Idle);
  }

  lemma SliceWellFormed(ts: seq<Token>, offset: int, length: int)
    requires BracesWellFormed(ts) && 0 <= offset && 0 <= length
    ensures BracesWellFormed(ArraySlice(ts, offset, length))
  {
    var c := |ts|;
    var start := if offset < c then offset else c;
    var end := if start + length < c then start + length else c;
    assert ArraySlice(ts, offset, length) == ts[start..end];
    forall k | 0 <= k < end - start ensures ts[start..end][k] == ts[start + k] { }
  }

  /** A macro taking no group never fires: the count is compared only after a group has been
      added to the arguments, so it is never 0. The walk then gives back the text of its
      tokens. */
  lemma {:induction false} ZeroArityKeepsText(m: Macro, ts: seq<Token>, position: int, st: Capture)
    requires -1 <= position <= |ts| && Consistent(position, st) && m.argumentsCount <= 0
    requires BracesWellFormed(ts) && OnlyCurly(st.braces)
    ensures ExpandFrom(m, ts, position, st) == Ok(Join(ts))
    decreases |ts|, 0, |ts| - position, 3
  {
    if position + 1 < |ts| {
      var p := position + 1;
      if st.begin.None? {
        ZeroArityKeepsText(m, ts, p, Seen(m.name, ts[p], p, st));
      } else if ts[p].kind == BraceLeft {
        ZeroArityKeepsText(m, ts, p, Opened(ts[p], p, st));
      } else if ts[p].kind == BraceRight {
        ZeroArityClose(m, ts, p, st);
      } else {
        ZeroArityKeepsText(m, ts, p, st);
      }
    }
  }

  lemma {:induction false} ZeroArityClose(m: Macro, ts: seq<Token>, p: int, st: Capture)
    requires 0 <= p < |ts| && st.begin.Some? && Consistent(p - 1, st) && m.argumentsCount <= 0
    requires BracesWellFormed(ts) && OnlyCurly(st.braces) && ts[p].kind == BraceRight
    ensures CloseGroup(m, ts, p, st) == Ok(Join(ts))
    decreases |ts|, 0, |ts| - p + 1, 2
  {
    var braces := if st.braces == [] then [] else st.braces[..|st.braces| - 1];
    assert ts[p].value == "}";
    if braces != [] {
      ZeroArityKeepsText(m, ts, p, st.(braces := braces));
    } else {
      ZeroArityArgument(m, ts, p, st);
    }
  }

  lemma {:induction false} ZeroArityArgument(m: Macro, ts: seq<Token>, p: int, st: Capture)
    requires 0 <= p < |ts| && st.begin.Some? && Consistent(p - 1, st) && m.argumentsCount <= 0
    requires BracesWellFormed(ts)
    ensures CloseArgument(m, ts, p, st) == Ok(Join(ts))
    decreases |ts|, 0, |ts| - p + 1, 1
  {
    var from := if st.argumentBegin.Some? then st.argumentBegin.value else 0;
    var slice := ArraySlice(ts, from, p - from);
    SliceWellFormed(ts, from, p - from);
    ZeroArityExpansion(m, slice);
    var arguments := st.arguments + [Join(slice)];
    assert CloseArgument(m, ts, p, st) == Complete(m, ts, p, st.begin.value, arguments);
    ZeroArityKeepsText(m, ts, p, Capture(st.begin, None, [], arguments));
  }

  lemma ZeroArityExpansion(m: Macro, ts: seq<Token>)
    requires m.argumentsCount <= 0 && BracesWellFormed(ts)
    ensures Expansion(m, ts) == Ok(Join(ts))
    decreases |ts|, 1, 0, 0
  {
    ZeroArityKeepsText(m, ts, -1, Idle);
  }

  /** `__invoke` of a macro taking no group gives back its input whenever the scanner accepts
      it. */
  lemma ZeroArityInvocation(m: Macro, latex: string)
    requires m.argumentsCount <= 0
    ensures Invocation(m, latex) == if !Mentions(latex, m.name) || MacroLex(latex).Ok? then Ok(latex) else Err(TokenizerError)
  {
    if Mentions(latex, m.name) && MacroLex(latex).Ok? {
      var ts := MacroLex(latex).value;
      MacroLexShape(latex);
      LexBracesWellFormed(latex);
      ZeroArityExpansion(m, ts);
    }
  }

  /** The scanner's braces are the single characters `{` and `}`. */
  lemma LexBracesWellFormed(latex: string)
    requires MacroLex(latex).Ok?
    ensures BracesWellFormed(MacroLex(latex).value)
  {
    var ts := MacroLex(latex).value;
    MacroLexTokens(latex);
    forall k | 0 <= k < |ts| ensures (ts[k].kind == BraceLeft ==> ts[k].value == "{") && (ts[k].kind == BraceRight ==> ts[k].value == "}") {
      assert ts[k] in ts && MacroToken(latex, ts[k]);
    }
  }

  /** The pre-check is only a shortcut: whenever the scanner accepts the text, `__invoke` gives
      the expansion of its tokens, and text that the pre-check rejects comes back unchanged
      from the expansion as well. */
  lemma PrecheckIsShortcut(m: Macro, latex: string)
    requires MacroLex(latex).Ok?
    ensures Invocation(m, latex) == Expansion(m, MacroLex(latex).value)
  {
    var ts := MacroLex(latex).value;
    MacroLexShape(latex);
    if !Mentions(latex, m.name) {
      forall k | 0 <= k < |ts| ensures !Invokes(m.name, ts[k]) {
        assert ts[k] in ts;
        UnmentionedNotInvoked(m, latex, ts[k]);
      }
      NoInvocationKeepsText(m, ts, -1);
    }
  }

  /** A scanned token of text that never mentions the name does not invoke the macro. */
  lemma UnmentionedNotInvoked(m: Macro, latex: string, t: Token)
    requires MacroToken(latex, t) && !Mentions(latex, m.name)
    ensures !Invokes(m.name, t)
  {
    if Invokes(m.name, t) {
      var i := t.offset;
      assert latex[i..i + |m.name| + 1] == "\\" + m.name;
      assert MentionAt(latex, m.name, i);
    }
  }

  /** Every scanned formula is safe from the brace check: `__invoke` fails with it only when a
      handler does. */
  lemma InvokeNeverMismatches(m: Macro, latex: string)
    requires forall args :: m.handler(args) != Err(BracesDoNotMatch)
    ensures Invocation(m, latex) != Err(BracesDoNotMatch)
  {
    if Mentions(latex, m.name) && MacroLex(latex).Ok? {
      LexBracesWellFormed(latex);
      NoBraceMismatchExpand(m, MacroLex(latex).value);
    }
  }

  // Invocations and the number of groups they find

  /** The number of `brace_right` tokens. */
  function BraceRights(ts: seq<Token>): nat
    decreases |ts|
  {
    if ts == [] then 0 else (if ts[0].kind == BraceRight then 1 else 0) + BraceRights(ts[1..])
  }

  /** The tokens after `position`. */
  function Ahead(ts: seq<Token>, position: int): seq<Token>
    requires -1 <= position <= |ts|
  {
    if position + 1 <= |ts| then ts[position + 1..] else []
  }

  lemma {:induction false} BraceRightsAppend(a: seq<Token>, b: seq<Token>)
    ensures BraceRights(a + b) == BraceRights(a) + BraceRights(b)
    decreases |a|
  {
    if a != [] {
      assert (a + b)[1..] == a[1..] + b;
      BraceRightsAppend(a[1..], b);
    } else {
      assert a + b == b;
    }
  }

  /** A slice has no more `}` than the whole. */
  lemma BraceRightsSlice(ts: seq<Token>, i: nat, j: nat)
    requires i <= j <= |ts|
    ensures BraceRights(ts[i..j]) <= BraceRights(ts)
  {
    assert ts == ts[..i] + ts[i..j] + ts[j..];
    BraceRightsAppend(ts[..i] + ts[i..j], ts[j..]);
    BraceRightsAppend(ts[..i], ts[i..j]);
  }

  /** Stepping over the next token takes away its `}`, if it is one. */
  lemma AheadStep(ts: seq<Token>, position: int)
    requires -1 <= position && position + 1 < |ts|
    ensures BraceRights(Ahead(ts, position)) == (if ts[position + 1].kind == BraceRight then 1 else 0) + BraceRights(Ahead(ts, position + 1))
  {
    assert Ahead(ts, position)[1..] == Ahead(ts, position + 1);
  }

  /** A group is captured only at a `}`, so while the groups captured plus the `}` ahead are
      fewer than the macro's arity the handler is never called and nothing is spliced: the walk
      gives back the text of its tokens. */
  lemma {:induction false} FewGroupsKeepText(m: Macro, ts: seq<Token>, position: int, st: Capture)
    requires -1 <= position <= |ts| && Consistent(position, st)
    requires BracesWellFormed(ts) && OnlyCurly(st.braces)
    requires BraceRights(ts) < m.argumentsCount
    requires |st.arguments| + BraceRights(Ahead(ts, position)) < m.argumentsCount
    ensures ExpandFrom(m, ts, position, st) == Ok(Join(ts))
    decreases |ts|, 0, |ts| - position, 3
  {
    if position + 1 < |ts| {
      var p := position + 1;
      AheadStep(ts, position);
      if st.begin.None? {
        FewGroupsKeepText(m, ts, p, Seen(m.name, ts[p], p, st));
      } else if ts[p].kind == BraceLeft {
        OpenedCurly(ts, p, st);
        FewGroupsKeepText(m, ts, p, Opened(ts[p], p, st));
      } else if ts[p].kind == BraceRight {
        FewGroupsClose(m, ts, p, st);
      } else {
        FewGroupsKeepText(m, ts, p, st);
      }
    }
  }

  lemma {:induction false} FewGroupsClose(m: Macro, ts: seq<Token>, p: int, st: Capture)
    requires 0 <= p < |ts| && st.begin.Some? && Consistent(p - 1, st) && ts[p].kind == BraceRight
    requires BracesWellFormed(ts) && OnlyCurly(st.braces)
    requires BraceRights(ts) < m.argumentsCount
    requires |st.arguments| + 1 + BraceRights(Ahead(ts, p)) < m.argumentsCount
    ensures CloseGroup(m, ts, p, st) == Ok(Join(ts))
    decreases |ts|, 0, |ts| - p + 1, 2
  {
    var braces := if st.braces == [] then [] else st.braces[..|st.braces| - 1];
    assert ts[p].value == "}";
    if braces != [] {
      FewGroupsKeepText(m, ts, p, st.(braces := braces));
    } else {
      FewGroupsArgument(m, ts, p, st);
    }
  }

  lemma {:induction false} FewGroupsArgument(m: Macro, ts: seq<Token>, p: int, st: Capture)
    requires 0 <= p < |ts| && st.begin.Some? && Consistent(p - 1, st)
    requires BracesWellFormed(ts) && BraceRights(ts) < m.argumentsCount
    requires |st.arguments| + 1 + BraceRights(Ahead(ts, p)) < m.argumentsCount
    ensures CloseArgument(m, ts, p, st) == Ok(Join(ts))
    decreases |ts|, 0, |ts| - p + 1, 1
  {
    var from := if st.argumentBegin.Some? then st.argumentBegin.value else 0;
    var slice := ArraySlice(ts, from, p - from);
    assert slice == ts[from..p];
    BraceRightsSlice(ts, from, p);
    SliceWellFormed(ts, from, p - from);
    FewGroupsExpansion(m, slice);
    var arguments := st.arguments + [Join(slice)];
    assert CloseArgument(m, ts, p, st) == Complete(m, ts, p, st.begin.value, arguments);
    FewGroupsKeepText(m, ts, p, Capture(st.begin, None, [], arguments));
  }

  /** Tokens with fewer `}` than the macro's arity expand to their own text. */
  lemma FewGroupsExpansion(m: Macro, ts: seq<Token>)
    requires BracesWellFormed(ts) && BraceRights(ts) < m.argumentsCount
    ensures Expansion(m, ts) == Ok(Join(ts))
    decreases |ts|, 1, 0, 0
  {
    FewGroupsKeepText(m, ts, -1, Idle);
  }

  /** `\name{a}{b}` for a macro that takes three groups is left as it was. */
  lemma TwoGroupsOfThree(m: Macro, c: Token, l: Token, a: Token, r: Token, b: Token)
    requires m.argumentsCount == 3 && Invokes(m.name, c)
    requires l.kind == BraceLeft && l.value == "{" && r.kind == BraceRight && r.value == "}"
    requires a.kind != BraceLeft && a.kind != BraceRight && b.kind != BraceLeft && b.kind != BraceRight
    ensures Expansion(m, [c, l, a, r, l, b, r]) == Ok(Join([c, l, a, r, l, b, r]))
  {
    var ts := [c, l, a, r, l, b, r];
    assert BracesWellFormed(ts);
    assert BraceRights([r]) == 1 by { assert [r][1..] == []; }
    assert BraceRights([b, r]) == 1 by { assert [b, r][1..] == [r]; }
    assert BraceRights([l, b, r]) == 1 by { assert [l, b, r][1..] == [b, r]; }
    assert BraceRights([r, l, b, r]) == 2 by { assert [r, l, b, r][1..] == [l, b, r]; }
    assert BraceRights([a, r, l, b, r]) == 2 by { assert [a, r, l, b, r][1..] == [r, l, b, r]; }
    assert BraceRights([l, a, r, l, b, r]) == 2 by { assert [l, a, r, l, b, r][1..] == [a, r, l, b, r]; }
    assert BraceRights(ts) == 2 by { assert ts[1..] == [l, a, r, l, b, r]; }
    FewGroupsExpansion(m, ts);
  }

  // Invocations followed by balanced groups

  /** `{` pushed `n` times. */
  function Curls(n: nat): (r: seq<string>)
    ensures |r| == n
  {
    if n == 0 then [] else Curls(n - 1) + ["{"]
  }

  /** The nesting depth after the first `i` tokens of a group's body. */
  function Depth(g: seq<Token>, i: nat): int
    requires i <= |g|
  {
    if i == 0 then 0 else Depth(g, i - 1) + Nesting(g[i - 1])
  }

  /** A group's body whose braces nest: no prefix closes more than it opens, and the whole
      closes all it opens. */
  predicate Balanced(g: seq<Token>) {
    BracesWellFormed(g) && (forall i :: 0 <= i <= |g| ==> Depth(g, i) >= 0) && Depth(g, |g|) == 0
  }

  /** What a token adds to the nesting depth. */
  function Nesting(t: Token): int {
    if t.kind == BraceLeft then 1 else if t.kind == BraceRight then -1 else 0
  }

  /** One token inside the group being captured, with `n` openers on the stack before it and
      `n'` after it. */
  lemma TokenStep(m: Macro, ts: seq<Token>, position: int, n: nat, n': nat, b: int, ab: int, done: seq<string>)
    requires 0 <= b <= position && 0 <= ab <= position + 1 && position + 1 < |ts|
    requires var t := ts[position + 1]; (t.kind == BraceLeft ==> t.value == "{") && (t.kind == BraceRight ==> t.value == "}")
    requires n >= 1 && n' >= 1 && n' == n + Nesting(ts[position + 1])
    ensures ExpandFrom(m, ts, position, Capture(Some(b), Some(ab), Curls(n), done)) ==
      ExpandFrom(m, ts, position + 1, Capture(Some(b), Some(ab), Curls(n'), done))
  {
    if ts[position + 1].kind == BraceLeft {
      OpenStep(m, ts, position, n, b, ab, done);
    } else if ts[position + 1].kind == BraceRight {
      CloseStep(m, ts, position, n, b, ab, done);
    } else {
      PassStep(m, ts, position, Capture(Some(b), Some(ab), Curls(n), done));
    }
  }

  /** Inside a capture, states equal from each position to the next, with `ds[k]` openers on
      the stack at `q + k`, are equal from `q + i` to `q + |ds| - 1`. */
  lemma {:induction false} WalkFrom(m: Macro, ts: seq<Token>, q: int, ds: seq<nat>, i: nat, b: int, ab: int, done: seq<string>)
    requires 0 <= b <= q && 0 <= ab <= q + 1 && q + |ds| <= |ts| && i < |ds|
    requires forall k :: 0 <= k < |ds| - 1 ==>
      ExpandFrom(m, ts, q + k, Capture(Some(b), Some(ab), Curls(ds[k]), done)) ==
      ExpandFrom(m, ts, q + k + 1, Capture(Some(b), Some(ab), Curls(ds[k + 1]), done))
    ensures ExpandFrom(m, ts, q + i, Capture(Some(b), Some(ab), Curls(ds[i]), done)) ==
      ExpandFrom(m, ts, q + (|ds| - 1), Capture(Some(b), Some(ab), Curls(ds[|ds| - 1]), done))
    decreases |ds| - i
  {
    if i < |ds| - 1 {
      WalkFrom(m, ts, q, ds, i + 1, b, ab, done);
    }
  }

  /** The stack's height through a body: one for the group's own `{` and the depth after each
      prefix. */
  function Heights(g: seq<Token>): (r: seq<nat>)
    ensures |r| == |g| + 1
  {
    seq(|g| + 1, k requires 0 <= k <= |g| => if Depth(g, k) >= 0 then 1 + Depth(g, k) else 1)
  }

  /** Each token of a balanced body moves the stack from one height to the next. */
  lemma WalkSteps(m: Macro, ts: seq<Token>, q: int, g: seq<Token>, b: int, ab: int, done: seq<string>)
    requires 0 <= b <= q && 0 <= ab <= q + 1 && q + |g| < |ts|
    requires ts[q + 1..q + 1 + |g|] == g && Balanced(g)
    ensures var ds := Heights(g); forall k :: 0 <= k < |ds| - 1 ==>
      ExpandFrom(m, ts, q + k, Capture(Some(b), Some(ab), Curls(ds[k]), done)) ==
      ExpandFrom(m, ts, q + k + 1, Capture(Some(b), Some(ab), Curls(ds[k + 1]), done))
  {
    var ds := Heights(g);
    forall k | 0 <= k < |ds| - 1
      ensures ExpandFrom(m, ts, q + k, Capture(Some(b), Some(ab), Curls(ds[k]), done)) ==
        ExpandFrom(m, ts, q + k + 1, Capture(Some(b), Some(ab), Curls(ds[k + 1]), done))
    {
      HeightStep(ts, q, g, k);
      TokenStep(m, ts, q + k, ds[k], ds[k + 1], b, ab, done);
    }
  }

  /** The height after the `k`-th token of a balanced body is the height before it plus what
      the token adds. */
  lemma HeightStep(ts: seq<Token>, q: int, g: seq<Token>, k: nat)
    requires 0 <= q && q + |g| < |ts| && k < |g|
    requires ts[q + 1..q + 1 + |g|] == g && Balanced(g)
    ensures var t := ts[q + k + 1]; (t.kind == BraceLeft ==> t.value == "{") && (t.kind == BraceRight ==> t.value == "}")
    ensures Heights(g)[k] >= 1 && Heights(g)[k + 1] >= 1 && Heights(g)[k + 1] == Heights(g)[k] + Nesting(ts[q + k + 1])
  {
    assert ts[q + k + 1] == ts[q + 1..q + 1 + |g|][k];
    assert Depth(g, k) >= 0 && Depth(g, k + 1) >= 0 && Depth(g, k + 1) == Depth(g, k) + Nesting(g[k]);
  }

  /** Inside the group being captured, a balanced body is walked without closing the group:
      the walk reaches the body's end with only the group's own `{` on the stack. */
  lemma WalkBody(m: Macro, ts: seq<Token>, q: int, g: seq<Token>, b: int, ab: int, done: seq<string>)
    requires 0 <= b <= q && 0 <= ab <= q + 1 && q + |g| < |ts|
    requires ts[q + 1..q + 1 + |g|] == g && Balanced(g)
    ensures ExpandFrom(m, ts, q, Capture(Some(b), Some(ab), ["{"], done)) ==
      ExpandFrom(m, ts, q + |g|, Capture(Some(b), Some(ab), ["{"], done))
  {
    WalkSteps(m, ts, q, g, b, ab, done);
    WalkFrom(m, ts, q, Heights(g), 0, b, ab, done);
    HeightsEnds(g);
  }

  /** A balanced body starts and ends with only the group's own `{` on the stack. */
  lemma HeightsEnds(g: seq<Token>)
    requires Balanced(g)
    ensures Curls(Heights(g)[0]) == ["{"] && Curls(Heights(g)[|g|]) == ["{"]
  {
    assert Curls(1) == ["{"];
  }

  /** A `{` inside the group being captured is pushed. */
  lemma OpenStep(m: Macro, ts: seq<Token>, position: int, n: nat, b: int, ab: int, done: seq<string>)
    requires 0 <= b <= position && 0 <= ab <= position + 1 && position + 1 < |ts|
    requires ts[position + 1].kind == BraceLeft && ts[position + 1].value == "{" && n >= 1
    ensures ExpandFrom(m, ts, position, Capture(Some(b), Some(ab), Curls(n), done)) ==
      ExpandFrom(m, ts, position + 1, Capture(Some(b), Some(ab), Curls(n + 1), done))
  {
    assert Curls(n) + ["{"] == Curls(n + 1);
    assert Opened(ts[position + 1], position + 1, Capture(Some(b), Some(ab), Curls(n), done)) == Capture(Some(b), Some(ab), Curls(n + 1), done);
  }

  /** A `}` that leaves the group being captured open is popped. */
  lemma CloseStep(m: Macro, ts: seq<Token>, position: int, n: nat, b: int, ab: int, done: seq<string>)
    requires 0 <= b <= position && 0 <= ab <= position + 1 && position + 1 < |ts|
    requires ts[position + 1].kind == BraceRight && ts[position + 1].value == "}" && n >= 2
    ensures ExpandFrom(m, ts, position, Capture(Some(b), Some(ab), Curls(n), done)) ==
      ExpandFrom(m, ts, position + 1, Capture(Some(b), Some(ab), Curls(n - 1), done))
  {
    assert Curls(n)[..n - 1] == Curls(n - 1);
    assert ExpandFrom(m, ts, position, Capture(Some(b), Some(ab), Curls(n), done)) == CloseGroup(m, ts, position + 1, Capture(Some(b), Some(ab), Curls(n), done));
  }

  /** Any other token inside an invocation is passed over. */
  lemma PassStep(m: Macro, ts: seq<Token>, position: int, s: Capture)
    requires 0 <= position && position + 1 < |ts| && ts[position + 1].kind != BraceLeft && ts[position + 1].kind != BraceRight
    requires s.begin.Some? && Consistent(position, s)
    ensures ExpandFrom(m, ts, position, s) == ExpandFrom(m, ts, position + 1, s)
  {
  }

  /** One group: its `{` after `q`, a balanced body and its `}`. The body is expanded on its
      own and, when that succeeds, becomes the next argument. */
  lemma OneGroupStep(m: Macro, ts: seq<Token>, q: int, g: seq<Token>, b: int, done: seq<string>)
    requires 0 <= b <= q && GroupAt(ts, q, g)
    ensures Expansion(m, g).Err? ==> ExpandFrom(m, ts, q, Capture(Some(b), None, [], done)) == Err(Expansion(m, g).error)
    ensures Expansion(m, g).Ok? ==>
      ExpandFrom(m, ts, q, Capture(Some(b), None, [], done)) == Complete(m, ts, q + 2 + |g|, b, done + [Expansion(m, g).value])
  {
    GroupOpensAndWalks(m, ts, q, g, b, done);
    GroupCloses(m, ts, q, g, b, done);
  }

  /** The group's `{` opens the argument and its body is walked up to its `}`. */
  lemma GroupOpensAndWalks(m: Macro, ts: seq<Token>, q: int, g: seq<Token>, b: int, done: seq<string>)
    requires 0 <= b <= q && q + |g| + 2 < |ts|
    requires ts[q + 1].kind == BraceLeft && ts[q + 1].value == "{"
    requires ts[q + 2..q + 2 + |g|] == g
    requires Balanced(g)
    ensures ExpandFrom(m, ts, q, Capture(Some(b), None, [], done)) == ExpandFrom(m, ts, q + 1 + |g|, Capture(Some(b), Some(q + 2), ["{"], done))
  {
    GroupOpens(m, ts, q, b, done);
    assert ts[q + 2..q + 2 + |g|] == ts[q + 1 + 1..q + 1 + 1 + |g|];
    WalkBody(m, ts, q + 1, g, b, q + 2, done);
  }

  /** The group's `{` opens the argument: its tokens begin after it. */
  lemma GroupOpens(m: Macro, ts: seq<Token>, q: int, b: int, done: seq<string>)
    requires 0 <= b <= q && q + 1 < |ts| && ts[q + 1].kind == BraceLeft && ts[q + 1].value == "{"
    ensures ExpandFrom(m, ts, q, Capture(Some(b), None, [], done)) == ExpandFrom(m, ts, q + 1, Capture(Some(b), Some(q + 2), ["{"], done))
  {
    assert Opened(ts[q + 1], q + 1, Capture(Some(b), None, [], done)) == Capture(Some(b), Some(q + 2), ["{"], done);
  }

  /** The group's `}` ends the argument: the body between the braces is expanded. */
  lemma GroupCloses(m: Macro, ts: seq<Token>, q: int, g: seq<Token>, b: int, done: seq<string>)
    requires 0 <= b <= q && q + |g| + 2 < |ts| && ts[q + 2..q + 2 + |g|] == g
    requires ts[q + 2 + |g|].kind == BraceRight && ts[q + 2 + |g|].value == "}"
    ensures var c := Capture(Some(b), Some(q + 2), ["{"], done);
      Expansion(m, g).Err? ==> ExpandFrom(m, ts, q + 1 + |g|, c) == Err(Expansion(m, g).error)
    ensures var c := Capture(Some(b), Some(q + 2), ["{"], done);
      Expansion(m, g).Ok? ==> ExpandFrom(m, ts, q + 1 + |g|, c) == Complete(m, ts, q + 2 + |g|, b, done + [Expansion(m, g).value])
  {
    var c := Capture(Some(b), Some(q + 2), ["{"], done);
    var p := q + 2 + |g|;
    assert ExpandFrom(m, ts, p - 1, c) == CloseGroup(m, ts, p, c);
    assert CloseGroup(m, ts, p, c) == CloseArgument(m, ts, p, c);
    assert ArraySlice(ts, q + 2, p - (q + 2)) == g;
  }

  /** The expansions of the groups' bodies in order, or the first failure. */
  function GroupExpansions(m: Macro, gs: seq<seq<Token>>): (r: Result<seq<string>>)
    ensures r.Ok? ==> |r.value| == |gs|
  {
    if gs == [] then Ok([]) else Prepend(Expansion(m, gs[0]), GroupExpansions(m, gs[1..]))
  }

  /** One value before the others, or the first failure. */
  function Prepend(x: Result<string>, xs: Result<seq<string>>): (r: Result<seq<string>>)
    ensures r.Ok? <==> x.Ok? && xs.Ok?
    ensures r.Ok? ==> r.value == [x.value] + xs.value
    ensures x.Err? ==> r == Err(x.error)
    ensures x.Ok? && xs.Err? ==> r == Err(xs.error)
  {
    var v :- x;
    var vs :- xs;
    Ok([v] + vs)
  }

  /** The balanced group `g` follows position `q` in `ts`, between a `{` token and a `}`
      token. */
  predicate GroupAt(ts: seq<Token>, q: int, g: seq<Token>) {
    0 <= q && q + |g| + 2 < |ts| &&
    ts[q + 1].kind == BraceLeft && ts[q + 1].value == "{" &&
    ts[q + 2..q + 2 + |g|] == g && Balanced(g) &&
    ts[q + 2 + |g|].kind == BraceRight && ts[q + 2 + |g|].value == "}"
  }

  /** The balanced groups `gs` follow position `q` in `ts` one after the other. */
  predicate GroupsAt(ts: seq<Token>, q: int, gs: seq<seq<Token>>)
    decreases |gs|
  {
    gs == [] || (GroupAt(ts, q, gs[0]) && GroupsAt(ts, q + 2 + |gs[0]|, gs[1..]))
  }

  /** The position of the last group's `}`. */
  function GroupsEnd(q: int, gs: seq<seq<Token>>): int
    decreases |gs|
  {
    if gs == [] then q else GroupsEnd(q + 2 + |gs[0]|, gs[1..])
  }

  /** The groups end after `q` and before the end of the tokens. */
  lemma {:induction false} GroupsEndBound(ts: seq<Token>, q: int, gs: seq<seq<Token>>)
    requires GroupsAt(ts, q, gs) && gs != []
    ensures 0 <= q < GroupsEnd(q, gs) < |ts|
    decreases |gs|
  {
    if |gs| > 1 {
      GroupsEndBound(ts, q + 2 + |gs[0]|, gs[1..]);
    }
  }

  /** What capturing groups leads to: the first failure, or the continuation with their
      expansions added to the arguments `done` once the `}` at `p` is reached. */
  function Resumed(m: Macro, ts: seq<Token>, p: int, done: seq<string>, r: Result<seq<string>>): Result<string>
    requires 0 < p < |ts|
  {
    if r.Err? then Err(r.error) else Complete(m, ts, p, 0, done + r.value)
  }

  /** From an invocation that begins at 0, the groups after `q` are captured in order after
      the arguments `done`; the last one completes the invocation. */
  lemma {:induction false} GroupsCaptured(m: Macro, ts: seq<Token>, q: int, gs: seq<seq<Token>>, done: seq<string>)
    requires GroupsAt(ts, q, gs) && gs != [] && |done| + |gs| == m.argumentsCount
    ensures 0 <= q < GroupsEnd(q, gs) < |ts|
    ensures ExpandFrom(m, ts, q, Capture(Some(0), None, [], done)) == Resumed(m, ts, GroupsEnd(q, gs), done, GroupExpansions(m, gs))
    decreases |gs|
  {
    GroupsEndBound(ts, q, gs);
    var g := gs[0];
    assert GroupExpansions(m, gs) == Prepend(Expansion(m, g), GroupExpansions(m, gs[1..]));
    assert GroupsEnd(q, gs) == GroupsEnd(q + 2 + |g|, gs[1..]);
    if |gs| == 1 {
      assert gs[1..] == [];
      FinalGroup(m, ts, q, g, done);
    } else {
      if Expansion(m, g).Ok? {
        GroupsCaptured(m, ts, q + 2 + |g|, gs[1..], done + [Expansion(m, g).value]);
      }
      FurtherGroup(m, ts, q, g, GroupsEnd(q, gs), done, GroupExpansions(m, gs[1..]));
    }
  }

  /** The last group completes the invocation. */
  lemma FinalGroup(m: Macro, ts: seq<Token>, q: int, g: seq<Token>, done: seq<string>)
    requires GroupAt(ts, q, g)
    ensures ExpandFrom(m, ts, q, Capture(Some(0), None, [], done)) == Resumed(m, ts, q + 2 + |g|, done, Prepend(Expansion(m, g), Ok([])))
  {
    OneGroupStep(m, ts, q, g, 0, done);
    if Expansion(m, g).Ok? {
      assert [Expansion(m, g).value] + [] == [Expansion(m, g).value];
    }
  }

  /** A group that is not the last one adds its argument, and the capture goes on: given how
      the groups after it are captured (to the `}` at `end`, with expansions `rs`), so are
      all of them. */
  lemma FurtherGroup(m: Macro, ts: seq<Token>, q: int, g: seq<Token>, end: int, done: seq<string>, rs: Result<seq<string>>)
    requires GroupAt(ts, q, g) && |done| + 1 < m.argumentsCount && 0 < end < |ts|
    requires Expansion(m, g).Ok? ==>
      ExpandFrom(m, ts, q + 2 + |g|, Capture(Some(0), None, [], done + [Expansion(m, g).value])) ==
      Resumed(m, ts, end, done + [Expansion(m, g).value], rs)
    ensures ExpandFrom(m, ts, q, Capture(Some(0), None, [], done)) == Resumed(m, ts, end, done, Prepend(Expansion(m, g), rs))
  {
    OneGroupStep(m, ts, q, g, 0, done);
    if Expansion(m, g).Ok? {
      var v := Expansion(m, g).value;
      CaptureGoesOn(m, ts, q + 2 + |g|, done + [v]);
      ResumedLater(m, ts, end, done, v, rs);
    }
  }

  /** Before the last argument, completing an argument continues the capture. */
  lemma CaptureGoesOn(m: Macro, ts: seq<Token>, p: int, arguments: seq<string>)
    requires 0 < p < |ts| && |arguments| < m.argumentsCount
    ensures Complete(m, ts, p, 0, arguments) == ExpandFrom(m, ts, p, Capture(Some(0), None, [], arguments))
  {
  }

  /** Resuming after one more argument is resuming with that argument prepended. */
  lemma ResumedLater(m: Macro, ts: seq<Token>, p: int, done: seq<string>, v: string, rs: Result<seq<string>>)
    requires 0 < p < |ts|
    ensures Resumed(m, ts, p, done + [v], rs) == Resumed(m, ts, p, done, Prepend(Ok(v), rs))
  {
    if rs.Ok? {
      assert done + [v] + rs.value == done + ([v] + rs.value);
    }
  }

  /** An invocation at the start followed by as many balanced groups as the macro takes, then
      tokens `rest` without an invocation: the handler gets the expansions of the groups'
      bodies in order, and its result is followed by the text of the rest. A failing body or
      handler fails the whole. */
  lemma GroupsInvocation(m: Macro, ts: seq<Token>, gs: seq<seq<Token>>, rest: seq<Token>)
    requires ts != [] && Invokes(m.name, ts[0]) && m.argumentsCount == |gs| && gs != []
    requires GroupsAt(ts, 0, gs) && |rest| < |ts| && GroupsEnd(0, gs) == |ts| - |rest| - 1 && ts[|ts| - |rest|..] == rest
    requires forall k :: 0 <= k < |rest| ==> !Invokes(m.name, rest[k])
    ensures GroupExpansions(m, gs).Err? ==> Expansion(m, ts) == Err(GroupExpansions(m, gs).error)
    ensures GroupExpansions(m, gs).Ok? && m.handler(GroupExpansions(m, gs).value).Err? ==>
      Expansion(m, ts) == Err(m.handler(GroupExpansions(m, gs).value).error)
    ensures GroupExpansions(m, gs).Ok? && m.handler(GroupExpansions(m, gs).value).Ok? ==>
      Expansion(m, ts) == Ok(m.handler(GroupExpansions(m, gs).value).value + Join(rest))
  {
    CaptureStarts(m, ts);
    GroupsCaptured(m, ts, 0, gs, []);
    ResumedAtStart(m, ts, |ts| - |rest| - 1, GroupExpansions(m, gs), rest);
  }

  /** An invocation at position 0 starts a capture there. */
  lemma CaptureStarts(m: Macro, ts: seq<Token>)
    requires ts != [] && Invokes(m.name, ts[0])
    ensures Expansion(m, ts) == ExpandFrom(m, ts, 0, Capture(Some(0), None, [], []))
  {
  }

  /** Resuming with all the arguments at `p`, followed by tokens without an invocation: the
      handler's result, then the text of the rest. */
  lemma ResumedAtStart(m: Macro, ts: seq<Token>, p: int, rs: Result<seq<string>>, rest: seq<Token>)
    requires 0 < p < |ts| && ts[p + 1..] == rest && (rs.Ok? ==> |rs.value| == m.argumentsCount)
    requires forall k :: 0 <= k < |rest| ==> !Invokes(m.name, rest[k])
    ensures rs.Err? ==> Resumed(m, ts, p, [], rs) == Err(rs.error)
    ensures rs.Ok? && m.handler(rs.value).Err? ==> Resumed(m, ts, p, [], rs) == Err(m.handler(rs.value).error)
    ensures rs.Ok? && m.handler(rs.value).Ok? ==> Resumed(m, ts, p, [], rs) == Ok(m.handler(rs.value).value + Join(rest))
  {
    if rs.Ok? {
      assert [] + rs.value == rs.value;
      forall k | p < k < |ts| ensures !Invokes(m.name, ts[k]) {
        assert ts[k] == rest[k - p - 1];
      }
      CompleteAtStart(m, ts, p, rs.value);
    }
  }

  // `mask`

  /** Length of the run of digits from offset `i`. */
  function DigitRun(s: string, i: nat): (n: nat)
    ensures i + n <= |s| || n == 0
    decreases |s| - i
  {
    if i < |s| && IsDigit(s[i]) then 1 + DigitRun(s, i + 1) else 0
  }

  /** The run from `i` is exactly the `m` digits there when a non-digit or the end follows. */
  lemma {:induction false} DigitRunOf(s: string, i: nat, m: nat)
    requires i + m <= |s| && forall k :: i <= k < i + m ==> IsDigit(s[k])
    requires i + m == |s| || !IsDigit(s[i + m])
    ensures DigitRun(s, i) == m
    decreases m
  {
    if m > 0 {
      DigitRunOf(s, i + 1, m - 1);
    }
  }

  /** `mask($mask)(...$args)`: every `{#n}` of the template, scanned left to right, becomes
      argument n (1-based); a placeholder without its argument makes the callback return null
      where a string is declared, which fails. */
  function Mask(template: string, args: seq<string>): (r: Result<string>)
    ensures r.Err? ==> r.error == NullValue
    decreases |template|
  {
    if template == [] then Ok("")
    else
      var len := PlaceholderAt(template);
      if len > 0 then
        var n := DecimalValue(template[2..len - 1]);
        if 1 <= n <= |args| then
          var rest :- Mask(template[len..], args);
          Ok(args[n - 1] + rest)
        else Err(NullValue)
      else
        var rest :- Mask(template[1..], args);
        Ok([template[0]] + rest)
  }

  /** The length of the `{#digits}` the template starts with, or 0 when it starts with none. */
  function PlaceholderAt(t: string): (len: nat)
    ensures len > 0 ==> 4 <= len <= |t| && t[0] == '{' && t[1] == '#' && t[len - 1] == '}'
  {
    if |t| >= 2 && t[0] == '{' && t[1] == '#' then
      var d := DigitRun(t, 2);
      if d > 0 && 2 + d < |t| && t[2 + d] == '}' then 3 + d else 0
    else 0
  }

  /** A character that does not open `{#` is copied. */
  lemma MaskCopies(template: string, args: seq<string>)
    requires template != [] && !(|template| >= 2 && template[0] == '{' && template[1] == '#')
    ensures Mask(template, args).Ok? <==> Mask(template[1..], args).Ok?
    ensures Mask(template, args).Ok? ==> Mask(template, args).value == [template[0]] + Mask(template[1..], args).value
  {
  }

  /** No `{#` inside the text. */
  predicate NoOpening(t: string) {
    forall k :: 0 <= k < |t| - 1 ==> !(t[k] == '{' && t[k + 1] == '#')
  }

  /** Text that holds no `{#`, and whose last character does not make one with the first
      character of what follows, passes through the template filler unchanged (a `#` on its
      own is copied). */
  lemma {:induction false} MaskLiteral(t: string, u: string, args: seq<string>)
    requires NoOpening(t)
    requires t == [] || u == [] || !(t[|t| - 1] == '{' && u[0] == '#')
    ensures Mask(t + u, args).Ok? <==> Mask(u, args).Ok?
    ensures Mask(u, args).Ok? ==> Mask(t + u, args).value == t + Mask(u, args).value
    decreases |t|
  {
    if t == [] {
      assert t + u == u;
    } else {
      MaskLiteralHead(t, u, args);
      assert forall k :: 0 <= k < |t[1..]| ==> t[1..][k] == t[k + 1];
      MaskLiteral(t[1..], u, args);
      if Mask(u, args).Ok? {
        HeadTail(t, Mask(u, args).value);
      }
    }
  }

  /** Re-attaching the first character of `t` before the rest of `t + x`. */
  lemma HeadTail(t: string, x: string)
    requires t != []
    ensures [t[0]] + (t[1..] + x) == t + x
  {
    assert [t[0]] + t[1..] == t;
    assert [t[0]] + (t[1..] + x) == ([t[0]] + t[1..]) + x;
  }

  /** The first character of such a text is copied. */
  lemma MaskLiteralHead(t: string, u: string, args: seq<string>)
    requires t != [] && NoOpening(t)
    requires u == [] || !(t[|t| - 1] == '{' && u[0] == '#')
    ensures Mask(t + u, args).Ok? <==> Mask(t[1..] + u, args).Ok?
    ensures Mask(t + u, args).Ok? ==> Mask(t + u, args).value == [t[0]] + Mask(t[1..] + u, args).value
  {
    var s := t + u;
    assert s[1..] == t[1..] + u;
    assert |s| >= 2 ==> !(s[0] == '{' && s[1] == '#') by {
      if |t| >= 2 {
        assert s[0] == t[0] && s[1] == t[1];
      } else if |s| >= 2 {
        assert s[0] == t[|t| - 1] && s[1] == u[0];
      }
    }
    MaskCopies(s, args);
  }

  /** A placeholder `{#n}`, its number written in decimal, becomes argument n. */
  lemma MaskPlaceholder(n: nat, u: string, args: seq<string>)
    requires 1 <= n <= |args|
    ensures Mask("{#" + Digits(n) + "}" + u, args).Ok? <==> Mask(u, args).Ok?
    ensures Mask(u, args).Ok? ==> Mask("{#" + Digits(n) + "}" + u, args).value == args[n - 1] + Mask(u, args).value
  {
    PlaceholderRead(n, u);
    MaskAtPlaceholder("{#" + Digits(n) + "}" + u, 3 + |Digits(n)|, n, args);
  }

  /** The filler at a template that starts with a placeholder whose argument is given. */
  lemma MaskAtPlaceholder(t: string, len: nat, n: nat, args: seq<string>)
    requires len == PlaceholderAt(t) > 0 && n == DecimalValue(t[2..len - 1]) && 1 <= n <= |args|
    ensures Mask(t, args).Ok? <==> Mask(t[len..], args).Ok?
    ensures Mask(t[len..], args).Ok? ==> Mask(t, args).value == args[n - 1] + Mask(t[len..], args).value
  {
    assert t != [];
    var rest := Mask(t[len..], args);
    if rest.Ok? {
      assert Mask(t, args) == Ok(args[n - 1] + rest.value);
    } else {
      assert Mask(t, args) == Err(rest.error);
    }
  }

  /** How the filler reads `{#n}` at the front of a template: the digit run is the numeral of n. */
  lemma PlaceholderRead(n: nat, u: string)
    ensures var ds := Digits(n); var t := "{#" + ds + "}" + u;
      PlaceholderAt(t) == 3 + |ds| && DecimalValue(t[2..2 + |ds|]) == n && t[3 + |ds|..] == u
  {
    var ds := Digits(n);
    var t := "{#" + ds + "}" + u;
    assert forall k :: 2 <= k < 2 + |ds| ==> t[k] == ds[k - 2];
    assert t[2 + |ds|] == '}';
    assert t[2..2 + |ds|] == ds;
    assert t[3 + |ds|..] == u;
    DigitRunOf(t, 2, |ds|);
    DecimalDigits(n);
  }

  /** A template read as literal pieces and placeholders. */
  datatype Piece = Lit(text: string) | Hole(n: nat)

  /** A literal piece holds no `{#` and does not start with `#`, so no two pieces side by side
      make a placeholder that is not one of the pieces. */
  predicate WellFormedPiece(p: Piece) {
    match p
    case Lit(t) => t != [] && NoOpening(t) && t[0] != '#'
    case Hole(n) => 1 <= n
  }

  predicate WellFormedPieces(ps: seq<Piece>) {
    forall k :: 0 <= k < |ps| ==> WellFormedPiece(ps[k])
  }

  /** The template text of the pieces, a placeholder written `{#n}` in decimal. */
  function Layout(ps: seq<Piece>): (r: string)
    requires WellFormedPieces(ps)
    ensures r == [] || r[0] != '#'
  {
    if ps == [] then ""
    else
      var head := match ps[0] case Lit(t) => t case Hole(n) => "{#" + Digits(n) + "}";
      head + Layout(ps[1..])
  }

  /** The pieces with every placeholder n replaced by argument n. */
  function Render(ps: seq<Piece>, args: seq<string>): string
    requires WellFormedPieces(ps) && forall k :: 0 <= k < |ps| ==> ps[k].Hole? ==> ps[k].n <= |args|
  {
    if ps == [] then ""
    else
      var head := match ps[0] case Lit(t) => t case Hole(n) => args[n - 1];
      head + Render(ps[1..], args)
  }

  /** A template whose placeholders all have their argument is filled piece by piece. */
  lemma {:induction false} MaskRenders(ps: seq<Piece>, args: seq<string>)
    requires WellFormedPieces(ps) && forall k :: 0 <= k < |ps| ==> ps[k].Hole? ==> ps[k].n <= |args|
    ensures Mask(Layout(ps), args) == Ok(Render(ps, args))
  {
    if ps != [] {
      var rest := Layout(ps[1..]);
      MaskRenders(ps[1..], args);
      match ps[0]
      case Lit(t) =>
        MaskLiteral(t, rest, args);
      case Hole(n) =>
        MaskPlaceholder(n, rest, args);
    }
  }

  /** A placeholder numbered past the arguments makes the filler fail, whatever follows. */
  lemma MaskMissingArgument(n: nat, u: string, args: seq<string>)
    requires n > |args|
    ensures Mask("{#" + Digits(n) + "}" + u, args) == Err(NullValue)
  {
    PlaceholderRead(n, u);
  }

  /** No text without `#` holds `{#`. */
  lemma HashFreeNoOpening(t: string)
    requires '#' !in t
    ensures NoOpening(t)
  {
    forall k | 0 <= k < |t| - 1 ensures !(t[k] == '{' && t[k + 1] == '#') {
      assert t[k + 1] in t;
    }
  }

  /** A text without `#` that cannot be mistaken for part of a placeholder. */
  predicate Literal(t: string) { t != [] && '#' !in t }

  /** A literal text and a one-digit placeholder at the front of a template are filled, and the
      rest of the template is filled after them. */
  lemma MaskStep(x: string, c: char, u: string, args: seq<string>)
    requires Literal(x) && '1' <= c <= '9' && (c as int - '0' as int) <= |args|
    ensures Mask(x + ("{#" + [c] + "}") + u, args).Ok? <==> Mask(u, args).Ok?
    ensures Mask(u, args).Ok? ==>
      Mask(x + ("{#" + [c] + "}") + u, args).value == x + args[c as int - '0' as int - 1] + Mask(u, args).value
  {
    var h := "{#" + [c] + "}";
    assert x + h + u == x + (h + u);
    HashFreeNoOpening(x);
    MaskLiteral(x, h + u, args);
    MaskDigit(c, u, args);
  }

  /** A one-digit placeholder at the front of a template is filled. */
  lemma MaskDigit(c: char, u: string, args: seq<string>)
    requires '1' <= c <= '9' && (c as int - '0' as int) <= |args|
    ensures Mask("{#" + [c] + "}" + u, args).Ok? <==> Mask(u, args).Ok?
    ensures Mask(u, args).Ok? ==> Mask("{#" + [c] + "}" + u, args).value == args[c as int - '0' as int - 1] + Mask(u, args).value
  {
    assert Digits(c as int - '0' as int) == [c];
    MaskPlaceholder(c as int - '0' as int, u, args);
  }

  /** A literal text with nothing after it is copied. */
  lemma MaskEnd(x: string, args: seq<string>)
    requires Literal(x)
    ensures Mask(x, args) == Ok(x)
  {
    assert x + "" == x;
    HashFreeNoOpening(x);
    MaskLiteral(x, "", args);
  }

  /** A literal text and placeholder `{#c}` in front of a filled rest. */
  lemma MaskFillsHole(x: string, c: char, u: string, filled: string, args: seq<string>)
    requires Literal(x) && '1' <= c <= '9' && (c as int - '0' as int) <= |args|
    requires Mask(u, args) == Ok(filled)
    ensures Mask(x + ("{#" + [c] + "}") + u, args) == Ok(x + args[c as int - '0' as int - 1] + filled)
  {
    MaskStep(x, c, u, args);
  }

  lemma Associate(p: string, a: string, b: string, c: string)
    ensures p + a + b + c == p + (a + b + c)
  {
  }

  /** Placeholders 1.. in order, each after a literal text, in front of a filled rest. */
  lemma MaskFillsOneThen(x: string, u: string, filled: string, args: seq<string>)
    requires Literal(x) && |args| >= 1 && Mask(u, args) == Ok(filled)
    ensures Mask(x + "{#1}" + u, args) == Ok(x + args[0] + filled)
  {
    assert "{#1}" == "{#" + ['1'] + "}";
    MaskFillsHole(x, '1', u, filled, args);
  }

  lemma MaskFillsTwoThen(x: string, y: string, u: string, filled: string, args: seq<string>)
    requires Literal(x) && Literal(y) && |args| >= 2 && Mask(u, args) == Ok(filled)
    ensures Mask(x + "{#1}" + y + "{#2}" + u, args) == Ok(x + args[0] + y + args[1] + filled)
  {
    var t := y + "{#2}" + u;
    assert Mask(t, args) == Ok(y + args[1] + filled) by {
      assert "{#2}" == "{#" + ['2'] + "}";
      MaskFillsHole(y, '2', u, filled, args);
    }
    MaskFillsOneThen(x, t, y + args[1] + filled, args);
    Associate(x + "{#1}", y, "{#2}", u);
    Associate(x + args[0], y, args[1], filled);
  }

  lemma MaskFillsThreeThen(x: string, y: string, z: string, u: string, filled: string, args: seq<string>)
    requires Literal(x) && Literal(y) && Literal(z) && |args| >= 3 && Mask(u, args) == Ok(filled)
    ensures Mask(x + "{#1}" + y + "{#2}" + z + "{#3}" + u, args) == Ok(x + args[0] + y + args[1] + z + args[2] + filled)
  {
    var t := z + "{#3}" + u;
    assert Mask(t, args) == Ok(z + args[2] + filled) by {
      assert "{#3}" == "{#" + ['3'] + "}";
      MaskFillsHole(z, '3', u, filled, args);
    }
    MaskFillsTwoThen(x, y, t, z + args[2] + filled, args);
    Associate(x + "{#1}" + y + "{#2}", z, "{#3}", u);
    Associate(x + args[0] + y + args[1], z, args[2], filled);
  }

  lemma MaskFillsFourThen(x: string, y: string, z: string, w: string, u: string, filled: string, args: seq<string>)
    requires Literal(x) && Literal(y) && Literal(z) && Literal(w) && |args| >= 4 && Mask(u, args) == Ok(filled)
    ensures Mask(x + "{#1}" + y + "{#2}" + z + "{#3}" + w + "{#4}" + u, args) ==
      Ok(x + args[0] + y + args[1] + z + args[2] + w + args[3] + filled)
  {
    var t := w + "{#4}" + u;
    assert Mask(t, args) == Ok(w + args[3] + filled) by {
      assert "{#4}" == "{#" + ['4'] + "}";
      MaskFillsHole(w, '4', u, filled, args);
    }
    MaskFillsThreeThen(x, y, z, t, w + args[3] + filled, args);
    Associate(x + "{#1}" + y + "{#2}" + z + "{#3}", w, "{#4}", u);
    Associate(x + args[0] + y + args[1] + z + args[2], w, args[3], filled);
  }

  /** Templates of one to four placeholders in order between literal texts. */
  lemma MaskFillsOne(x: string, y: string, args: seq<string>)
    requires Literal(x) && Literal(y) && |args| >= 1
    ensures Mask(x + "{#1}" + y, args) == Ok(x + args[0] + y)
  {
    MaskEnd(y, args);
    MaskFillsOneThen(x, y, y, args);
  }

  lemma MaskFillsTwo(x: string, y: string, z: string, args: seq<string>)
    requires Literal(x) && Literal(y) && Literal(z) && |args| >= 2
    ensures Mask(x + "{#1}" + y + "{#2}" + z, args) == Ok(x + args[0] + y + args[1] + z)
  {
    MaskEnd(z, args);
    MaskFillsTwoThen(x, y, z, z, args);
  }

  lemma MaskFillsThree(x: string, y: string, z: string, w: string, args: seq<string>)
    requires Literal(x) && Literal(y) && Literal(z) && Literal(w) && |args| >= 3
    ensures Mask(x + "{#1}" + y + "{#2}" + z + "{#3}" + w, args) == Ok(x + args[0] + y + args[1] + z + args[2] + w)
  {
    MaskEnd(w, args);
    MaskFillsThreeThen(x, y, z, w, w, args);
  }

  lemma MaskFillsFour(x: string, y: string, z: string, w: string, v: string, args: seq<string>)
    requires Literal(x) && Literal(y) && Literal(z) && Literal(w) && Literal(v) && |args| >= 4
    ensures Mask(x + "{#1}" + y + "{#2}" + z + "{#3}" + w + "{#4}" + v, args) ==
      Ok(x + args[0] + y + args[1] + z + args[2] + w + args[3] + v)
  {
    MaskEnd(v, args);
    MaskFillsFourThen(x, y, z, w, v, v, args);
  }
}
