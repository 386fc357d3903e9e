/** The LaTeX scanner of Tokenizer.php: its token rules in priority order, matched by hand-written
    recognisers for each pattern, and the loop of `tokenize` that annotates line and column. */
module Tokenizer {
  import opened Wrappers
  import opened Tokens
  import opened StringUtils
  import opened Scanner
  import opened TokenStream

  /** The rule list of the scanner, in the order the patterns are tried. */
  const Rules: seq<TokenType> := [
    Comment,
    CurlyLeftEscaped, CurlyLeft, CurlyRightEscaped, CurlyRight,
    SquareLeftEscaped, SquareLeft, SquareRightEscaped, SquareRight,
    MathBlock, MathInline,
    CommandBegin, CommandEnd, CommandSection, CommandSubsection, Command,
    Pipe, Tilda, Equals, Comma, Backslash, Newline, Whitespace, String]

  /** Length of a literal at offset `i`, 0 if absent. */
  function Literal(s: string, i: nat, lit: string): (n: nat)
    ensures n == 0 || n == |lit|
    ensures n > 0 ==> i + n <= |s| && s[i..i + n] == lit
  {
    if i + |lit| <= |s| && s[i..i + |lit|] == lit then |lit| else 0
  }

  /** Length of the longest run of characters satisfying `p` from offset `i`. */
  function Run(s: string, i: nat, p: char -> bool): (n: nat)
    ensures i + n <= |s| || n == 0
    ensures forall k :: i <= k < i + n ==> p(s[k])
    ensures i + n < |s| ==> !p(s[i + n])
    decreases |s| - i
  {
    if i < |s| && p(s[i]) then 1 + Run(s, i + 1, p) else 0
  }

  predicate IsPcreSpace(c: char) {
    c == ' ' || c == '\t' || c == '\n' || c == '\r' || c == '\U{B}' || c == '\U{C}'
  }

  /** The characters a `string` token may not contain: `$ [ ] { } | ~ = , \` and newline. */
  predicate IsSpecial(c: char) {
    c in "$[]{}|~=,\\\n"
  }

  predicate IsPlain(c: char) { !IsSpecial(c) }
  predicate NotNewline(c: char) { c != '\n' }
  predicate IsBackslash(c: char) { c == '\\' }

  /** `\\name(?![a-zA-Z0-9])`. */
  function Privileged(s: string, i: nat, name: string): (n: nat) {
    var n := Literal(s, i, "\\" + name);
    if n > 0 && !(i + n < |s| && IsAsciiAlnum(s[i + n])) then n else 0
  }

  /** `(?:(?<!\\)|^)\\[a-zA-Z0-9]+`: a backslash not after a backslash, then letters and
      digits. */
  function CommandLength(s: string, i: nat): (n: nat)
    ensures n == 0 || (i + n <= |s| && n >= 2)
  {
    if i < |s| && s[i] == '\\' && (i == 0 || s[i - 1] != '\\') then
      var name := Run(s, i + 1, IsAsciiAlnum);
      if name > 0 then name + 1 else 0
    else 0
  }

  /** Length of the match of one rule at offset `i` (0: the rule does not match). */
  function RuleLength(rule: TokenType, s: string, i: nat): (n: nat)
    ensures i + n <= |s| || n == 0
  {
    if i >= |s| then 0 else
    match rule
    // (?:(?<=\n)|^)%[^\n]*\n
    case Comment =>
      if s[i] == '%' && (i == 0 || s[i - 1] == '\n') then
        var body := Run(s, i + 1, NotNewline);
        if i + 1 + body < |s| then body + 2 else 0
      else 0
    case CurlyLeftEscaped => Literal(s, i, "\\{")
    case CurlyLeft => Literal(s, i, "{")
    case CurlyRightEscaped => Literal(s, i, "\\}")
    case CurlyRight => Literal(s, i, "}")
    case SquareLeftEscaped => Literal(s, i, "\\[")
    case SquareLeft => Literal(s, i, "[")
    case SquareRightEscaped => Literal(s, i, "\\]")
    case SquareRight => Literal(s, i, "]")
    case MathBlock => Literal(s, i, "$$")
    case MathInline => Literal(s, i, "$")
    case CommandBegin => Privileged(s, i, "begin")
    case CommandEnd => Privileged(s, i, "end")
    case CommandSection => Privileged(s, i, "section")
    case CommandSubsection => Privileged(s, i, "subsection")
    case Command => CommandLength(s, i)
    case Pipe => Literal(s, i, "|")
    case Tilda => Literal(s, i, "~")
    case Equals => Literal(s, i, "=")
    case Comma => Literal(s, i, ",")
    case Backslash => Run(s, i, IsBackslash)
    case Newline => Literal(s, i, "\n")
    case Whitespace => Run(s, i, IsPcreSpace)
    case String => Run(s, i, IsPlain)
    case _ => 0
  }

  /** The first rule of `rules` that matches at `i`, with its length; (String, 0) if none. */
  function FirstMatch(rules: seq<TokenType>, s: string, i: nat): (r: (TokenType, nat))
    ensures r.1 > 0 ==> r.0 in rules && r.1 == RuleLength(r.0, s, i)
  {
    if rules == [] then (String, 0)
    else if RuleLength(rules[0], s, i) > 0 then (rules[0], RuleLength(rules[0], s, i))
    else FirstMatch(rules[1..], s, i)
  }

  function LatexRules(s: string, i: nat): (TokenType, nat) {
    FirstMatch(Rules, s, i)
  }

  /** Whenever some rule of the list matches, one is chosen. */
  lemma {:induction false} FirstMatchFinds(rules: seq<TokenType>, s: string, i: nat, q: TokenType)
    requires q in rules && RuleLength(q, s, i) > 0
    ensures FirstMatch(rules, s, i).1 > 0
  {
    if RuleLength(rules[0], s, i) == 0 {
      assert q in rules[1..];
      FirstMatchFinds(rules[1..], s, i, q);
    }
  }

  /** Rule k is the one chosen exactly when it matches and no earlier rule does. */
  lemma {:induction false} FirstMatchAt(rules: seq<TokenType>, s: string, i: nat, k: nat)
    requires k < |rules| && RuleLength(rules[k], s, i) > 0
    requires forall j :: 0 <= j < k ==> RuleLength(rules[j], s, i) == 0
    ensures FirstMatch(rules, s, i) == (rules[k], RuleLength(rules[k], s, i))
  {
    if k > 0 {
      assert RuleLength(rules[0], s, i) == 0;
      assert forall j :: 0 <= j < k - 1 ==> rules[1..][j] == rules[j + 1];
      FirstMatchAt(rules[1..], s, i, k - 1);
    }
  }

  /** The chosen rule matches, and every rule before it in the list does not. */
  lemma {:induction false} FirstMatchIsFirst(rules: seq<TokenType>, s: string, i: nat)
    requires FirstMatch(rules, s, i).1 > 0
    ensures
      exists k :: 0 <= k < |rules| && rules[k] == FirstMatch(rules, s, i).0 &&
        (forall j :: 0 <= j < k ==> RuleLength(rules[j], s, i) == 0)
  {
    if RuleLength(rules[0], s, i) == 0 {
      FirstMatchIsFirst(rules[1..], s, i);
      var k :| 0 <= k < |rules[1..]| && rules[1..][k] == FirstMatch(rules, s, i).0 &&
        (forall j :: 0 <= j < k ==> RuleLength(rules[1..][j], s, i) == 0);
      assert rules[k + 1] == FirstMatch(rules, s, i).0;
      forall j | 0 <= j < k + 1 ensures RuleLength(rules[j], s, i) == 0 {
        if j > 0 { assert rules[j] == rules[1..][j - 1]; }
      }
    } else {
      assert rules[0] == FirstMatch(rules, s, i).0;
    }
  }

  /** `$$` is a display-math delimiter, never two inline ones. */
  lemma MathBlockBeforeInline(s: string, i: nat)
    requires i + 2 <= |s| && s[i..i + 2] == "$$"
    ensures LatexRules(s, i) == (MathBlock, 2)
  {
    assert s[i] == '$' && s[i + 1] == '$';
    assert Rules[9] == MathBlock;
    FirstMatchAt(Rules, s, i, 9);
  }

  /** `\begin` not followed by a letter or digit is the environment opener. */
  lemma BeginIsPrivileged(s: string, i: nat)
    requires i + 6 <= |s| && s[i..i + 6] == "\\begin"
    requires !(i + 6 < |s| && IsAsciiAlnum(s[i + 6]))
    ensures LatexRules(s, i) == (CommandBegin, 6)
  {
    assert s[i] == '\\' && s[i + 1] == 'b';
    forall j | 0 <= j < 11 ensures RuleLength(Rules[j], s, i) == 0 {
      MissesAtBackslashB(s, i, j);
    }
    assert Rules[11] == CommandBegin;
    assert ("\\" + "begin") == "\\begin";
    FirstMatchAt(Rules, s, i, 11);
  }

  /** `\beginning` is an ordinary command: the whole name is taken, not its `\begin` prefix. */
  lemma BeginPrefixIsCommand(s: string, i: nat)
    requires i + 7 <= |s| && s[i..i + 6] == "\\begin" && IsAsciiAlnum(s[i + 6])
    requires i == 0 || s[i - 1] != '\\'
    ensures LatexRules(s, i) == (Command, 1 + Run(s, i + 1, IsAsciiAlnum))
    ensures LatexRules(s, i).1 >= 7
  {
    BeginPrefixFacts(s, i);
    CommandAfterBackslashB(s, i);
  }

  /** At a backslash not after a backslash, followed by `b` and not opening `\begin`, the
      general command rule is the one chosen. */
  lemma CommandAfterBackslashB(s: string, i: nat)
    requires i + 1 < |s| && s[i] == '\\' && s[i + 1] == 'b' && (i == 0 || s[i - 1] != '\\')
    requires RuleLength(CommandBegin, s, i) == 0
    ensures LatexRules(s, i) == (Command, 1 + Run(s, i + 1, IsAsciiAlnum))
  {
    NoRuleBeforeCommand(s, i);
    CommandRuleAt(s, i);
    CommandChosen(s, i);
  }

  /** The general command rule is chosen where it matches and no rule before it does. */
  lemma CommandChosen(s: string, i: nat)
    requires forall j :: 0 <= j < 15 ==> RuleLength(Rules[j], s, i) == 0
    requires RuleLength(Command, s, i) > 0
    ensures LatexRules(s, i) == (Command, RuleLength(Command, s, i))
  {
    assert Rules[15] == Command;
    FirstMatchAt(Rules, s, i, 15);
  }

  lemma BeginPrefixFacts(s: string, i: nat)
    requires i + 7 <= |s| && s[i..i + 6] == "\\begin" && IsAsciiAlnum(s[i + 6])
    ensures i + 1 < |s| && s[i] == '\\' && s[i + 1] == 'b' && IsAsciiAlnum(s[i + 1])
    ensures RuleLength(CommandBegin, s, i) == 0
    ensures Run(s, i + 1, IsAsciiAlnum) >= 6
  {
    BeginLetters(s, i);
    RunPrefix(s, i + 1, 6, IsAsciiAlnum);
    BeginFollowedMisses(s, i);
  }

  /** A backslash not after a backslash and followed by a letter or digit starts a command
      spanning the whole run of letters and digits. */
  lemma CommandRuleAt(s: string, i: nat)
    requires i + 1 < |s| && s[i] == '\\' && (i == 0 || s[i - 1] != '\\') && IsAsciiAlnum(s[i + 1])
    ensures RuleLength(Command, s, i) == 1 + Run(s, i + 1, IsAsciiAlnum)
  {
  }

  /** The letters of `\begin` and the character after them are letters or digits. */
  lemma BeginLetters(s: string, i: nat)
    requires i + 7 <= |s| && s[i..i + 6] == "\\begin" && IsAsciiAlnum(s[i + 6])
    ensures s[i] == '\\' && s[i + 1] == 'b'
    ensures forall k :: i + 1 <= k < i + 7 ==> IsAsciiAlnum(s[k])
  {
    forall k | i + 1 <= k < i + 6 ensures IsAsciiAlnum(s[k]) {
      assert s[k] == s[i..i + 6][k - i];
    }
    assert s[i] == s[i..i + 6][0] && s[i + 1] == s[i..i + 6][1];
  }

  /** At a backslash followed by `b` where `\begin` does not match, no rule before the general
      command rule matches. */
  lemma NoRuleBeforeCommand(s: string, i: nat)
    requires i + 1 < |s| && s[i] == '\\' && s[i + 1] == 'b'
    requires RuleLength(CommandBegin, s, i) == 0
    ensures forall j :: 0 <= j < 15 ==> RuleLength(Rules[j], s, i) == 0
  {
    forall j | 0 <= j < 15 ensures RuleLength(Rules[j], s, i) == 0 {
      if j == 11 {
        assert Rules[j] == CommandBegin;
      } else {
        MissesAtBackslashB(s, i, j);
      }
    }
  }

  /** `\begin` followed by a letter or digit is not the environment opener. */
  lemma BeginFollowedMisses(s: string, i: nat)
    requires i + 7 <= |s| && s[i..i + 6] == "\\begin" && IsAsciiAlnum(s[i + 6])
    ensures RuleLength(CommandBegin, s, i) == 0
  {
    assert ("\\" + "begin") == "\\begin";
  }

  /** At a backslash followed by `b`, no rule before `\begin` in the list matches, and neither do
      `\end`, `\section` and `\subsection`. */
  lemma MissesAtBackslashB(s: string, i: nat, j: nat)
    requires i + 1 < |s| && s[i] == '\\' && s[i + 1] == 'b'
    requires j < 15 && j != 11
    ensures RuleLength(Rules[j], s, i) == 0
  {
    if j == 0 {
      assert Rules[j] == Comment;
    } else if j == 1 {
      LiteralMisses(s, i, "\\{", 1);
    } else if j == 2 {
      LiteralMisses(s, i, "{", 0);
    } else if j == 3 {
      LiteralMisses(s, i, "\\}", 1);
    } else if j == 4 {
      LiteralMisses(s, i, "}", 0);
    } else if j == 5 {
      LiteralMisses(s, i, "\\[", 1);
    } else if j == 6 {
      LiteralMisses(s, i, "[", 0);
    } else if j == 7 {
      LiteralMisses(s, i, "\\]", 1);
    } else if j == 8 {
      LiteralMisses(s, i, "]", 0);
    } else if j == 9 {
      LiteralMisses(s, i, "$$", 0);
    } else if j == 10 {
      LiteralMisses(s, i, "$", 0);
    } else if j == 12 {
      LiteralMisses(s, i, "\\" + "end", 1);
    } else if j == 13 {
      LiteralMisses(s, i, "\\" + "section", 1);
    } else {
      LiteralMisses(s, i, "\\" + "subsection", 1);
    }
  }

  /** A literal is absent where one of its characters differs. */
  lemma LiteralMisses(s: string, i: nat, lit: string, k: nat)
    requires k < |lit| && i + k < |s| && s[i + k] != lit[k]
    ensures Literal(s, i, lit) == 0
  {
    if i + |lit| <= |s| {
      assert s[i..i + |lit|][k] == s[i + k];
    }
  }

  lemma {:induction false} RunPrefix(s: string, i: nat, n: nat, p: char -> bool)
    requires i + n <= |s| && forall k :: i <= k < i + n ==> p(s[k])
    ensures Run(s, i, p) >= n
    decreases n
  {
    if n > 0 {
      RunPrefix(s, i + 1, n - 1, p);
    }
  }

  /** A comment starts with `%` at the beginning of a line and runs to the end of that line,
      newline included. */
  lemma CommentShape(s: string, i: nat)
    requires LatexRules(s, i).0 == Comment && LatexRules(s, i).1 > 0
    ensures var n := LatexRules(s, i).1;
      i + n <= |s| && s[i] == '%' && (i == 0 || s[i - 1] == '\n') &&
      s[i + n - 1] == '\n' && '\n' !in s[i..i + n - 1]
  {
    var body := Run(s, i + 1, NotNewline);
    assert forall k :: i + 1 <= k < i + 1 + body ==> s[k] != '\n';
  }

  /** A `%` at the start of a line whose line ends with a newline is always a comment. */
  lemma LineStartPercentIsComment(s: string, i: nat, e: nat)
    requires i < e < |s| && s[i] == '%' && (i == 0 || s[i - 1] == '\n') && s[e] == '\n'
    ensures LatexRules(s, i).0 == Comment
  {
    RunBelow(s, i + 1, e, NotNewline);
    assert Rules[0] == Comment;
    FirstMatchAt(Rules, s, i, 0);
  }

  /** A run of `p` characters ends no later than the first character failing `p`. */
  lemma {:induction false} RunBelow(s: string, i: nat, e: nat, p: char -> bool)
    requires i <= e < |s| && !p(s[e])
    ensures i + Run(s, i, p) <= e
    decreases e - i
  {
    if i < e && p(s[i]) {
      RunBelow(s, i + 1, e, p);
    }
  }

  /** Text tokens hold no special character and extend up to the next one. */
  lemma StringShape(s: string, i: nat)
    requires LatexRules(s, i).0 == String && LatexRules(s, i).1 > 0
    ensures var n := LatexRules(s, i).1;
      (forall k :: i <= k < i + n ==> !IsSpecial(s[k])) && (i + n < |s| ==> IsSpecial(s[i + n]))
  {
    StringRunShape(s, i, LatexRules(s, i).1);
  }

  lemma StringRunShape(s: string, i: nat, n: nat)
    requires n == Run(s, i, IsPlain)
    ensures (forall k :: i <= k < i + n ==> !IsSpecial(s[k])) && (i + n < |s| ==> IsSpecial(s[i + n]))
  {
    assert forall k :: i <= k < i + n ==> IsPlain(s[k]);
  }

  /** A single-character rule that matches whatever character stands at `i`. */
  function FallbackRule(c: char): TokenType {
    if c == '\\' then Backslash
    else if c == '\n' then Newline
    else if IsPcreSpace(c) then Whitespace
    else if c == '$' then MathInline
    else if c == '[' then SquareLeft
    else if c == ']' then SquareRight
    else if c == '{' then CurlyLeft
    else if c == '}' then CurlyRight
    else if c == '|' then Pipe
    else if c == '~' then Tilda
    else if c == '=' then Equals
    else if c == ',' then Comma
    else String
  }

  lemma FallbackMatches(s: string, i: nat)
    requires i < |s|
    ensures RuleLength(FallbackRule(s[i]), s, i) > 0
  {
    var c := s[i];
    if FallbackRule(c) == String {
      assert !IsSpecial(c);
    }
  }

  lemma FallbackIn(c: char) ensures FallbackRule(c) in Rules {}
  /** Some rule matches at every offset inside the text. */
  lemma SomeRuleMatches(s: string, i: nat)
    requires i < |s|
    ensures LatexRules(s, i).1 > 0
  {
    FallbackMatches(s, i);
    FallbackIn(s[i]);
    FirstMatchFinds(Rules, s, i, FallbackRule(s[i]));
  }

  lemma LatexRulesTotal(s: string)
    ensures forall k :: 0 <= k < |s| ==> 0 < LatexRules(s, k).1 && k + LatexRules(s, k).1 <= |s|
  {
    forall k | 0 <= k < |s| ensures 0 < LatexRules(s, k).1 && k + LatexRules(s, k).1 <= |s| {
      SomeRuleMatches(s, k);
    }
  }

  /** The scanner never raises its "unexpected input" error on this rule set. */
  lemma LexNeverFails(s: string)
    ensures Lex(LatexRules, s).Ok?
  {
    LatexRulesTotal(s);
    LexTotal(LatexRules, s, 0);
  }

  /** Where the token after one at `p` with text `value` is placed: the line grows by the
      newlines in the value; the column restarts at 0 after a value holding a newline
      (wherever in the value it stands) and otherwise grows by the value's length. */
  function Advance(p: Position, value: string): (q: Position)
    ensures q.line >= p.line
    ensures q.line == p.line <==> '\n' !in value
  {
    Position(p.line + CountChar(value, '\n'), if '\n' in value then 0 else p.column + |value|)
  }

  /** `ts` is `raw` with positions: values, offsets and types kept, the first token at line 1,
      column 1, and each further token placed by `Advance` from its predecessor. */
  ghost predicate Annotated(raw: seq<Token>, ts: seq<Token>) {
    |ts| == |raw| &&
    (forall i :: 0 <= i < |ts| ==>
      ts[i].pos.Some? && ts[i] == raw[i].(pos := ts[i].pos)) &&
    (|ts| > 0 ==> ts[0].pos == Some(Position(1, 1))) &&
    (forall i :: 0 < i < |ts| ==> ts[i].pos.value == Advance(ts[i - 1].pos.value, raw[i - 1].value))
  }

  /** The loop of `tokenize` that stamps each token with its line and column. */
  method Annotate(raw: seq<Token>) returns (ts: seq<Token>)
    ensures Annotated(raw, ts)
  {
    var here := Position(1, 1);
    ts := [];
    for i := 0 to |raw|
      invariant Annotated(raw[..i], ts)
      invariant here == if i == 0 then Position(1, 1) else Advance(ts[i - 1].pos.value, raw[i - 1].value)
    {
      ts := ts + [raw[i].(pos := Some(here))];
      here := Advance(here, raw[i].value);
    }
    assert raw[..|raw|] == raw;
  }

  /** The line of every token is one more than the number of newlines before it in the text. */
  lemma {:induction false} LineCountsNewlines(raw: seq<Token>, ts: seq<Token>, i: nat)
    requires Annotated(raw, ts) && i < |ts|
    ensures ts[i].pos.value.line == 1 + CountChar(Join(raw[..i]), '\n')
  {
    if i == 0 {
      assert raw[..0] == [];
    } else {
      LineCountsNewlines(raw, ts, i - 1);
      assert raw[..i][..i - 1] == raw[..i - 1];
      CountCharAppend(Join(raw[..i - 1]), raw[i - 1].value, '\n');
    }
  }

  /** On the first line the column is one more than the number of characters before the token. */
  lemma {:induction false} FirstLineColumn(raw: seq<Token>, ts: seq<Token>, i: nat)
    requires Annotated(raw, ts) && i < |ts|
    requires '\n' !in Join(raw[..i])
    ensures ts[i].pos.value.column == 1 + |Join(raw[..i])|
  {
    if i == 0 {
      assert raw[..0] == [];
    } else {
      assert raw[..i][..i - 1] == raw[..i - 1];
      assert Join(raw[..i]) == Join(raw[..i - 1]) + raw[i - 1].value;
      FirstLineColumn(raw, ts, i - 1);
    }
  }

  /** `Tokenizer::tokenize`: scan the text, annotate the tokens and put them behind a cursor.
      The scanner's failure cannot happen with this rule set (`LexNeverFails`). */
  method Tokenize(text: string) returns (it: TokenIterator)
    ensures fresh(it) && it.Valid() && it.position == -1
    ensures Lex(LatexRules, text).Ok? && Annotated(Lex(LatexRules, text).value, it.tokens)
  {
    LexNeverFails(text);
    var ts := Annotate(Lex(LatexRules, text).value);
    it := new TokenIterator(ts);
  }

  /** The scanned tokens give back the text, each at its own offset, each a non-empty match of
      the first rule that matches there. */
  lemma LatexTokens(text: string)
    ensures Lex(LatexRules, text).Ok?
    ensures Join(Lex(LatexRules, text).value) == text
    ensures forall t :: t in Lex(LatexRules, text).value ==>
      Scanned(LatexRules, text, t) && t.kind in Rules
  {
    LexNeverFails(text);
    LexPartitions(LatexRules, text, 0);
    LexTokens(LatexRules, text, 0);
    forall t | t in Lex(LatexRules, text).value ensures t.kind in Rules {
      assert LatexRules(text, t.offset).1 > 0;
    }
  }
}
