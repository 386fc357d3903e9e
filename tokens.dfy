/** Tokens shared by the document scanner, the cursor and the macro expander. */
module Tokens {
  import opened Wrappers

  /** Every token type the two scanners produce, plus the `replacement` tokens the macro
      expander splices in. The LaTeX scanner uses all but the last four; the macro scanner
      uses Command, BraceLeft, BraceRight, Backslash, Whitespace and Other. */
  datatype TokenType =
    | Comment
    | CurlyLeftEscaped | CurlyLeft | CurlyRightEscaped | CurlyRight
    | SquareLeftEscaped | SquareLeft | SquareRightEscaped | SquareRight
    | MathBlock | MathInline
    | CommandBegin | CommandEnd | CommandSection | CommandSubsection | Command
    | Pipe | Tilda | Equals | Comma | Backslash | Newline | Whitespace | String
    | BraceLeft | BraceRight | Other | Replacement

  /** 1-based line and the column the annotation loop computes. */
  datatype Position = Position(line: int, column: int)

  /** `[VALUE, OFFSET, TYPE, LINE, COLUMN]`; `pos` is absent until the scanner annotates it. */
  datatype Token = Token(kind: TokenType, value: string, offset: int, pos: Option<Position>)

  /** Concatenation of the token values, in order. */
  function Join(ts: seq<Token>): (s: string)
    decreases |ts|
  {
    if ts == [] then "" else Join(ts[..|ts| - 1]) + ts[|ts| - 1].value
  }

  lemma {:induction false} JoinAppend(a: seq<Token>, b: seq<Token>)
    ensures Join(a + b) == Join(a) + Join(b)
    decreases |b|
  {
    if b == [] {
      assert a + b == a;
    } else {
      assert (a + b)[..|a + b| - 1] == a + b[..|b| - 1];
      JoinAppend(a, b[..|b| - 1]);
    }
  }

  lemma JoinOne(t: Token)
    ensures Join([t]) == t.value
  {
    assert [t][..0] == [];
  }

  /** Extending a run of tokens by the token after it appends that token's value. */
  lemma JoinExtend(ts: seq<Token>, i: nat, j: nat)
    requires i <= j < |ts|
    ensures Join(ts[i..j + 1]) == Join(ts[i..j]) + ts[j].value
  {
    assert ts[i..j + 1][..j - i] == ts[i..j];
  }
}

/** The scanner the two tokenizers share: starting at offset 0, repeatedly take the token the
    first matching rule gives at the current offset; fail when no rule matches. `rules(s, i)`
    answers the type and the length of that token (length 0: no rule matches). */
module Scanner {
  import opened Wrappers
  import opened Tokens

  function LexFrom(rules: (string, nat) -> (TokenType, nat), s: string, i: nat): (r: Result<seq<Token>>)
    requires i <= |s|
    ensures r.Err? ==> r.error == TokenizerError
    decreases |s| - i
  {
    if i == |s| then Ok([])
    else
      var (kind, len) := rules(s, i);
      if len == 0 || i + len > |s| then Err(TokenizerError)
      else
        var rest :- LexFrom(rules, s, i + len);
        Ok([Token(kind, s[i..i + len], i, None)] + rest)
  }

  function Lex(rules: (string, nat) -> (TokenType, nat), s: string): Result<seq<Token>> {
    LexFrom(rules, s, 0)
  }

  /** A rule set that matches a non-empty prefix at every offset never makes the scanner fail. */
  lemma {:induction false} LexTotal(rules: (string, nat) -> (TokenType, nat), s: string, i: nat)
    requires i <= |s|
    requires forall k :: i <= k < |s| ==> 0 < rules(s, k).1 && k + rules(s, k).1 <= |s|
    ensures LexFrom(rules, s, i).Ok?
    decreases |s| - i
  {
    if i < |s| {
      LexTotal(rules, s, i + rules(s, i).1);
    }
  }

  lemma JoinCons(t: Token, ts: seq<Token>)
    ensures Join([t] + ts) == t.value + Join(ts)
  {
    JoinAppend([t], ts);
    JoinOne(t);
  }

  /** The tokens partition the input: their values, concatenated, give back the text, and each
      token's offset is where its value starts. */
  lemma LexPartitions(rules: (string, nat) -> (TokenType, nat), s: string, i: nat)
    requires i <= |s|
    requires LexFrom(rules, s, i).Ok?
    ensures Join(LexFrom(rules, s, i).value) == s[i..]
    ensures forall k :: 0 <= k < |LexFrom(rules, s, i).value| ==>
      var ts := LexFrom(rules, s, i).value;
      ts[k].offset == i + |Join(ts[..k])|
  {
    LexJoins(rules, s, i);
    LexOffsets(rules, s, i);
  }

  lemma {:induction false} LexJoins(rules: (string, nat) -> (TokenType, nat), s: string, i: nat)
    requires i <= |s|
    requires LexFrom(rules, s, i).Ok?
    ensures Join(LexFrom(rules, s, i).value) == s[i..]
    decreases |s| - i
  {
    if i < |s| {
      var (kind, len) := rules(s, i);
      var t := Token(kind, s[i..i + len], i, None);
      var rest := LexFrom(rules, s, i + len).value;
      assert LexFrom(rules, s, i).value == [t] + rest;
      LexJoins(rules, s, i + len);
      JoinCons(t, rest);
      assert s[i..] == s[i..i + len] + s[i + len..];
    }
  }

  lemma {:induction false} LexOffsets(rules: (string, nat) -> (TokenType, nat), s: string, i: nat)
    requires i <= |s|
    requires LexFrom(rules, s, i).Ok?
    ensures forall k :: 0 <= k < |LexFrom(rules, s, i).value| ==>
      var ts := LexFrom(rules, s, i).value;
      ts[k].offset == i + |Join(ts[..k])|
    decreases |s| - i
  {
    if i < |s| {
      var (kind, len) := rules(s, i);
      var t := Token(kind, s[i..i + len], i, None);
      var rest := LexFrom(rules, s, i + len).value;
      assert LexFrom(rules, s, i).value == [t] + rest;
      LexOffsets(rules, s, i + len);
      forall k | 0 <= k < |[t] + rest|
        ensures ([t] + rest)[k].offset == i + |Join(([t] + rest)[..k])|
      {
        OffsetAfter(t, rest, k);
      }
    }
  }

  /** Prefixing a token at offset `i` keeps every offset equal to `i` plus the text before it. */
  lemma OffsetAfter(t: Token, rest: seq<Token>, k: nat)
    requires k <= |rest|
    requires forall j :: 0 <= j < |rest| ==> rest[j].offset == t.offset + |t.value| + |Join(rest[..j])|
    ensures ([t] + rest)[k].offset == t.offset + |Join(([t] + rest)[..k])|
  {
    if k == 0 {
      assert ([t] + rest)[..0] == [];
    } else {
      assert ([t] + rest)[..k] == [t] + rest[..k - 1];
      JoinCons(t, rest[..k - 1]);
    }
  }

  /** A token the scanner took at its offset: the first matching rule's type and match. */
  predicate Scanned(rules: (string, nat) -> (TokenType, nat), s: string, t: Token) {
    0 <= t.offset < |s| && t.pos.None? &&
    0 < rules(s, t.offset).1 && t.offset + rules(s, t.offset).1 <= |s| &&
    t.kind == rules(s, t.offset).0 && t.value == s[t.offset..t.offset + rules(s, t.offset).1]
  }

  lemma {:induction false} LexTokens(rules: (string, nat) -> (TokenType, nat), s: string, i: nat)
    requires i <= |s|
    requires LexFrom(rules, s, i).Ok?
    ensures forall t :: t in LexFrom(rules, s, i).value ==> Scanned(rules, s, t) && i <= t.offset
    decreases |s| - i
  {
    if i < |s| {
      LexTokens(rules, s, i + rules(s, i).1);
    }
  }
}
