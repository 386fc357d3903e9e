/** The token cursor: the assumed Nette base (a token sequence and a `position` starting at -1)
    and the extensions `without`, `lookahead` and `slice` of TokenIterator.php. */
module TokenStream {
  import opened Wrappers
  import opened Tokens

  /** `isNext(...$types)` on a token sequence: the token after `position` exists and, when any
      types are given, has one of them. With no types it only tests that a token exists. */
  predicate NextIs(ts: seq<Token>, position: int, types: seq<TokenType>) {
    KindAt(ts, position + 1, types)
  }

  /** Token `k` exists and, when any types are given, has one of them. */
  predicate KindAt(ts: seq<Token>, k: int, types: seq<TokenType>) {
    0 <= k < |ts| && (types == [] || ts[k].kind in types)
  }

  /** No token after `lo` up to and including `hi` has one of the types. */
  predicate NoneOfBetween(ts: seq<Token>, lo: int, hi: int, types: seq<TokenType>) {
    forall k :: lo < k <= hi && 0 <= k < |ts| ==> ts[k].kind !in types
  }

  /** The range grows by the next token when that token has none of the types. */
  lemma NoneOfBetweenExtend(ts: seq<Token>, lo: int, hi: int, types: seq<TokenType>)
    requires NoneOfBetween(ts, lo, hi, types) && types != [] && !NextIs(ts, hi, types)
    ensures NoneOfBetween(ts, lo, hi + 1, types)
  {
  }

  /** The tokens `without(...$types)` keeps: those whose type is not listed, in order. */
  function Kept(ts: seq<Token>, types: seq<TokenType>): (r: seq<Token>)
    ensures |r| <= |ts|
    ensures forall t :: t in r <==> t in ts && t.kind !in types
    decreases |ts|
  {
    if ts == [] then []
    else Kept(ts[..|ts| - 1], types) + (if ts[|ts| - 1].kind in types then [] else [ts[|ts| - 1]])
  }

  /** `without` distributes over concatenation: the kept tokens of a prefix come first, so the
      original order is preserved. */
  lemma {:induction false} KeptAppend(a: seq<Token>, b: seq<Token>, types: seq<TokenType>)
    ensures Kept(a + b, types) == Kept(a, types) + Kept(b, types)
    decreases |b|
  {
    if b == [] {
      assert a + b == a;
    } else {
      assert (a + b)[..|a + b| - 1] == a + b[..|b| - 1];
      KeptAppend(a, b[..|b| - 1], types);
    }
  }

  /** The position the cloned cursor of `lookahead` reaches: it advances while the next token is
      of an ignored type (with no ignored types: while any token follows). */
  function SkipWhile(ts: seq<Token>, position: int, ignore: seq<TokenType>): (q: int)
    requires -1 <= position <= |ts|
    ensures position <= q <= |ts|
    ensures !NextIs(ts, q, ignore)
    ensures forall k :: position < k <= q ==> KindAt(ts, k, ignore)
    decreases |ts| - position
  {
    if NextIs(ts, position, ignore) then
      SkipWhile(ts, position + 1, ignore)
    else position
  }

  /** `$lookingFor` is a type or a list of types; a scalar behaves as a one-element list. */
  datatype Wanted = One(t: TokenType) | Many(ts: seq<TokenType>)

  function AsList(w: Wanted): (r: seq<TokenType>)
    ensures w.One? ==> r == [w.t]
    ensures w.Many? ==> r == w.ts
  {
    match w
    case One(t) => [t]
    case Many(ts) => ts
  }

  /** Where `lookahead` leaves its copy, or None when it returns null. */
  function LookaheadPosition(ts: seq<Token>, position: int, lookingFor: Wanted, ignore: seq<TokenType>): (r: Option<int>)
    requires -1 <= position <= |ts|
    ensures r.Some? <==> NextIs(ts, SkipWhile(ts, position, ignore), AsList(lookingFor))
    ensures r.Some? ==> position <= r.value < |ts| - 1
    ensures r.Some? ==> forall k :: position < k <= r.value ==> KindAt(ts, k, ignore)
    ensures r.Some? ==> KindAt(ts, r.value + 1, AsList(lookingFor))
  {
    var q := SkipWhile(ts, position, ignore);
    if NextIs(ts, q, AsList(lookingFor)) then Some(q) else None
  }

  /** With no ignored types the copy runs to the end, so `lookahead` returns null. */
  lemma LookaheadWithoutIgnoreIsNull(ts: seq<Token>, position: int, lookingFor: Wanted)
    requires -1 <= position <= |ts|
    ensures LookaheadPosition(ts, position, lookingFor, []) == None
  {
    var q := SkipWhile(ts, position, []);
    assert !NextIs(ts, q, []);
  }

  /** `array_slice($ts, $offset, $length)` with PHP's rules for negative arguments. */
  function ArraySlice<T>(ts: seq<T>, offset: int, length: int): (r: seq<T>)
    ensures |r| <= |ts|
    ensures 0 <= length ==> |r| <= length
    ensures 0 < |ts| && length < |ts| ==> |r| < |ts|
    ensures 0 <= offset && 0 <= length && offset + length <= |ts| ==> r == ts[offset..offset + length]
  {
    var c := |ts|;
    var start := if offset >= 0 then (if offset < c then offset else c) else (if c + offset > 0 then c + offset else 0);
    var end := if length >= 0 then (if start + length < c then start + length else c)
               else (if c + length > start then c + length else start);
    ts[start..end]
  }

  /** The string constant of each token type: the `TOKEN_*` values of Tokenizer.php and the
      rule names of LatexMacroExpansion.php. */
  function TypeName(k: TokenType): string {
    match k
    case Comment => "comment"
    case CurlyLeftEscaped => "brace_curly_left_escaped"
    case CurlyLeft => "brace_curly_left"
    case CurlyRightEscaped => "brace_curly_right_escaped"
    case CurlyRight => "brace_curly_right"
    case SquareLeftEscaped => "brace_square_left_escaped"
    case SquareLeft => "brace_square_left"
    case SquareRightEscaped => "brace_square_right_escaped"
    case SquareRight => "brace_square_right"
    case MathBlock => "math_block"
    case MathInline => "math_inline"
    case CommandBegin => "command_begin"
    case CommandEnd => "command_end"
    case CommandSection => "command_section"
    case CommandSubsection => "command_subsection"
    case Command => "command"
    case Pipe => "pipe"
    case Tilda => "tilda"
    case Equals => "equals"
    case Comma => "comma"
    case Backslash => "backslash"
    case Newline => "newline"
    case Whitespace => "whitespace"
    case String => "string"
    case BraceLeft => "brace_left"
    case BraceRight => "brace_right"
    case Other => "other"
    case Replacement => "replacement"
  }

  /** The test that ends a `nextUntil` walk. Nette's `scan` accepts a token whose value OR type
      is among the wanted ones (`byValue`); the cursor below compares the type only. */
  predicate Stops(t: Token, types: seq<TokenType>, byValue: bool) {
    t.kind in types || (byValue && exists i :: 0 <= i < |types| && t.value == TypeName(types[i]))
  }

  /** The index of the first token that stops the walk, or `|ts|`. */
  function StopAt(ts: seq<Token>, types: seq<TokenType>, byValue: bool): (n: nat)
    ensures n <= |ts|
    ensures forall k :: 0 <= k < n ==> !Stops(ts[k], types, byValue)
    ensures n < |ts| ==> Stops(ts[n], types, byValue)
    decreases |ts|
  {
    if ts == [] || Stops(ts[0], types, byValue) then 0 else 1 + StopAt(ts[1..], types, byValue)
  }

  /** The first stopping token is unique: any index with nothing stopping before it and a stop
      (or the end) at it is `StopAt`. */
  lemma StopAtUnique(ts: seq<Token>, types: seq<TokenType>, byValue: bool, n: nat)
    requires n <= |ts|
    requires forall k :: 0 <= k < n ==> !Stops(ts[k], types, byValue)
    requires n < |ts| ==> Stops(ts[n], types, byValue)
    ensures StopAt(ts, types, byValue) == n
  {
  }

  /** What `joinUntil` returns on the tokens after the cursor. */
  function JoinBefore(ts: seq<Token>, types: seq<TokenType>, byValue: bool): string {
    Join(ts[..StopAt(ts, types, byValue)])
  }

  /** When no token's value spells a wanted type's name, matching by value changes nothing. */
  lemma ValueMatchAgrees(ts: seq<Token>, types: seq<TokenType>)
    requires forall k, i :: 0 <= k < |ts| && 0 <= i < |types| ==> ts[k].value != TypeName(types[i])
    ensures StopAt(ts, types, true) == StopAt(ts, types, false)
    ensures JoinBefore(ts, types, true) == JoinBefore(ts, types, false)
  {
    var n := StopAt(ts, types, false);
    forall k | 0 <= k < |ts| ensures Stops(ts[k], types, true) == Stops(ts[k], types, false) {
      assert forall i :: 0 <= i < |types| ==> ts[k].value != TypeName(types[i]);
    }
    StopAtUnique(ts, types, true, n);
  }

  /** The tokens of an inline formula `$a=w=b$` after its opening `$` at offset 0: string `a`,
      `=`, string `w`, `=`, string `b` and the closing `$` (the string rule stops at `=`). */
  function WordFormula(a: string, w: string, b: string): (ts: seq<Token>)
    ensures |ts| == 6 && ts[5].kind == MathInline
  {
    [Token(String, a, 1, None), Token(Equals, "=", 1 + |a|, None), Token(String, w, 2 + |a|, None),
     Token(Equals, "=", 2 + |a| + |w|, None), Token(String, b, 3 + |a| + |w|, None),
     Token(MathInline, "$", 3 + |a| + |w| + |b|, None)]
  }

  /** Matching by value, as Nette's `joinUntil('math_inline')` does, the walk over `$a=w=b$` with
      `w` the word `math_inline` stops at that word and gives `a=` (`$a=math_inline=b$` gives `a=`). */
  lemma FormulaCutByValue(a: string, w: string, b: string)
    requires a != TypeName(MathInline) && w == TypeName(MathInline)
    ensures JoinBefore(WordFormula(a, w, b), [MathInline], true) == a + "="
  {
    var ts := WordFormula(a, w, b);
    assert [MathInline][0] == MathInline;
    assert Stops(ts[2], [MathInline], true);
    assert !Stops(ts[1], [MathInline], true) by {
      assert "=" != TypeName(MathInline) by { assert "="[0] != TypeName(MathInline)[0]; }
    }
    StopAtUnique(ts, [MathInline], true, 2);
    assert ts[..2][..1] == [ts[0]];
    JoinOne(ts[0]);
  }

  /** The join of five tokens, value after value. */
  lemma JoinFive(t0: Token, t1: Token, t2: Token, t3: Token, t4: Token)
    ensures Join([t0, t1, t2, t3, t4]) == t0.value + t1.value + t2.value + t3.value + t4.value
  {
    JoinOne(t0);
    assert [t0, t1][..1] == [t0];
    assert Join([t0, t1]) == t0.value + t1.value;
    assert [t0, t1, t2][..2] == [t0, t1];
    assert Join([t0, t1, t2]) == t0.value + t1.value + t2.value;
    assert [t0, t1, t2, t3][..3] == [t0, t1, t2];
    assert Join([t0, t1, t2, t3]) == t0.value + t1.value + t2.value + t3.value;
    assert [t0, t1, t2, t3, t4][..4] == [t0, t1, t2, t3];
  }

  /** Matching by type, the walk over `$a=w=b$` reaches the closing `$` and gives the whole
      formula, whatever its words (`$a=math_inline=b$` gives `a=math_inline=b`). */
  lemma FormulaWholeByType(a: string, w: string, b: string)
    ensures JoinBefore(WordFormula(a, w, b), [MathInline], false) == a + "=" + w + "=" + b
  {
    var ts := WordFormula(a, w, b);
    StopAtUnique(ts, [MathInline], false, 5);
    assert ts[..5] == [ts[0], ts[1], ts[2], ts[3], ts[4]];
    JoinFive(ts[0], ts[1], ts[2], ts[3], ts[4]);
  }

  /** A word `command` inside a math body stops Nette's `nextUntil(TOKEN_COMMAND, ...)`, and
      does not stop the walk by type. */
  lemma CommandWordStopsWalk(t: Token)
    requires t.kind == String && t.value == "command"
    ensures Stops(t, [Command, CommandBegin, CommandEnd], true)
    ensures !Stops(t, [Command, CommandBegin, CommandEnd], false)
  {
    assert [Command, CommandBegin, CommandEnd][0] == Command && TypeName(Command) == "command";
  }

  class TokenIterator {
    var tokens: seq<Token>
    var position: int

    ghost predicate Valid()
      reads this
    {
      -1 <= position <= |tokens|
    }

    constructor (tokens: seq<Token>)
      ensures Valid() && this.tokens == tokens && position == -1
    {
      this.tokens := tokens;
      this.position := -1;
    }

    predicate IsNext(types: seq<TokenType>)
      reads this
    {
      NextIs(tokens, position, types)
    }

    /** The value at `position`, or null. */
    function CurrentValue(): (v: Option<string>)
      reads this
      ensures v.Some? <==> 0 <= position < |tokens|
      ensures v.Some? ==> v.value == tokens[position].value
    {
      if 0 <= position < |tokens| then Some(tokens[position].value) else None
    }

    /** `nextToken()`: advance by one and return that token; at the end return nothing, moving
        `position` once onto `count($tokens)`. */
    method NextToken() returns (t: Option<Token>)
      requires Valid()
      modifies this
      ensures Valid() && tokens == old(tokens)
      ensures old(position) + 1 < |tokens| ==> t == Some(tokens[old(position) + 1]) && position == old(position) + 1
      ensures old(position) + 1 >= |tokens| ==> t == None && position == |tokens|
    {
      if position + 1 < |tokens| {
        position := position + 1;
        t := Some(tokens[position]);
      } else {
        position := |tokens|;
        t := None;
      }
    }

    /** `nextValue()`: like `nextToken()`, returning the value ('' at the end). */
    method NextValue() returns (v: string)
      requires Valid()
      modifies this
      ensures Valid() && tokens == old(tokens)
      ensures old(position) + 1 < |tokens| ==> v == tokens[old(position) + 1].value && position == old(position) + 1
      ensures old(position) + 1 >= |tokens| ==> v == "" && position == |tokens|
    {
      var t := NextToken();
      v := if t.Some? then t.value.value else "";
    }

    /** `nextUntil(...$types)`: skip, and return, the tokens before the first one of a given
        type (or the end). */
    method NextUntil(types: seq<TokenType>) returns (skipped: seq<Token>)
      requires Valid() && types != []
      modifies this
      ensures Valid() && tokens == old(tokens)
      ensures old(position) == |tokens| ==> skipped == [] && position == |tokens|
      ensures old(position) < |tokens| ==>
        && old(position) <= position < |tokens|
        && skipped == tokens[old(position) + 1..position + 1]
        && (forall k :: old(position) < k <= position ==> tokens[k].kind !in types)
        && (position + 1 == |tokens| || tokens[position + 1].kind in types)
    {
      skipped := [];
      if position == |tokens| {
        return;
      }
      var start := position;
      while position + 1 < |tokens| && tokens[position + 1].kind !in types
        invariant start <= position < |tokens|
        invariant tokens == old(tokens) && start == old(position)
        invariant skipped == tokens[start + 1..position + 1]
        invariant forall k :: start < k <= position ==> tokens[k].kind !in types
        decreases |tokens| - position
      {
        position := position + 1;
        skipped := skipped + [tokens[position]];
      }
    }

    /** `joinUntil(...$types)`: the same walk, concatenating the skipped values. */
    method JoinUntil(types: seq<TokenType>) returns (s: string)
      requires Valid() && types != []
      modifies this
      ensures Valid() && tokens == old(tokens)
      ensures old(position) == |tokens| ==> s == "" && position == |tokens|
      ensures old(position) < |tokens| ==>
        && old(position) <= position < |tokens|
        && s == Join(tokens[old(position) + 1..position + 1])
        && (forall k :: old(position) < k <= position ==> tokens[k].kind !in types)
        && (position + 1 == |tokens| || tokens[position + 1].kind in types)
      ensures old(position) < |tokens| ==> s == JoinBefore(tokens[old(position) + 1..], types, false)
    {
      var skipped := NextUntil(types);
      s := Join(skipped);
      if old(position) < |tokens| {
        var rest := tokens[old(position) + 1..];
        assert forall k :: 0 <= k < position - old(position) ==> rest[k] == tokens[old(position) + 1 + k];
        StopAtUnique(rest, types, false, position - old(position));
        assert rest[..position - old(position)] == skipped;
      }
    }

    /** `without(...$types)`: a fresh cursor over the tokens of other types, reindexed from 0;
        the receiver is not modified. */
    method Without(types: seq<TokenType>) returns (r: TokenIterator)
      ensures fresh(r) && r.Valid()
      ensures r.tokens == Kept(tokens, types) && r.position == -1
    {
      r := new TokenIterator(Kept(tokens, types));
    }

    /** `lookahead($lookingFor, ...$ignore)`: advance a clone past ignored tokens and return it
        when the next token is one looked for, else null; the receiver is not modified. */
    method Lookahead(lookingFor: Wanted, ignore: seq<TokenType>) returns (r: TokenIterator?)
      requires Valid()
      ensures r == null <==> LookaheadPosition(tokens, position, lookingFor, ignore).None?
      ensures r != null ==> fresh(r) && r.Valid() && r.tokens == tokens
      ensures r != null ==> r.position == LookaheadPosition(tokens, position, lookingFor, ignore).value
    {
      var copy := new TokenIterator(tokens);
      copy.position := position;
      while copy.IsNext(ignore)
        invariant fresh(copy) && copy.Valid() && copy.tokens == tokens
        invariant position <= copy.position
        invariant SkipWhile(tokens, copy.position, ignore) == SkipWhile(tokens, position, ignore)
        decreases |tokens| - copy.position
      {
        var _ := copy.NextToken();
      }
      var wanted := AsList(lookingFor);
      r := if copy.IsNext(wanted) then copy else null;
    }

    /** `slice($offset, $length)`: a fresh cursor over `array_slice` of the tokens, with the
        position reset to -1; the receiver is not modified. */
    method Slice(offset: int, length: int) returns (r: TokenIterator)
      ensures fresh(r) && r.Valid()
      ensures r.tokens == ArraySlice(tokens, offset, length) && r.position == -1
    {
      r := new TokenIterator(ArraySlice(tokens, offset, length));
    }
  }
}
