/** The PHP string built-ins the core relies on, written out over `seq<char>` (ASCII semantics,
    as PHP's byte-oriented functions have for the documents this converter reads). */
module StringUtils {

  /** `str_replace($from, $to, $s)` for a one-character needle. */
  function ReplaceChar(s: string, from: char, to: char): (r: string)
    ensures |r| == |s|
    ensures forall i :: 0 <= i < |s| ==> r[i] == (if s[i] == from then to else s[i])
  {
    if s == [] then [] else [if s[0] == from then to else s[0]] + ReplaceChar(s[1..], from, to)
  }

  lemma {:induction false} ReplaceCharAppend(a: string, b: string, from: char, to: char)
    ensures ReplaceChar(a + b, from, to) == ReplaceChar(a, from, to) + ReplaceChar(b, from, to)
  {
    var r := ReplaceChar(a + b, from, to);
    var q := ReplaceChar(a, from, to) + ReplaceChar(b, from, to);
    assert |r| == |q|;
    forall i | 0 <= i < |r| ensures r[i] == q[i] {
      if i < |a| { assert (a + b)[i] == a[i]; } else { assert (a + b)[i] == b[i - |a|]; }
    }
  }

  /** `str_replace($needle, $rep, $s)` for a two-character needle: a left-to-right scan that
      replaces non-overlapping occurrences. */
  function ReplacePair(s: string, n0: char, n1: char, rep: string): (r: string)
    ensures (forall k :: 0 <= k < |s| - 1 ==> !(s[k] == n0 && s[k + 1] == n1)) ==> r == s
    ensures |rep| == 2 ==> |r| == |s|
    ensures StartsWith(s, [n0, n1]) ==> StartsWith(r, rep)
    decreases |s|
  {
    if |s| < 2 then s
    else if s[0] == n0 && s[1] == n1 then rep + ReplacePair(s[2..], n0, n1, rep)
    else [s[0]] + ReplacePair(s[1..], n0, n1, rep)
  }

  /** No needle starts inside `a` when `n0` follows it: in `a + [n0, n1] + b` the needle right
      after `a` is the first. */
  predicate NoNeedleBefore(a: string, n0: char, n1: char) {
    forall k :: 0 <= k < |a| ==> !((a + [n0])[k] == n0 && (a + [n0])[k + 1] == n1)
  }

  /** The scan splits at the first needle: the text before it is copied, the needle becomes
      `rep`, and the scan resumes after it. With the needle-free case of `ReplacePair`'s own
      contract this fixes the result on every input. */
  lemma ReplacePairSplit(a: string, b: string, n0: char, n1: char, rep: string)
    requires NoNeedleBefore(a, n0, n1)
    ensures ReplacePair(a + [n0, n1] + b, n0, n1, rep) == a + rep + ReplacePair(b, n0, n1, rep)
  {
    var s := a + [n0, n1] + b;
    var i := |a|;
    forall k | 0 <= k < i ensures !(s[k] == n0 && s[k + 1] == n1) {
      assert s[k] == (a + [n0])[k] && s[k + 1] == (a + [n0])[k + 1];
    }
    ReplacePairAt(s, i, n0, n1, rep);
    assert s[..i] == a && s[i + 2..] == b;
  }

  /** `ReplacePairSplit` for the first needle at index `i` of `s`. */
  lemma {:induction false} ReplacePairAt(s: string, i: nat, n0: char, n1: char, rep: string)
    requires i + 1 < |s| && s[i] == n0 && s[i + 1] == n1
    requires forall k :: 0 <= k < i ==> !(s[k] == n0 && s[k + 1] == n1)
    ensures ReplacePair(s, n0, n1, rep) == s[..i] + rep + ReplacePair(s[i + 2..], n0, n1, rep)
    decreases i
  {
    if i > 0 {
      var t := s[1..];
      forall k | 0 <= k < i - 1 ensures !(t[k] == n0 && t[k + 1] == n1) {
        assert t[k] == s[k + 1] && t[k + 1] == s[k + 2];
      }
      ReplacePairAt(t, i - 1, n0, n1, rep);
      ReplacePairShift(s, t, i, n0, n1, rep);
    }
  }

  /** One step of `ReplacePairAt`: a first character that does not start the needle is copied
      in front of the split of the rest `t`. */
  lemma ReplacePairShift(s: string, t: string, i: nat, n0: char, n1: char, rep: string)
    requires 0 < i && i + 1 < |s| && t == s[1..] && !(s[0] == n0 && s[1] == n1)
    requires ReplacePair(t, n0, n1, rep) == t[..i - 1] + rep + ReplacePair(t[i + 1..], n0, n1, rep)
    ensures ReplacePair(s, n0, n1, rep) == s[..i] + rep + ReplacePair(s[i + 2..], n0, n1, rep)
  {
    ReplacePairCopies(s, n0, n1, rep);
    SliceAfterHead(s, t, i);
    PrependRegroups([s[0]], t[..i - 1], rep, ReplacePair(t[i + 1..], n0, n1, rep));
  }

  /** How the slices of `s` around index `i` read in its tail `t`. */
  lemma SliceAfterHead(s: string, t: string, i: nat)
    requires 0 < i && i + 1 < |s| && t == s[1..]
    ensures s[..i] == [s[0]] + t[..i - 1] && t[i + 1..] == s[i + 2..]
  {
  }

  lemma PrependRegroups(h: string, x: string, y: string, z: string)
    ensures h + (x + y + z) == (h + x) + y + z
  {
  }

  /** Where the text does not start with the needle, its first character is copied. */
  lemma ReplacePairCopies(s: string, n0: char, n1: char, rep: string)
    requires |s| >= 2 && !(s[0] == n0 && s[1] == n1)
    ensures ReplacePair(s, n0, n1, rep) == [s[0]] + ReplacePair(s[1..], n0, n1, rep)
  {
  }

  predicate IsAsciiUpper(c: char) { 'A' <= c <= 'Z' }
  predicate IsAsciiLetter(c: char) { 'a' <= c <= 'z' || 'A' <= c <= 'Z' }
  predicate IsAsciiAlnum(c: char) { IsAsciiLetter(c) || '0' <= c <= '9' }
  predicate IsDigit(c: char) { '0' <= c <= '9' }

  function LowerChar(c: char): char {
    if IsAsciiUpper(c) then (c as int + 32) as char else c
  }

  /** `strtolower` (ASCII). */
  function ToLower(s: string): (r: string)
    ensures |r| == |s|
    ensures forall i :: 0 <= i < |s| ==> r[i] == LowerChar(s[i])
  {
    if s == [] then [] else [LowerChar(s[0])] + ToLower(s[1..])
  }

  /** Case-insensitive (ASCII) prefix test: `stripos($s, $p) === 0`. */
  predicate StartsWithCI(s: string, p: string) {
    |p| <= |s| && ToLower(s[..|p|]) == ToLower(p)
  }

  predicate StartsWith(s: string, p: string) {
    |p| <= |s| && s[..|p|] == p
  }

  /** The characters PHP's `trim` removes by default. */
  const TrimCharacters: string := " \t\n\r\0\U{B}"

  /** How many leading characters of `s` are in `chars`. */
  function LeftSpan(s: string, chars: string): (n: nat)
    ensures n <= |s|
    ensures forall i :: 0 <= i < n ==> s[i] in chars
    ensures n < |s| ==> s[n] !in chars
  {
    if s != [] && s[0] in chars then 1 + LeftSpan(s[1..], chars) else 0
  }

  /** How many trailing characters of `s` are in `chars`. */
  function RightSpan(s: string, chars: string): (n: nat)
    ensures n <= |s|
    ensures forall i :: |s| - n <= i < |s| ==> s[i] in chars
    ensures n < |s| ==> s[|s| - n - 1] !in chars
  {
    if s != [] && s[|s| - 1] in chars then 1 + RightSpan(s[..|s| - 1], chars) else 0
  }

  /** `ltrim($s, $chars)`. */
  function TrimLeft(s: string, chars: string): string {
    s[LeftSpan(s, chars)..]
  }

  /** `rtrim($s, $chars)`. */
  function TrimRight(s: string, chars: string): string {
    s[..|s| - RightSpan(s, chars)]
  }

  /** `ltrim` then `rtrim` keep one contiguous piece `r` of `s`, starting after the `l` leading
      listed characters, that neither starts nor ends with a listed character, and everything
      cut away around it is listed. */
  lemma TrimBothEnds(s: string, chars: string, l: nat, r: string)
    requires l == LeftSpan(s, chars) && r == TrimRight(TrimLeft(s, chars), chars)
    ensures l + |r| <= |s| && s[l..l + |r|] == r
    ensures r == [] || (r[0] !in chars && r[|r| - 1] !in chars)
    ensures forall i :: 0 <= i < l ==> s[i] in chars
    ensures forall i :: l + |r| <= i < |s| ==> s[i] in chars
  {
    var t := s[l..];
    var k := RightSpan(t, chars);
    assert r == t[..|t| - k];
    TrimmedPiece(s, chars, l, t, k, r);
  }

  /** `TrimBothEnds` with the rest `t` after the left span and its right span `k` named. */
  lemma TrimmedPiece(s: string, chars: string, l: nat, t: string, k: nat, r: string)
    requires l <= |s| && t == s[l..] && (t != [] ==> t[0] !in chars)
    requires k <= |t| && (forall i :: |t| - k <= i < |t| ==> t[i] in chars)
    requires k < |t| ==> t[|t| - k - 1] !in chars
    requires r == t[..|t| - k]
    ensures l + |r| <= |s| && s[l..l + |r|] == r
    ensures r == [] || (r[0] !in chars && r[|r| - 1] !in chars)
    ensures forall i :: l + |r| <= i < |s| ==> s[i] in chars
  {
    assert s[l..l + |r|] == r;
    forall i | l + |r| <= i < |s| ensures s[i] in chars {
      assert s[i] == t[i - l];
    }
    if r != [] {
      assert r[0] == t[0];
      assert r[|r| - 1] == t[|t| - k - 1];
    }
  }

  /** `trim($s)` with PHP's default character list. */
  function Trim(s: string): string {
    TrimRight(TrimLeft(s, TrimCharacters), TrimCharacters)
  }

  /** `ltrim($s, '\\')`. */
  function LTrimBackslashes(s: string): string {
    TrimLeft(s, "\\")
  }

  /** `trim($s, '-')`. */
  function TrimDashes(s: string): string {
    TrimRight(TrimLeft(s, "-"), "-")
  }

  /** `substr_count($s, "\n")` for one character. */
  function CountChar(s: string, c: char): (n: nat)
    ensures n <= |s|
    ensures n == 0 <==> c !in s
  {
    if s == [] then 0 else (if s[0] == c then 1 else 0) + CountChar(s[1..], c)
  }

  lemma {:induction false} CountCharAppend(a: string, b: string, c: char)
    ensures CountChar(a + b, c) == CountChar(a, c) + CountChar(b, c)
  {
    if a != [] {
      assert (a + b)[1..] == a[1..] + b;
      CountCharAppend(a[1..], b, c);
    } else {
      assert a + b == b;
    }
  }

  /** `explode($sep, $s, 2)[0]`: the text before the first separator, or all of it. */
  function Before(s: string, sep: char): (r: string)
    ensures StartsWith(s, r)
    ensures sep !in r
    ensures |r| < |s| ==> s[|r|] == sep
    ensures sep !in s ==> r == s
  {
    if s == [] || s[0] == sep then [] else [s[0]] + Before(s[1..], sep)
  }

  /** The digits of a decimal numeral, as an integer (`$m['n']` used as a number). */
  function DecimalValue(digits: string): (r: nat)
    ensures |digits| == 1 && IsDigit(digits[0]) ==> r == digits[0] as int - '0' as int
    decreases |digits|
  {
    if digits == [] then 0
    else DecimalValue(digits[..|digits| - 1]) * 10 + (if IsDigit(digits[|digits| - 1]) then digits[|digits| - 1] as int - '0' as int else 0)
  }

  /** The decimal numeral of `n`, without leading zeros. */
  function Digits(n: nat): (r: string)
    ensures r != [] && forall k :: 0 <= k < |r| ==> IsDigit(r[k])
    ensures n > 0 ==> r[0] != '0'
  {
    if n < 10 then [('0' as int + n) as char] else Digits(n / 10) + [('0' as int + n % 10) as char]
  }

  /** Reading back the numeral of `n` gives `n`. */
  lemma {:induction false} DecimalDigits(n: nat)
    ensures DecimalValue(Digits(n)) == n
  {
    var d := Digits(n);
    if n >= 10 {
      DecimalDigits(n / 10);
      assert d[..|d| - 1] == Digits(n / 10);
    } else {
      assert d[..0] == [];
    }
  }
}
