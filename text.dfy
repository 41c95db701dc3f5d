/**
 * The Rust string operations the git output parsers are built on: `str::lines`,
 * `starts_with`, `contains`, `split_whitespace`, `split(' ')` and the `Ord` of
 * `String`. Strings are sequences of Unicode scalar values.
 */
module Text {

  /** `char::is_whitespace`: the characters with the Unicode White_Space property. */
  predicate IsWhitespace(c: char) {
    var n := c as int;
    (9 <= n <= 13) || n == 0x20 || n == 0x85 || n == 0xA0 || n == 0x1680
    || (0x2000 <= n <= 0x200A) || n == 0x2028 || n == 0x2029 || n == 0x202F
    || n == 0x205F || n == 0x3000
  }

  predicate NoWhitespace(s: string) {
    forall i :: 0 <= i < |s| ==> !IsWhitespace(s[i])
  }

  /** `c` does not occur in `s`. */
  predicate Lacks(s: string, c: char) {
    forall i :: 0 <= i < |s| ==> s[i] != c
  }

  predicate StartsWith(s: string, prefix: string) {
    |prefix| <= |s| && s[..|prefix|] == prefix
  }

  /** `str::contains` with a string pattern: `pattern` occurs somewhere in `s`. */
  predicate Contains(s: string, pattern: string)
    decreases |s|
  {
    StartsWith(s, pattern) || (s != [] && Contains(s[1..], pattern))
  }

  /** An occurrence of a pattern can only start where its first character is. */
  lemma {:induction false} ContainsSkip(x: string, y: string, pattern: string)
    requires pattern != [] && Lacks(x, pattern[0])
    ensures Contains(x + y, pattern) <==> Contains(y, pattern)
    decreases |x|
  {
    if x == [] {
      assert x + y == y;
    } else {
      assert (x + y)[0] == x[0];
      assert !StartsWith(x + y, pattern);
      assert (x + y)[1..] == x[1..] + y;
      ContainsSkip(x[1..], y, pattern);
    }
  }

  /** An occurrence in a suffix is an occurrence in the whole. */
  lemma {:induction false} ContainsSuffix(x: string, y: string, pattern: string)
    requires Contains(y, pattern)
    ensures Contains(x + y, pattern)
    decreases |x|
  {
    if x == [] {
      assert x + y == y;
    } else {
      assert (x + y)[1..] == x[1..] + y;
      ContainsSuffix(x[1..], y, pattern);
    }
  }

  /** The index of the first `c` in `s`, or `|s|` when there is none. */
  function IndexOf(s: string, c: char): (k: nat)
    ensures k <= |s|
    ensures k < |s| ==> s[k] == c
    ensures forall i :: 0 <= i < k ==> s[i] != c
    decreases |s|
  {
    if s == [] || s[0] == c then 0 else 1 + IndexOf(s[1..], c)
  }

  /** `s.split(' ').next().unwrap()`: the text before the first space. */
  function BeforeSpace(s: string): (r: string)
    ensures StartsWith(s, r) && Lacks(r, ' ')
    ensures |r| < |s| ==> s[|r|] == ' '
  {
    s[..IndexOf(s, ' ')]
  }

  // ---------------------------------------------------------------- lines

  /** A line as `str::lines` can return it from text it splits. */
  predicate IsLine(l: string) {
    Lacks(l, '\n') && (l == [] || l[|l| - 1] != '\r')
  }

  function StripCarriageReturn(l: string): string {
    if l != [] && l[|l| - 1] == '\r' then l[..|l| - 1] else l
  }

  /**
   * `str::lines`: the text is cut after every '\n'; the '\n', and a '\r' just
   * before it, are dropped; a last line without '\n' is kept as it is.
   */
  function Lines(s: string): seq<string>
    decreases |s|
  {
    if s == [] then []
    else
      var k := IndexOf(s, '\n');
      if k == |s| then [s]
      else [StripCarriageReturn(s[..k])] + Lines(s[k + 1..])
  }

  /** Text made of the given lines, each ended by '\n', as git prints it. */
  function Unlines(lines: seq<string>): string {
    if lines == [] then [] else lines[0] + "\n" + Unlines(lines[1..])
  }

  lemma {:induction false} LinesUnlines(lines: seq<string>)
    requires forall i :: 0 <= i < |lines| ==> IsLine(lines[i])
    ensures Lines(Unlines(lines)) == lines
  {
    if lines != [] {
      var l, s := lines[0], Unlines(lines);
      assert s == l + ("\n" + Unlines(lines[1..]));
      assert s[|l|] == '\n';
      assert IndexOf(s, '\n') == |l| by {
        assert IsLine(l);
        assert forall i :: 0 <= i < |l| ==> s[i] == l[i];
      }
      assert s[..|l|] == l;
      assert s[|l| + 1..] == Unlines(lines[1..]);
      LinesUnlines(lines[1..]);
    }
  }

  // ---------------------------------------------------- split_whitespace

  /** `str::trim_start`: `s` without its leading whitespace. */
  function TrimStart(s: string): (r: string)
    ensures |r| <= |s| && r == s[|s| - |r|..]
    ensures r == [] || !IsWhitespace(r[0])
    ensures forall i :: 0 <= i < |s| - |r| ==> IsWhitespace(s[i])
    decreases |s|
  {
    if s != [] && IsWhitespace(s[0]) then TrimStart(s[1..]) else s
  }

  /** The length of the run of non-whitespace characters that starts `s`. */
  function TokenEnd(s: string): (k: nat)
    ensures k <= |s|
    ensures k < |s| ==> IsWhitespace(s[k])
    ensures forall i :: 0 <= i < k ==> !IsWhitespace(s[i])
    decreases |s|
  {
    if s == [] || IsWhitespace(s[0]) then 0 else 1 + TokenEnd(s[1..])
  }

  /** `str::split_whitespace`: the maximal runs of non-whitespace characters, in order. */
  function SplitWhitespace(s: string): (tokens: seq<string>)
    ensures forall token :: token in tokens ==> token != [] && NoWhitespace(token)
    decreases |s|
  {
    var t := TrimStart(s);
    if t == [] then []
    else
      var k := TokenEnd(t);
      FirstToken(t);
      [t[..k]] + SplitWhitespace(t[k..])
  }

  /** A string that starts with a non-whitespace character starts with a non-empty token. */
  lemma FirstToken(t: string)
    requires t != [] && !IsWhitespace(t[0])
    ensures 0 < TokenEnd(t) && NoWhitespace(t[..TokenEnd(t)])
  {
    var k := TokenEnd(t);
    forall i | 0 <= i < k ensures !IsWhitespace(t[..k][i]) {
      assert t[..k][i] == t[i];
    }
  }

  lemma {:induction false} TokenEndAppend(token: string, rest: string)
    requires NoWhitespace(token)
    requires rest == [] || IsWhitespace(rest[0])
    ensures TokenEnd(token + rest) == |token|
    decreases |token|
  {
    if token == [] {
      assert token + rest == rest;
    } else {
      assert (token + rest)[1..] == token[1..] + rest;
      TokenEndAppend(token[1..], rest);
    }
  }

  /** A token followed by whitespace (or by nothing) is the first token. */
  lemma SplitWhitespaceToken(token: string, rest: string)
    requires token != [] && NoWhitespace(token)
    requires rest == [] || IsWhitespace(rest[0])
    ensures SplitWhitespace(token + rest) == [token] + SplitWhitespace(rest)
  {
    var s := token + rest;
    assert s[0] == token[0];
    assert TrimStart(s) == s;
    TokenEndAppend(token, rest);
    assert s[..|token|] == token && s[|token|..] == rest;
  }

  /** Whitespace before the first token is skipped. */
  lemma SplitWhitespaceSkip(c: char, rest: string)
    requires IsWhitespace(c)
    ensures SplitWhitespace([c] + rest) == SplitWhitespace(rest)
  {
    assert ([c] + rest)[1..] == rest;
  }

  /** Two tokens, each followed by a space, are the first two tokens. */
  lemma TwoTokens(x: string, y: string, rest: string)
    requires x != [] && NoWhitespace(x) && y != [] && NoWhitespace(y)
    ensures var tokens := SplitWhitespace(x + (" " + (y + (" " + rest))));
            |tokens| >= 2 && tokens[0] == x && tokens[1] == y
  {
    var afterY := " " + rest;
    var afterSpace := y + afterY;
    assert IsWhitespace(' ');
    SplitWhitespaceToken(y, afterY);
    SplitWhitespaceSkip(' ', afterSpace);
    SplitWhitespaceToken(x, " " + afterSpace);
  }

  // ------------------------------------------------------- String ordering

  /** `Ord` of `String`: lexicographic on code points, which is the order of their UTF-8 bytes. */
  predicate LessEq(a: string, b: string)
    decreases |a|
  {
    a == [] || (b != [] && (a[0] < b[0] || (a[0] == b[0] && LessEq(a[1..], b[1..]))))
  }

  lemma {:induction false} LessEqReflexive(a: string)
    ensures LessEq(a, a)
    decreases |a|
  {
    if a != [] {
      LessEqReflexive(a[1..]);
    }
  }

  lemma {:induction false} LessEqTotal(a: string, b: string)
    ensures LessEq(a, b) || LessEq(b, a)
    decreases |a|
  {
    if a != [] && b != [] && a[0] == b[0] {
      LessEqTotal(a[1..], b[1..]);
    }
  }

  lemma {:induction false} LessEqTransitive(a: string, b: string, c: string)
    requires LessEq(a, b) && LessEq(b, c)
    ensures LessEq(a, c)
    decreases |a|
  {
    if a != [] && a[0] == b[0] && b[0] == c[0] {
      LessEqTransitive(a[1..], b[1..], c[1..]);
    }
  }

  lemma {:induction false} LessEqAntisymmetric(a: string, b: string)
    requires LessEq(a, b) && LessEq(b, a)
    ensures a == b
    decreases |a|
  {
    if a != [] && b != [] {
      LessEqAntisymmetric(a[1..], b[1..]);
      assert a == [a[0]] + a[1..] && b == [b[0]] + b[1..];
    }
  }
}
