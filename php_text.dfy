/**
 * The PHP string built-ins the integration relies on (`implode`, `explode`,
 * `trim` with a character list, a literal `preg_replace`), over strings of
 * Unicode code points. Every character the code trims or splits on is ASCII,
 * so working on code points agrees with PHP working on UTF-8 bytes.
 */
module PhpText {

  /** The characters `trim($s)` strips when no character list is given. */
  const PhpWhitespace: set<char> := {' ', '\t', '\n', '\r', '\0', '\U{B}'}

  /** The character list `'"` passed to `trim` when unquoting entrypoints. */
  const Quotes: set<char> := {'\'', '"'}

  predicate StartsWith(s: string, prefix: string) {
    |prefix| <= |s| && s[..|prefix|] == prefix
  }

  predicate EndsWith(s: string, suffix: string) {
    |suffix| <= |s| && s[|s| - |suffix|..] == suffix
  }

  /** `str_contains($s, $sub)`, written so that it unfolds one position at a time. */
  predicate Contains(s: string, sub: string)
    decreases |s|
  {
    StartsWith(s, sub) || (s != [] && Contains(s[1..], sub))
  }

  /** A text containing `sub` also contains every prefix of `sub`. */
  lemma {:induction false} ContainsPrefix(s: string, sub: string, prefix: string)
    requires StartsWith(sub, prefix)
    requires Contains(s, sub)
    ensures Contains(s, prefix)
    decreases |s|
  {
    if StartsWith(s, sub) {
      assert s[..|prefix|] == sub[..|prefix|];
    } else {
      ContainsPrefix(s[1..], sub, prefix);
    }
  }

  /** A text contains whatever is spliced into it. */
  lemma {:induction false} ContainsMiddle(a: string, sub: string, b: string)
    ensures Contains(a + sub + b, sub)
    decreases |a|
  {
    if a == [] {
      assert (a + sub + b)[..|sub|] == sub;
    } else {
      assert (a + sub + b)[1..] == a[1..] + sub + b;
      ContainsMiddle(a[1..], sub, b);
    }
  }

  /** `implode($sep, $parts)`. */
  /** Stated once for any element type, so that callers need not unfold their operands. */
  lemma {:induction false} Associative<T>(a: seq<T>, b: seq<T>, c: seq<T>)
    ensures a + b + c == a + (b + c)
  {
  }

  function Implode(sep: string, parts: seq<string>): string
    decreases |parts|
  {
    if parts == [] then ""
    else if |parts| == 1 then parts[0]
    else parts[0] + sep + Implode(sep, parts[1..])
  }

  /** Joining two non-empty lists puts exactly one separator between their joins. */
  lemma {:induction false} ImplodeAppend(sep: string, a: seq<string>, b: seq<string>)
    requires a != [] && b != []
    ensures Implode(sep, a + b) == Implode(sep, a) + sep + Implode(sep, b)
    decreases |a|
  {
    if |a| == 1 {
      assert (a + b)[1..] == b;
    } else {
      assert (a + b)[1..] == a[1..] + b;
      ImplodeAppend(sep, a[1..], b);
    }
  }

  /** The first position of `c` in `s`. */
  function IndexOf(s: string, c: char): (i: nat)
    requires c in s
    ensures i < |s| && s[i] == c && c !in s[..i]
  {
    if s[0] == c then 0 else 1 + IndexOf(s[1..], c)
  }

  /** `explode($c, $s)` for a one-character delimiter: the pieces between the delimiters. */
  function Explode(s: string, c: char): (parts: seq<string>)
    ensures parts != []
    ensures forall i :: 0 <= i < |parts| ==> c !in parts[i]
    decreases |s|
  {
    if c in s then
      var i := IndexOf(s, c);
      [s[..i]] + Explode(s[i + 1..], c)
    else
      [s]
  }

  /** Splitting at the first delimiter: the piece before it comes first. */
  lemma {:induction false} ExplodeCons(a: string, b: string, c: char)
    requires c !in a
    ensures Explode(a + [c] + b, c) == [a] + Explode(b, c)
  {
    var s := a + [c] + b;
    assert s[|a|] == c;
    var i := IndexOf(s, c);
    assert s[..i] == a;
    assert s[i + 1..] == b;
  }

  /** Re-joining the pieces of `explode` with the delimiter gives the text back. */
  lemma {:induction false} ImplodeExplode(s: string, c: char)
    ensures Implode([c], Explode(s, c)) == s
    decreases |s|
  {
    if c in s {
      var i := IndexOf(s, c);
      var rest := Explode(s[i + 1..], c);
      ImplodeExplode(s[i + 1..], c);
      assert Explode(s, c) == [s[..i]] + rest;
      assert ([s[..i]] + rest)[1..] == rest;
      assert s == s[..i] + [c] + s[i + 1..];
    }
  }

  /** Splitting a join of delimiter-free pieces gives the pieces back, in order. */
  lemma {:induction false} ExplodeImplode(parts: seq<string>, c: char)
    requires parts != []
    requires forall i :: 0 <= i < |parts| ==> c !in parts[i]
    ensures Explode(Implode([c], parts), c) == parts
    decreases |parts|
  {
    if |parts| > 1 {
      ExplodeImplode(parts[1..], c);
      ExplodeCons(parts[0], Implode([c], parts[1..]), c);
      assert parts == [parts[0]] + parts[1..];
    }
  }

  /** `ltrim($s, $cs)`: drops the characters of `cs` from the front. */
  function TrimLeft(s: string, cs: set<char>): (r: string)
    ensures |r| <= |s| && r == s[|s| - |r|..]
    ensures r != [] ==> r[0] !in cs
    ensures forall i :: 0 <= i < |s| - |r| ==> s[i] in cs
    decreases |s|
  {
    if s != [] && s[0] in cs then TrimLeft(s[1..], cs) else s
  }

  /** `rtrim($s, $cs)`: drops the characters of `cs` from the back. */
  function TrimRight(s: string, cs: set<char>): (r: string)
    ensures |r| <= |s| && r == s[..|r|]
    ensures r != [] ==> r[|r| - 1] !in cs
    ensures forall i :: |r| <= i < |s| ==> s[i] in cs
    decreases |s|
  {
    if s != [] && s[|s| - 1] in cs then TrimRight(s[..|s| - 1], cs) else s
  }

  /** `trim($s, $cs)`. */
  function Trim(s: string, cs: set<char>): string {
    TrimRight(TrimLeft(s, cs), cs)
  }

  /** A front made of `cs` characters is dropped up to the first character outside `cs`. */
  lemma {:induction false} TrimLeftPadded(left: string, y: string, cs: set<char>)
    requires forall i :: 0 <= i < |left| ==> left[i] in cs
    requires y != [] ==> y[0] !in cs
    ensures TrimLeft(left + y, cs) == y
    decreases |left|
  {
    if left == [] {
      assert left + y == y;
    } else {
      assert (left + y)[1..] == left[1..] + y;
      TrimLeftPadded(left[1..], y, cs);
    }
  }

  /** A back made of `cs` characters is dropped down to the last character outside `cs`. */
  lemma {:induction false} TrimRightPadded(y: string, right: string, cs: set<char>)
    requires forall i :: 0 <= i < |right| ==> right[i] in cs
    requires y != [] ==> y[|y| - 1] !in cs
    ensures TrimRight(y + right, cs) == y
    decreases |right|
  {
    if right == [] {
      assert y + right == y;
    } else {
      assert (y + right)[..|y + right| - 1] == y + right[..|right| - 1];
      TrimRightPadded(y, right[..|right| - 1], cs);
    }
  }

  /** Text whose two ends are outside `cs` survives a trim, and so does any padding inside. */
  lemma {:induction false} TrimPadded(left: string, x: string, right: string, cs: set<char>)
    requires forall i :: 0 <= i < |left| ==> left[i] in cs
    requires forall i :: 0 <= i < |right| ==> right[i] in cs
    requires x != [] ==> x[0] !in cs && x[|x| - 1] !in cs
    ensures Trim(left + x + right, cs) == x
  {
    if x == [] {
      assert left + x + right == (left + right) + [];
      TrimLeftPadded(left + right, [], cs);
    } else {
      assert left + x + right == left + (x + right);
      TrimLeftPadded(left, x + right, cs);
      TrimRightPadded(x, right, cs);
    }
  }

  /** `preg_replace` with a pattern that is a literal string: every occurrence, left to right, without overlap. */
  function ReplaceAll(s: string, pattern: string, replacement: string): string
    requires pattern != []
    decreases |s|
  {
    if s == [] then []
    else if StartsWith(s, pattern) then replacement + ReplaceAll(s[|pattern|..], pattern, replacement)
    else [s[0]] + ReplaceAll(s[1..], pattern, replacement)
  }

  /** A text without the pattern is left as it is. */
  lemma {:induction false} ReplaceAllAbsent(s: string, pattern: string, replacement: string)
    requires pattern != []
    requires !Contains(s, pattern)
    ensures ReplaceAll(s, pattern, replacement) == s
    decreases |s|
  {
    if s != [] {
      ReplaceAllAbsent(s[1..], pattern, replacement);
    }
  }

  /** Text before the first possible start of the pattern is copied unchanged. */
  lemma {:induction false} ReplaceAllSkip(a: string, b: string, pattern: string, replacement: string)
    requires pattern != []
    requires pattern[0] !in a
    ensures ReplaceAll(a + b, pattern, replacement) == a + ReplaceAll(b, pattern, replacement)
    decreases |a|
  {
    if a != [] {
      assert (a + b)[0] == a[0] != pattern[0];
      assert !StartsWith(a + b, pattern);
      assert (a + b)[1..] == a[1..] + b;
      ReplaceAllSkip(a[1..], b, pattern, replacement);
      assert ReplaceAll(a + b, pattern, replacement) == [a[0]] + ReplaceAll(a[1..] + b, pattern, replacement);
      var rest := ReplaceAll(b, pattern, replacement);
      assert [a[0]] + (a[1..] + rest) == a + rest;
    } else {
      assert a + b == b;
    }
  }

  /** An occurrence at the front is replaced, and scanning resumes after it. */
  lemma {:induction false} ReplaceAllHit(b: string, pattern: string, replacement: string)
    requires pattern != []
    ensures ReplaceAll(pattern + b, pattern, replacement) == replacement + ReplaceAll(b, pattern, replacement)
  {
    assert (pattern + b)[..|pattern|] == pattern;
    assert (pattern + b)[|pattern|..] == b;
  }

  /** PHP's rendering of a non-negative integer in decimal. */
  function NatToDecimal(n: nat): (r: string)
    ensures r != []
    ensures forall i :: 0 <= i < |r| ==> '0' <= r[i] <= '9'
    ensures n < 10 <==> |r| == 1
  {
    var d := [('0' as int + n % 10) as char];
    if n < 10 then d else NatToDecimal(n / 10) + d
  }
}
