/**
 * What `resolveVite` does with the spellings a template uses: the array
 * form `@vite(['a.js','b.js'])`, the form with options
 * `@vite('a.js',{...})`, the loose spellings the normaliser rewrites, and
 * the refresh directive. Entrypoint names here are plain names: printable
 * ASCII without quotes, brackets, parentheses, commas or `@`.
 */
module DirectiveForms {
  import opened Wrappers
  import opened PhpText
  import opened AssetGraph
  import opened Directives
  import opened DirectiveFacts

  // ---------------------------------------------------------------- text at a position

  /** `w` occurs in `s` at position `j`. */
  predicate At(s: string, j: nat, w: string) {
    j + |w| <= |s| && forall k :: 0 <= k < |w| ==> s[j + k] == w[k]
  }

  lemma {:induction false} AtSplit(s: string, j: nat, a: string, b: string)
    requires At(s, j, a + b)
    ensures At(s, j, a) && At(s, j + |a|, b)
  {
    forall k | 0 <= k < |a|
      ensures s[j + k] == a[k]
    {
      assert (a + b)[k] == a[k];
    }
    forall k | 0 <= k < |b|
      ensures s[j + |a| + k] == b[k]
    {
      assert (a + b)[|a| + k] == b[k];
    }
  }

  lemma {:induction false} AtWhole(pre: string, w: string, post: string)
    ensures At(pre + w + post, |pre|, w)
  {
    var s := pre + w + post;
    forall k | 0 <= k < |w|
      ensures s[|pre| + k] == w[k]
    {
    }
  }

  lemma {:induction false} AtChar(s: string, j: nat, w: string, k: nat)
    requires At(s, j, w) && k < |w|
    ensures s[j + k] == w[k]
  {
  }

  lemma {:induction false} AtSlice(s: string, j: nat, w: string)
    requires At(s, j, w)
    ensures s[j..j + |w|] == w
  {
  }

  /** The only `@` of `s` is at position `i`. */
  predicate OnlyAtSign(s: string, i: nat) {
    forall k :: 0 <= k < |s| && k != i ==> s[k] != '@'
  }

  lemma {:induction false} OnlyAtSignOf(pre: string, d: string, post: string)
    requires d != [] && '@' !in pre && '@' !in d[1..] && '@' !in post
    ensures OnlyAtSign(pre + d + post, |pre|)
  {
    var s := pre + d + post;
    forall k | 0 <= k < |s| && k != |pre|
      ensures s[k] != '@'
    {
      if k < |pre| {
        assert s[k] == pre[k];
      } else if k < |pre| + |d| {
        assert s[k] == d[1..][k - |pre| - 1];
      } else {
        assert s[k] == post[k - |pre| - |d|];
      }
    }
  }

  // ---------------------------------------------------------------- names and the entry text

  /** A character of a plain entrypoint name. */
  predicate PlainChar(c: char) {
    '!' <= c <= '~' && c != '\'' && c != '"' && c != ',' && c != '(' && c != ')'
    && c != '[' && c != ']' && c != '@'
  }

  predicate PlainName(n: string) {
    n != [] && forall k :: 0 <= k < |n| ==> PlainChar(n[k])
  }

  predicate AllPlain(ns: seq<string>) {
    forall i :: 0 <= i < |ns| ==> PlainName(ns[i])
  }

  function Quoted(q: char, n: string): string {
    [q] + n + [q]
  }

  /** The strings after the first one in a bracketed entry: each preceded by a comma. */
  function Tail(q: char, ns: seq<string>): string
    decreases |ns|
  {
    if ns == [] then "" else "," + Quoted(q, ns[0]) + Tail(q, ns[1..])
  }

  /** A bracketed entry listing `x` and then `ns`, quoted with `q`, without spaces. */
  function ArrayEntry(q: char, x: string, ns: seq<string>): string {
    "[" + Quoted(q, x) + Tail(q, ns) + "]"
  }

  function QuotedAll(q: char, ns: seq<string>): (r: seq<string>)
    ensures |r| == |ns| && forall i :: 0 <= i < |ns| ==> r[i] == Quoted(q, ns[i])
  {
    seq(|ns|, i requires 0 <= i < |ns| => Quoted(q, ns[i]))
  }

  // ---------------------------------------------------------------- the callback's parsing of entries

  lemma {:induction false} TailLast(q: char, ns: seq<string>)
    ensures Tail(q, ns) == [] || Tail(q, ns)[|Tail(q, ns)| - 1] == q
    decreases |ns|
  {
    if ns != [] {
      TailLast(q, ns[1..]);
    }
  }

  /** The text between the brackets is the quoted names joined with commas. */
  lemma {:induction false} ImplodeTail(q: char, x: string, ns: seq<string>)
    ensures Implode([','], QuotedAll(q, [x] + ns)) == Quoted(q, x) + Tail(q, ns)
    decreases |ns|
  {
    if ns != [] {
      var all := QuotedAll(q, [x] + ns);
      var a, b, c := Quoted(q, x), Quoted(q, ns[0]), Tail(q, ns[1..]);
      calc {
        Implode([','], all);
        all[0] + [','] + Implode([','], all[1..]);
        { assert all[1..] == QuotedAll(q, [ns[0]] + ns[1..]);
          ImplodeTail(q, ns[0], ns[1..]); }
        a + [','] + (b + c);
        { Associative(a, [','], b + c); Associative([','], b, c); }
        a + ([','] + b + c);
      }
    }
  }

  /** A text that starts and ends outside `cs` is its own trim. */
  lemma {:induction false} TrimKeeps(s: string, cs: set<char>)
    requires s != [] && s[0] !in cs && s[|s| - 1] !in cs
    ensures Trim(s, cs) == s
  {
    assert TrimLeft(s, cs) == s;
  }

  /** Trimming quotes from a quoted name gives the name. */
  lemma {:induction false} Unquote(q: char, n: string)
    requires IsQuote(q) && PlainName(n)
    ensures Trim(Quoted(q, n), Quotes) == n
  {
    TrimPadded([q], n, [q], Quotes);
  }

  /** One piece of a bracketed entry loses its quotes and nothing else. */
  lemma {:induction false} PieceTrim(q: char, n: string)
    requires IsQuote(q) && PlainName(n)
    ensures Trim(Trim(Quoted(q, n), PhpWhitespace), Quotes) == n
  {
    TrimKeeps(Quoted(q, n), PhpWhitespace);
    Unquote(q, n);
  }

  /** `trim($entry, '[]')` leaves the quoted names and the commas between them. */
  lemma {:induction false} StripBrackets(q: char, x: string, ns: seq<string>)
    requires IsQuote(q)
    ensures Trim(ArrayEntry(q, x, ns), {'[', ']'}) == Quoted(q, x) + Tail(q, ns)
  {
    var inner := Quoted(q, x) + Tail(q, ns);
    assert ArrayEntry(q, x, ns) == "[" + inner + "]";
    TailLast(q, ns);
    assert inner[0] == q && inner[|inner| - 1] == q;
    TrimPadded("[", inner, "]", {'[', ']'});
  }

  /** `explode(',', ...)` splits the list into the quoted names, in order. */
  lemma {:induction false} SplitList(q: char, x: string, ns: seq<string>)
    requires IsQuote(q) && PlainName(x) && AllPlain(ns)
    ensures Explode(Quoted(q, x) + Tail(q, ns), ',') == QuotedAll(q, [x] + ns)
  {
    var names := [x] + ns;
    var parts := QuotedAll(q, names);
    ImplodeTail(q, x, ns);
    forall i | 0 <= i < |parts|
      ensures ',' !in parts[i]
    {
      assert PlainName(names[i]);
      assert parts[i] == [q] + names[i] + [q];
    }
    ExplodeImplode(parts, ',');
  }

  /** A bracketed entry is read piece by piece: each piece of the list between the brackets, trimmed and unquoted. */
  lemma {:induction false} ParseBracketed(entry: string, parts: seq<string>)
    requires |entry| > 0 && entry[0] == '[' && Explode(Trim(entry, {'[', ']'}), ',') == parts
    ensures |ParseEntries(entry)| == |parts|
    ensures forall i :: 0 <= i < |parts| ==> ParseEntries(entry)[i] == Trim(Trim(parts[i], PhpWhitespace), Quotes)
  {
  }

  lemma {:induction false} ArrayEntryOpens(q: char, x: string, ns: seq<string>)
    ensures |ArrayEntry(q, x, ns)| > 0 && ArrayEntry(q, x, ns)[0] == '['
  {
  }

  /** Every quoted name is trimmed back to the name. */
  lemma {:induction false} PiecesTrim(q: char, names: seq<string>)
    requires IsQuote(q) && AllPlain(names)
    ensures forall i :: 0 <= i < |names| ==> Trim(Trim(QuotedAll(q, names)[i], PhpWhitespace), Quotes) == names[i]
  {
    forall i | 0 <= i < |names|
      ensures Trim(Trim(QuotedAll(q, names)[i], PhpWhitespace), Quotes) == names[i]
    {
      PieceTrim(q, names[i]);
    }
  }

  lemma {:induction false} ReadsAs(r: seq<string>, pieces: seq<string>, names: seq<string>)
    requires |r| == |names| == |pieces|
    requires forall i :: 0 <= i < |names| ==> r[i] == Trim(Trim(pieces[i], PhpWhitespace), Quotes)
    requires forall i :: 0 <= i < |names| ==> Trim(Trim(pieces[i], PhpWhitespace), Quotes) == names[i]
    ensures r == names
  {
  }

  /** A bracketed entry whose list splits into quoted names is read as those names. */
  lemma {:induction false} ParseQuotedList(entry: string, q: char, names: seq<string>)
    requires IsQuote(q) && AllPlain(names)
    requires |entry| > 0 && entry[0] == '[' && Explode(Trim(entry, {'[', ']'}), ',') == QuotedAll(q, names)
    ensures ParseEntries(entry) == names
  {
    ParseBracketed(entry, QuotedAll(q, names));
    PiecesTrim(q, names);
    ReadsAs(ParseEntries(entry), QuotedAll(q, names), names);
  }

  /** The callback reads a bracketed entry as its names, in order. */
  lemma {:induction false} ParseArrayEntry(q: char, x: string, ns: seq<string>)
    requires IsQuote(q) && PlainName(x) && AllPlain(ns)
    ensures ParseEntries(ArrayEntry(q, x, ns)) == [x] + ns
  {
    ArrayListSplits(q, x, ns);
    ParseQuotedList(ArrayEntry(q, x, ns), q, [x] + ns);
  }

  /** Between its brackets, a bracketed entry splits at its commas into the quoted names. */
  lemma {:induction false} ArrayListSplits(q: char, x: string, ns: seq<string>)
    requires IsQuote(q) && PlainName(x) && AllPlain(ns)
    ensures |ArrayEntry(q, x, ns)| > 0 && ArrayEntry(q, x, ns)[0] == '['
    ensures Explode(Trim(ArrayEntry(q, x, ns), {'[', ']'}), ',') == QuotedAll(q, [x] + ns)
  {
    StripBrackets(q, x, ns);
    SplitList(q, x, ns);
    ArrayEntryOpens(q, x, ns);
  }

  /** A single quoted entry is read as the name it quotes. */
  lemma {:induction false} ParseSingleEntry(q: char, x: string)
    requires IsQuote(q) && PlainName(x)
    ensures ParseEntries(Quoted(q, x)) == [x]
  {
    Unquote(q, x);
  }

  // ---------------------------------------------------------------- the recognisers on these texts

  /** A quoted name is one string of the grammar. */
  lemma {:induction false} QuotedAt(s: string, j: nat, q: char, n: string)
    requires IsQuote(q) && PlainName(n) && At(s, j, Quoted(q, n))
    ensures QuotedEnd(s, j) == Some(j + |n| + 2)
  {
    assert s[j] == Quoted(q, n)[0];
    assert s[j + |n| + 1] == Quoted(q, n)[|n| + 1];
    forall k | j + 1 <= k < j + |n| + 1
      ensures s[k] != q
    {
      assert s[k] == Quoted(q, n)[k - j];
    }
    FindPast(s, j + 1, j + |n| + 1, q);
  }

  /** One further string of a bracketed entry: a comma and a quoted name. */
  lemma {:induction false} NextStringAt(s: string, j: nat, q: char, n: string)
    requires IsQuote(q) && PlainName(n) && At(s, j, "," + Quoted(q, n))
    ensures NextStringEnd(s, j) == Some(j + |n| + 3)
  {
    var t := Quoted(q, n);
    AtSplit(s, j, ",", t);
    AtChar(s, j, ",", 0);
    AtChar(s, j + 1, t, 0);
    assert SpaceEnd(s, j) == j && SpaceEnd(s, j + 1) == j + 1;
    QuotedAt(s, j + 1, q, n);
  }

  /** The closing `]` of a bracketed entry: no further string, then the bracket. */
  lemma {:induction false} CloseBracketAt(s: string, j: nat)
    requires At(s, j, "]")
    ensures ArrayTailEnd(s, j) == Some(j + 1)
  {
    AtChar(s, j, "]", 0);
    assert SpaceEnd(s, j) == j;
  }

  /** The further strings of a bracketed entry and its `]` are one tail of the grammar. */
  lemma {:induction false} TailAt(s: string, j: nat, q: char, ns: seq<string>)
    requires IsQuote(q) && AllPlain(ns) && At(s, j, Tail(q, ns)) && At(s, j + |Tail(q, ns)|, "]")
    ensures ArrayTailEnd(s, j) == Some(j + |Tail(q, ns)| + 1)
    decreases |ns|
  {
    if ns == [] {
      CloseBracketAt(s, j);
    } else {
      TailStep(s, j, q, ns);
      TailAt(s, j + |ns[0]| + 3, q, ns[1..]);
    }
  }

  /** One further string of the tail, after which the grammar goes on with the rest of the tail. */
  lemma {:induction false} TailStep(s: string, j: nat, q: char, ns: seq<string>)
    requires IsQuote(q) && AllPlain(ns) && ns != [] && At(s, j, Tail(q, ns))
    ensures |Tail(q, ns)| == |ns[0]| + 3 + |Tail(q, ns[1..])|
    ensures AllPlain(ns[1..]) && At(s, j + |ns[0]| + 3, Tail(q, ns[1..]))
    ensures ArrayTailEnd(s, j) == ArrayTailEnd(s, j + |ns[0]| + 3)
  {
    var first, rest := "," + Quoted(q, ns[0]), Tail(q, ns[1..]);
    assert Tail(q, ns) == first + rest;
    assert PlainName(ns[0]);
    AtSplit(s, j, first, rest);
    NextStringAt(s, j, q, ns[0]);
  }

  /** A bracketed entry is one ENTRY of the grammar. */
  lemma {:induction false} ArrayEntryAt(s: string, p: nat, q: char, x: string, ns: seq<string>)
    requires IsQuote(q) && PlainName(x) && AllPlain(ns)
    requires At(s, p, ArrayEntry(q, x, ns))
    ensures EntryEnd(s, p) == Some(p + |ArrayEntry(q, x, ns)|)
  {
    AtSplit(s, p, "[" + Quoted(q, x) + Tail(q, ns), "]");
    AtSplit(s, p, "[" + Quoted(q, x), Tail(q, ns));
    AtSplit(s, p, "[", Quoted(q, x));
    AtChar(s, p, "[", 0);
    QuotedAt(s, p + 1, q, x);
    TailAt(s, p + 3 + |x|, q, ns);
  }

  /** `@vite(` at `i` opens a call. */
  lemma {:induction false} CallOpenAt(s: string, i: nat)
    requires At(s, i, "@vite(")
    ensures ViteCallAt(s, i)
  {
    AtChar(s, i, "@vite(", 0);
    AtChar(s, i, "@vite(", 1);
    AtChar(s, i, "@vite(", 2);
    AtChar(s, i, "@vite(", 3);
    AtChar(s, i, "@vite(", 4);
    AtChar(s, i, "@vite(", 5);
  }

  /** A `)` right after the ENTRY closes a directive without options. */
  lemma {:induction false} CloseAt(s: string, p: nat, en: nat)
    requires p <= en < |s| && s[en] == ')'
    ensures DirectiveClose(s, p, en) == Some(Directive(en + 1, s[p..en], None))
  {
    assert SpaceEnd(s, en) == en;
  }

  /** The parts of `@vite(` ENTRY and what follows the ENTRY. */
  lemma {:induction false} CallEntry(s: string, i: nat, e: string, rest: string)
    requires At(s, i, "@vite(" + e + rest)
    ensures At(s, i, "@vite(") && At(s, i + 6, e) && At(s, i + 6 + |e|, rest)
  {
    AtSplit(s, i, "@vite(" + e, rest);
    AtSplit(s, i, "@vite(", e);
  }

  /** Once the ENTRY at `i + 6` is recognised, the directive at `i` is decided by what follows it. */
  lemma {:induction false} DirectiveOpen(s: string, i: nat, e: string)
    requires e != [] && !IsSpace(e[0]) && At(s, i, "@vite(") && At(s, i + 6, e)
    requires EntryEnd(s, i + 6) == Some(i + 6 + |e|)
    ensures DirectiveAt(s, i) == DirectiveClose(s, i + 6, i + 6 + |e|)
    ensures s[i + 6..i + 6 + |e|] == e
  {
    CallOpenAt(s, i);
    AtChar(s, i + 6, e, 0);
    assert SpaceEnd(s, i + 6) == i + 6;
    AtSlice(s, i + 6, e);
  }

  /** `@vite(` ENTRY `)` with nothing else inside is one directive without options. */
  lemma {:induction false} PlainCallAt(s: string, i: nat, e: string)
    requires e != [] && !IsSpace(e[0]) && At(s, i, "@vite(") && At(s, i + 6, e) && At(s, i + 6 + |e|, ")")
    requires EntryEnd(s, i + 6) == Some(i + 6 + |e|)
    ensures DirectiveAt(s, i) == Some(Directive(i + |e| + 7, e, None))
  {
    DirectiveOpen(s, i, e);
    AtChar(s, i + 6 + |e|, ")", 0);
    CloseAt(s, i + 6, i + 6 + |e|);
  }

  /** `@vite([...])` is one directive whose entry is the bracketed text and which has no options. */
  lemma {:induction false} ArrayDirectiveAt(s: string, i: nat, q: char, x: string, ns: seq<string>)
    requires IsQuote(q) && PlainName(x) && AllPlain(ns)
    requires At(s, i, ArrayCall(q, x, ns))
    ensures DirectiveAt(s, i) == Some(Directive(i + |ArrayCall(q, x, ns)|, ArrayEntry(q, x, ns), None))
  {
    var e := ArrayEntry(q, x, ns);
    CallEntry(s, i, e, ")");
    ArrayEntryAt(s, i + 6, q, x, ns);
    ArrayEntryOpens(q, x, ns);
    PlainCallAt(s, i, e);
  }

  /** The normaliser does not match at the `@` of `@vite([...])`: the quote after `[` ends its argument. */
  lemma {:induction false} ArrayNotNormalised(s: string, i: nat, q: char, x: string)
    requires IsQuote(q) && PlainName(x)
    requires At(s, i, "@vite([" + Quoted(q, x))
    ensures NormaliseAt(s, i).None?
  {
    var w := "@vite([" + Quoted(q, x);
    AtChar(s, i, w, 0);
    AtChar(s, i, w, 1);
    AtChar(s, i, w, 2);
    AtChar(s, i, w, 3);
    AtChar(s, i, w, 4);
    AtChar(s, i, w, 5);
    AtChar(s, i, w, 6);
    AtChar(s, i, w, 7);
    AtChar(s, i, w, 8);
    assert PlainChar(x[0]);
    assert SpaceEnd(s, i + 5) == i + 5;
    assert PadEnd(s, i + 6) == i + 6;
    assert PadEnd(s, i + 7) == i + 8;
    assert !Closes(s, i + 6);
    assert !Closes(s, i + 7);
    assert LazyBodyEnd(s, i + 7).None?;
    assert LazyBodyEnd(s, i + 6).None?;
  }

  /** The lazy argument runs over a plain name without stopping. */
  lemma {:induction false} LazyOverPlain(s: string, b: nat, n: string)
    requires At(s, b, n) && forall k :: 0 <= k < |n| ==> PlainChar(n[k])
    ensures LazyBodyEnd(s, b) == LazyBodyEnd(s, b + |n|)
    decreases |n|
  {
    if n != [] {
      assert s[b] == n[0];
      assert PadEnd(s, b) == b;
      assert !Closes(s, b);
      AtSplit(s, b, [n[0]], n[1..]);
      LazyOverPlain(s, b + 1, n[1..]);
    }
  }

  // ---------------------------------------------------------------- one directive in a template

  /** The refresh replacement leaves a template alone whose only `@` does not start `@viteReactRefresh`. */
  lemma {:induction false} RefreshAbsentAround(pre: string, d: string, post: string, refreshHtml: string)
    requires |d| > 5 && d[0] == '@' && d[..6] != "@viteR"
    requires '@' !in pre && '@' !in d[1..] && '@' !in post
    ensures ReplaceAll(pre + d + post, ReactRefreshDirective, refreshHtml) == pre + d + post
  {
    var R := ReactRefreshDirective;
    assert pre + d + post == pre + (d + post);
    ReplaceAllSkip(pre, d + post, R, refreshHtml);
    assert (d + post)[..6] == d[..6];
    assert !StartsWith(d + post, R);
    var rest := d[1..] + post;
    assert (d + post)[1..] == rest;
    assert '@' !in rest;
    assert rest + [] == rest;
    ReplaceAllSkip(rest, [], R, refreshHtml);
    assert ReplaceAll(d + post, R, refreshHtml) == [d[0]] + rest;
    assert [d[0]] + rest == d + post;
  }

  /** A template whose only `@` starts neither the refresh directive nor a normaliser match is prepared as it is. */
  lemma {:induction false} PreparedTemplate(pre: string, d: string, post: string, refreshHtml: string)
    requires |d| > 5 && d[0] == '@' && d[..6] != "@viteR"
    requires '@' !in pre && '@' !in d[1..] && '@' !in post
    requires NormaliseAt(pre + d + post, |pre|).None?
    ensures Prepared(pre + d + post, refreshHtml) == pre + d + post
  {
    RefreshAbsentAround(pre, d, post, refreshHtml);
    OnlyAtSignOf(pre, d, post);
    NormaliseOnly(pre + d + post, |pre|);
  }

  /** The normaliser copies a text whose only `@` starts no match. */
  lemma {:induction false} NormaliseOnly(s: string, i: nat)
    requires i < |s| && OnlyAtSign(s, i) && NormaliseAt(s, i).None?
    ensures Normalise(s) == s
  {
    assert forall k :: 0 <= k < i ==> !VitAt(s, k);
    calc {
      NormaliseFrom(s, 0);
      { NormaliseSkip(s, 0, i); }
      s[0..i] + NormaliseFrom(s, i);
      { NormaliseMiss(s, i); }
      s[0..i] + ([s[i]] + NormaliseFrom(s, i + 1));
      { NormaliseRest(s, i + 1); }
      s[0..i] + ([s[i]] + s[i + 1..]);
      { assert s[0..i] + ([s[i]] + s[i + 1..]) == s; }
      s;
    }
  }

  /** A match at `i` is replaced by the callback's text, and the scan resumes after it. */
  lemma {:induction false} ExpandHit(s: string, i: nat, d: Directive, render: Directive -> string)
    requires i < |s| && DirectiveAt(s, i) == Some(d)
    ensures ExpandFrom(s, i, render) == render(d) + ExpandFrom(s, d.end, render)
  {
  }

  /** From `j` on, where there is no `@`, the directive pass copies the rest. */
  lemma {:induction false} ExpandRest(s: string, j: nat, render: Directive -> string)
    requires j <= |s| && forall k :: j <= k < |s| ==> s[k] != '@'
    ensures ExpandFrom(s, j, render) == s[j..]
  {
    assert forall k :: j <= k < |s| ==> !VitAt(s, k);
    ExpandSkip(s, j, |s|, render);
    assert ExpandFrom(s, |s|, render) == [];
    assert s[j..|s|] + [] == s[j..];
  }

  /** The directive pass replaces the one directive of a text whose only `@` starts it, and copies the rest. */
  lemma {:induction false} ExpandOnly(s: string, i: nat, d: Directive, render: Directive -> string)
    requires i < |s| && OnlyAtSign(s, i) && DirectiveAt(s, i) == Some(d)
    ensures ExpandFrom(s, 0, render) == s[..i] + render(d) + s[d.end..]
  {
    assert forall k :: 0 <= k < |s| && k != i ==> !VitAt(s, k);
    ExpandSkip(s, 0, i, render);
    ExpandHit(s, i, d, render);
    ExpandRest(s, d.end, render);
    assert s[0..i] == s[..i];
  }

  /** The directive pass copies a text whose only `@` starts no directive. */
  lemma {:induction false} ExpandNowhere(s: string, i: nat, render: Directive -> string)
    requires i < |s| && OnlyAtSign(s, i) && DirectiveAt(s, i).None?
    ensures ExpandFrom(s, 0, render) == s
  {
    assert forall k :: 0 <= k < i ==> !VitAt(s, k);
    calc {
      ExpandFrom(s, 0, render);
      { ExpandSkip(s, 0, i, render); }
      s[0..i] + ExpandFrom(s, i, render);
      { ExpandMiss(s, i, render); }
      s[0..i] + ([s[i]] + ExpandFrom(s, i + 1, render));
      { ExpandRest(s, i + 1, render); }
      s[0..i] + ([s[i]] + s[i + 1..]);
      { assert s[0..i] + ([s[i]] + s[i + 1..]) == s; }
      s;
    }
  }

  // ---------------------------------------------------------------- the array form

  function ArrayCall(q: char, x: string, ns: seq<string>): string {
    "@vite(" + ArrayEntry(q, x, ns) + ")"
  }

  lemma {:induction false} TailHasNoAt(q: char, ns: seq<string>)
    requires IsQuote(q) && AllPlain(ns)
    ensures '@' !in Tail(q, ns)
    decreases |ns|
  {
    if ns != [] {
      assert PlainName(ns[0]) && AllPlain(ns[1..]);
      TailHasNoAt(q, ns[1..]);
    }
  }

  lemma {:induction false} QuotedHasNoAt(q: char, n: string)
    requires IsQuote(q) && PlainName(n)
    ensures '@' !in Quoted(q, n)
  {
    assert '@' !in n;
  }

  /** The only `@` of an array-form directive is its first character. */
  lemma {:induction false} ArrayCallAtSign(q: char, x: string, ns: seq<string>)
    requires IsQuote(q) && PlainName(x) && AllPlain(ns)
    ensures |ArrayCall(q, x, ns)| > 5 && ArrayCall(q, x, ns)[0] == '@' && ArrayCall(q, x, ns)[..6] != "@viteR"
    ensures '@' !in ArrayCall(q, x, ns)[1..]
  {
    var body := "vite([" + Quoted(q, x) + Tail(q, ns) + "])";
    assert ArrayCall(q, x, ns) == "@" + body;
    assert ArrayCall(q, x, ns)[1..] == body;
    assert ArrayCall(q, x, ns)[..6][5] == '(';
    TailHasNoAt(q, ns);
    QuotedHasNoAt(q, x);
    assert '@' !in "vite([" && '@' !in "])";
  }

  /** In a template, the normaliser does not match at the array-form directive. */
  lemma {:induction false} ArrayNotNormalisedIn(pre: string, q: char, x: string, ns: seq<string>, post: string)
    requires IsQuote(q) && PlainName(x)
    ensures NormaliseAt(pre + ArrayCall(q, x, ns) + post, |pre|).None?
  {
    var d := ArrayCall(q, x, ns);
    AtWhole(pre, d, post);
    assert d == "@vite([" + Quoted(q, x) + (Tail(q, ns) + "])");
    AtSplit(pre + d + post, |pre|, "@vite([" + Quoted(q, x), Tail(q, ns) + "])");
    ArrayNotNormalised(pre + d + post, |pre|, q, x);
  }

  /** Neither the refresh replacement nor the normaliser touches a template holding one array-form directive. */
  lemma {:induction false} ArrayTemplatePrepared(pre: string, q: char, x: string, ns: seq<string>, post: string, refreshHtml: string)
    requires IsQuote(q) && PlainName(x) && AllPlain(ns) && '@' !in pre && '@' !in post
    ensures Prepared(pre + ArrayCall(q, x, ns) + post, refreshHtml) == pre + ArrayCall(q, x, ns) + post
  {
    ArrayCallAtSign(q, x, ns);
    ArrayNotNormalisedIn(pre, q, x, ns, post);
    PreparedTemplate(pre, ArrayCall(q, x, ns), post, refreshHtml);
  }

  /** Replacing the middle of a text made of three parts keeps the outer two. */
  lemma {:induction false} Around(pre: string, d: string, post: string, r: string)
    ensures var s := pre + d + post; s[..|pre|] + r + s[|pre| + |d|..] == pre + r + post
  {
    var s := pre + d + post;
    assert s[..|pre|] == pre;
    assert s[|pre| + |d|..] == post;
  }

  /** Where the array form is the only `@` of a text, the directive pass replaces it and copies the rest. */
  lemma {:induction false} ArrayExpandAt(s: string, i: nat, q: char, x: string, ns: seq<string>, render: Directive -> string)
    requires IsQuote(q) && PlainName(x) && AllPlain(ns)
    requires At(s, i, ArrayCall(q, x, ns)) && OnlyAtSign(s, i)
    ensures ExpandFrom(s, 0, render)
      == s[..i] + render(Directive(i + |ArrayCall(q, x, ns)|, ArrayEntry(q, x, ns), None)) + s[i + |ArrayCall(q, x, ns)|..]
  {
    ArrayDirectiveAt(s, i, q, x, ns);
    ExpandOnly(s, i, Directive(i + |ArrayCall(q, x, ns)|, ArrayEntry(q, x, ns), None), render);
  }

  /** The directive pass replaces the array-form directive by the callback's text for its entry. */
  lemma {:induction false} ArrayTemplateExpanded(pre: string, q: char, x: string, ns: seq<string>, post: string, render: Directive -> string)
    requires IsQuote(q) && PlainName(x) && AllPlain(ns) && '@' !in pre && '@' !in post
    ensures ExpandFrom(pre + ArrayCall(q, x, ns) + post, 0, render)
      == pre + render(Directive(|pre| + |ArrayCall(q, x, ns)|, ArrayEntry(q, x, ns), None)) + post
  {
    var s := pre + ArrayCall(q, x, ns) + post;
    ArrayCallAtSign(q, x, ns);
    AtWhole(pre, ArrayCall(q, x, ns), post);
    OnlyAtSignOf(pre, ArrayCall(q, x, ns), post);
    ArrayExpandAt(s, |pre|, q, x, ns, render);
    Around(pre, ArrayCall(q, x, ns), post, render(Directive(|pre| + |ArrayCall(q, x, ns)|, ArrayEntry(q, x, ns), None)));
  }

  /**
   * `@vite(['a.js','b.js'])` in a template becomes the tag block
   * `generateHtml` builds for the listed entrypoints, in order, without
   * options, passed through `resolvePath`; the text around it is kept.
   */
  lemma {:induction false} ArrayForm(pre: string, q: char, x: string, ns: seq<string>, post: string, refreshHtml: string, site: Site)
    requires IsQuote(q) && PlainName(x) && AllPlain(ns) && '@' !in pre && '@' !in post
    ensures ResolveVite(pre + ArrayCall(q, x, ns) + post, refreshHtml, site)
      == pre + site.resolvePath(HtmlBlock(site.mode, site.devServerUrl, site.manifest, [x] + ns, NoOptions)) + post
  {
    var d := Directive(|pre| + |ArrayCall(q, x, ns)|, ArrayEntry(q, x, ns), None);
    ArrayTemplatePrepared(pre, q, x, ns, post, refreshHtml);
    ArrayTemplateExpanded(pre, q, x, ns, post, Renderer(site));
    ParseArrayEntry(q, x, ns);
    assert Renderer(site)(d) == RenderDirective(d, site);
  }

  // ---------------------------------------------------------------- the form with options

  /** What follows the quoted name in the form with options: `,{`, the options text, `})`. */
  function OptionsTail(o: string): string {
    ",{" + o + "})"
  }

  function OptionsCall(q: char, x: string, o: string): string {
    "@vite(" + Quoted(q, x) + OptionsTail(o)
  }

  /** The options group: from `{` to the `}` right before the first `)`, which closes the directive. */
  lemma {:induction false} OptionsGroupAt(s: string, brace: nat, o: string)
    requires o != [] && ')' !in o && brace + |o| + 2 < |s|
    requires s[brace] == '{' && At(s, brace + 1, o) && s[brace + |o| + 1] == '}' && s[brace + |o| + 2] == ')'
    ensures OptionsEnd(s, brace) == Some((brace + |o| + 2, brace + |o| + 2))
    ensures s[brace..brace + |o| + 2] == "{" + o + "}"
  {
    var z := brace + |o| + 2;
    forall k | brace < k < z - 1
      ensures s[k] != ')'
    {
      AtChar(s, brace + 1, o, k - brace - 1);
    }
    FindPast(s, brace, z, ')');
    assert SpaceStart(s, brace, z) == z;
    AtSlice(s, brace + 1, o);
    assert s[brace..z] == [s[brace]] + s[brace + 1..brace + 1 + |o|] + [s[z - 1]];
  }

  /** `,{...})` after the ENTRY closes a directive with options. */
  lemma {:induction false} OptionsCloseAt(s: string, p: nat, en: nat, o: string)
    requires p <= en && o != [] && ')' !in o && At(s, en, OptionsTail(o))
    ensures DirectiveClose(s, p, en) == Some(Directive(en + |o| + 4, s[p..en], Some("{" + o + "}")))
  {
    AtSplit(s, en, ",{" + o, "})");
    AtSplit(s, en, ",{", o);
    AtChar(s, en, ",{", 0);
    AtChar(s, en, ",{", 1);
    AtChar(s, en + |o| + 2, "})", 0);
    AtChar(s, en + |o| + 2, "})", 1);
    OptionsGroupAt(s, en + 1, o);
    assert SpaceEnd(s, en) == en && SpaceEnd(s, en + 1) == en + 1;
  }

  /** A quoted name is one ENTRY. */
  lemma {:induction false} QuotedEntryAt(s: string, p: nat, q: char, x: string)
    requires IsQuote(q) && PlainName(x) && At(s, p, Quoted(q, x))
    ensures EntryEnd(s, p) == Some(p + |x| + 2)
    ensures Quoted(q, x) != [] && !IsSpace(Quoted(q, x)[0])
  {
    AtChar(s, p, Quoted(q, x), 0);
    QuotedAt(s, p, q, x);
  }

  /** `@vite('a.js',{...})` is one directive whose entry is the quoted name and whose options are the group. */
  lemma {:induction false} OptionsDirectiveAt(s: string, i: nat, q: char, x: string, o: string)
    requires IsQuote(q) && PlainName(x) && o != [] && ')' !in o
    requires At(s, i, OptionsCall(q, x, o))
    ensures DirectiveAt(s, i) == Some(Directive(i + |OptionsCall(q, x, o)|, Quoted(q, x), Some("{" + o + "}")))
  {
    CallEntry(s, i, Quoted(q, x), OptionsTail(o));
    QuotedEntryAt(s, i + 6, q, x);
    DirectiveOpen(s, i, Quoted(q, x));
    OptionsCloseAt(s, i + 6, i + 8 + |x|, o);
  }

  /** The normaliser does not match at the `@` of `@vite('a.js',...`: the comma after the closing quote is not `)`. */
  lemma {:induction false} OptionsNotNormalised(s: string, i: nat, q: char, x: string)
    requires IsQuote(q) && PlainName(x)
    requires At(s, i, "@vite(" + Quoted(q, x) + ",")
    ensures NormaliseAt(s, i).None?
  {
    var w := "@vite(" + Quoted(q, x) + ",";
    var e := i + 7 + |x|;
    AtChar(s, i, w, 0);
    AtChar(s, i, w, 1);
    AtChar(s, i, w, 2);
    AtChar(s, i, w, 3);
    AtChar(s, i, w, 4);
    AtChar(s, i, w, 5);
    AtChar(s, i, w, 6);
    AtChar(s, i, w, 7);
    AtChar(s, i, w, 7 + |x|);
    AtChar(s, i, w, 8 + |x|);
    assert PlainChar(x[0]);
    assert SpaceEnd(s, i + 5) == i + 5;
    assert PadEnd(s, i + 6) == i + 7;
    assert w == "@vite(" + [q] + x + ([q] + ",");
    AtSplit(s, i, "@vite(" + [q] + x, [q] + ",");
    AtSplit(s, i, "@vite(" + [q], x);
    LazyOverPlain(s, i + 7, x);
    assert PadEnd(s, e) == e + 1;
    assert !Closes(s, e);
    assert LazyBodyEnd(s, e).None?;
  }

  lemma {:induction false} OptionsCallAtSign(q: char, x: string, o: string)
    requires IsQuote(q) && PlainName(x) && '@' !in o
    ensures |OptionsCall(q, x, o)| > 5 && OptionsCall(q, x, o)[0] == '@' && OptionsCall(q, x, o)[..6] != "@viteR"
    ensures '@' !in OptionsCall(q, x, o)[1..]
  {
    var body := "vite(" + Quoted(q, x) + ",{" + o + "})";
    assert OptionsCall(q, x, o) == "@" + body;
    assert OptionsCall(q, x, o)[1..] == body;
    assert OptionsCall(q, x, o)[..6][5] == '(';
    QuotedHasNoAt(q, x);
    assert '@' !in "vite(" && '@' !in ",{" && '@' !in "})";
  }

  /** In a template, the normaliser does not match at the directive with options. */
  lemma {:induction false} OptionsNotNormalisedIn(pre: string, q: char, x: string, o: string, post: string)
    requires IsQuote(q) && PlainName(x)
    ensures NormaliseAt(pre + OptionsCall(q, x, o) + post, |pre|).None?
  {
    var d := OptionsCall(q, x, o);
    AtWhole(pre, d, post);
    assert d == "@vite(" + Quoted(q, x) + "," + ("{" + o + "})");
    AtSplit(pre + d + post, |pre|, "@vite(" + Quoted(q, x) + ",", "{" + o + "})");
    OptionsNotNormalised(pre + d + post, |pre|, q, x);
  }

  /** Neither the refresh replacement nor the normaliser touches a template holding one directive with options. */
  lemma {:induction false} OptionsTemplatePrepared(pre: string, q: char, x: string, o: string, post: string, refreshHtml: string)
    requires IsQuote(q) && PlainName(x) && '@' !in o && '@' !in pre && '@' !in post
    ensures Prepared(pre + OptionsCall(q, x, o) + post, refreshHtml) == pre + OptionsCall(q, x, o) + post
  {
    OptionsCallAtSign(q, x, o);
    OptionsNotNormalisedIn(pre, q, x, o, post);
    PreparedTemplate(pre, OptionsCall(q, x, o), post, refreshHtml);
  }

  /** Where the form with options is the only `@` of a text, the directive pass replaces it and copies the rest. */
  lemma {:induction false} OptionsExpandAt(s: string, i: nat, q: char, x: string, o: string, render: Directive -> string)
    requires IsQuote(q) && PlainName(x) && o != [] && ')' !in o
    requires At(s, i, OptionsCall(q, x, o)) && OnlyAtSign(s, i)
    ensures ExpandFrom(s, 0, render)
      == s[..i] + render(Directive(i + |OptionsCall(q, x, o)|, Quoted(q, x), Some("{" + o + "}"))) + s[i + |OptionsCall(q, x, o)|..]
  {
    OptionsDirectiveAt(s, i, q, x, o);
    ExpandOnly(s, i, Directive(i + |OptionsCall(q, x, o)|, Quoted(q, x), Some("{" + o + "}")), render);
  }

  /** The directive pass replaces the directive with options by the callback's text for its entry and options. */
  lemma {:induction false} OptionsTemplateExpanded(pre: string, q: char, x: string, o: string, post: string, render: Directive -> string)
    requires IsQuote(q) && PlainName(x) && o != [] && ')' !in o && '@' !in o && '@' !in pre && '@' !in post
    ensures ExpandFrom(pre + OptionsCall(q, x, o) + post, 0, render)
      == pre + render(Directive(|pre| + |OptionsCall(q, x, o)|, Quoted(q, x), Some("{" + o + "}"))) + post
  {
    var s := pre + OptionsCall(q, x, o) + post;
    OptionsCallAtSign(q, x, o);
    AtWhole(pre, OptionsCall(q, x, o), post);
    OnlyAtSignOf(pre, OptionsCall(q, x, o), post);
    OptionsExpandAt(s, |pre|, q, x, o, render);
    assert s[..|pre|] == pre;
    assert s[|pre| + |OptionsCall(q, x, o)|..] == post;
  }

  /**
   * `@vite('a.js',{...})` in a template becomes the tag block `generateHtml`
   * builds for that one entrypoint with the options decoded from the group,
   * passed through `resolvePath`; the text around it is kept.
   */
  lemma {:induction false} OptionsForm(pre: string, q: char, x: string, o: string, post: string, refreshHtml: string, site: Site)
    requires IsQuote(q) && PlainName(x) && o != [] && ')' !in o && '@' !in o && '@' !in pre && '@' !in post
    ensures ResolveVite(pre + OptionsCall(q, x, o) + post, refreshHtml, site)
      == pre + site.resolvePath(HtmlBlock(site.mode, site.devServerUrl, site.manifest, [x], site.decodeOptions("{" + o + "}"))) + post
  {
    var d := Directive(|pre| + |OptionsCall(q, x, o)|, Quoted(q, x), Some("{" + o + "}"));
    OptionsTemplatePrepared(pre, q, x, o, post, refreshHtml);
    OptionsTemplateExpanded(pre, q, x, o, post, Renderer(site));
    ParseSingleEntry(q, x);
    assert Renderer(site)(d) == RenderDirective(d, site);
  }

  // ---------------------------------------------------------------- the spellings the normaliser rewrites

  predicate AllSpace(w: string) {
    forall k :: 0 <= k < |w| ==> IsSpace(w[k])
  }

  predicate AllPad(w: string) {
    forall k :: 0 <= k < |w| ==> IsPad(w[k])
  }

  /**
   * A loose spelling: `@vit` or `@vite`, white space, `(`, padding, a plain
   * name, padding and `)`, as in `@vite('a.js')` or `@vit ( "a.js" )`.
   */
  function LooseCall(e: string, ws: string, padL: string, x: string, padR: string): string {
    "@vit" + e + ws + "(" + padL + x + padR + ")"
  }

  /** The text after a match of the normaliser: an immediately following `;` is consumed with it. */
  function DropSemicolon(post: string): string {
    if post != [] && post[0] == ';' then post[1..] else post
  }

  lemma {:induction false} AtSpaces(s: string, j: nat, w: string)
    requires At(s, j, w) && AllSpace(w)
    ensures forall k :: j <= k < j + |w| ==> IsSpace(s[k])
  {
    forall k | j <= k < j + |w|
      ensures IsSpace(s[k])
    {
      AtChar(s, j, w, k - j);
    }
  }

  lemma {:induction false} AtPads(s: string, j: nat, w: string)
    requires At(s, j, w) && AllPad(w)
    ensures forall k :: j <= k < j + |w| ==> IsPad(s[k])
  {
    forall k | j <= k < j + |w|
      ensures IsPad(s[k])
    {
      AtChar(s, j, w, k - j);
    }
  }

  /** From the start of the argument: a plain name, padding and `)` are rewritten to `@vite(` name `)`. */
  lemma {:induction false} LooseArgumentAt(s: string, b: nat, x: string, padR: string, c: nat)
    requires PlainName(x) && AllPad(padR) && At(s, b, x + padR + ")") && c == b + |x| + |padR| + 1
    ensures NormaliseArgument(s, b) == Some(Rewrite(if c < |s| && s[c] == ';' then c + 1 else c, "@vite(" + x + ")"))
  {
    var xe := b + |x|;
    var close := xe + |padR|;
    AtSplit(s, b, x + padR, ")");
    AtSplit(s, b, x, padR);
    LazyOverPlain(s, b, x);
    AtPads(s, xe, padR);
    PadEndOver(s, xe, close);
    AtChar(s, close, ")", 0);
    assert PadEnd(s, close) == close;
    assert Closes(s, xe);
    assert LazyBodyEnd(s, xe) == Some(xe);
    AtSlice(s, b, x);
  }

  /** The normaliser pattern up to the argument: `@vit`, where the optional `e` leaves off, `(` and the padding after it. */
  lemma {:induction false} NormaliseOpen(s: string, i: nat, afterE: nat, op: nat, b: nat)
    requires VitAt(s, i) && afterE == (if i + 4 < |s| && s[i + 4] == 'e' then i + 5 else i + 4)
    requires afterE <= op < |s| && s[op] == '(' && SpaceEnd(s, afterE) == op && PadEnd(s, op + 1) == b
    ensures NormaliseAt(s, i) == NormaliseArgument(s, b)
  {
    assert NormaliseAt(s, i) == NormaliseArgument(s, PadEnd(s, op + 1));
  }

  /** `@vit` and an optional `e`: where the optional `e` of the pattern leaves off, when no other `e` follows. */
  lemma {:induction false} VitOpenAt(s: string, i: nat, e: string)
    requires (e == "" || e == "e") && At(s, i, "@vit" + e)
    requires i + 4 + |e| < |s| && s[i + 4 + |e|] != 'e'
    ensures VitAt(s, i)
    ensures (if i + 4 < |s| && s[i + 4] == 'e' then i + 5 else i + 4) == i + 4 + |e|
  {
    AtChar(s, i, "@vit" + e, 0);
    AtChar(s, i, "@vit" + e, 1);
    AtChar(s, i, "@vit" + e, 2);
    AtChar(s, i, "@vit" + e, 3);
    if e == "e" {
      AtChar(s, i, "@vit" + e, 4);
    }
  }

  /** White space and then `(`: the white-space run ends at the `(`. */
  lemma {:induction false} SpacesThenParen(s: string, j: nat, ws: string)
    requires AllSpace(ws) && At(s, j, ws + "(")
    ensures SpaceEnd(s, j) == j + |ws| && s[j + |ws|] == '(' && s[j] != 'e'
  {
    AtSplit(s, j, ws, "(");
    AtChar(s, j + |ws|, "(", 0);
    AtSpaces(s, j, ws);
    SpaceEndOver(s, j, j + |ws|);
    if ws != [] {
      AtChar(s, j, ws, 0);
    }
  }

  /** Padding and then something else: the padding run ends there. */
  lemma {:induction false} PadsThenOther(s: string, j: nat, w: string)
    requires AllPad(w) && At(s, j, w) && j + |w| < |s| && !IsPad(s[j + |w|])
    ensures PadEnd(s, j) == j + |w|
  {
    AtPads(s, j, w);
    PadEndOver(s, j, j + |w|);
  }

  /** Up to the start of the argument: `@vit`, an optional `e`, white space, `(` and padding. */
  lemma {:induction false} LooseOpenAt(s: string, i: nat, e: string, ws: string, padL: string)
    requires (e == "" || e == "e") && AllSpace(ws) && AllPad(padL)
    requires At(s, i, "@vit" + e + ws + "(" + padL)
    requires i + 5 + |e| + |ws| + |padL| < |s| && !IsPad(s[i + 5 + |e| + |ws| + |padL|])
    ensures NormaliseAt(s, i) == NormaliseArgument(s, i + 5 + |e| + |ws| + |padL|)
  {
    var o1 := i + 4 + |e|;
    var op := o1 + |ws|;
    var b := i + 5 + |e| + |ws| + |padL|;
    AtSplit(s, i, "@vit" + e + ws + "(", padL);
    assert "@vit" + e + ws + "(" == "@vit" + e + (ws + "(");
    AtSplit(s, i, "@vit" + e, ws + "(");
    SpacesThenParen(s, o1, ws);
    VitOpenAt(s, i, e);
    PadsThenOther(s, op + 1, padL);
    NormaliseOpen(s, i, o1, op, b);
  }

  /** A loose spelling is one match of the normaliser, rewritten to `@vite(` name `)`. */
  lemma {:induction false} LooseNormaliseAt(s: string, i: nat, e: string, ws: string, padL: string, x: string, padR: string)
    requires (e == "" || e == "e") && AllSpace(ws) && AllPad(padL) && PlainName(x) && AllPad(padR)
    requires At(s, i, LooseCall(e, ws, padL, x, padR))
    ensures var c := i + |LooseCall(e, ws, padL, x, padR)|;
      NormaliseAt(s, i) == Some(Rewrite(if c < |s| && s[c] == ';' then c + 1 else c, "@vite(" + x + ")"))
  {
    var b := i + 5 + |e| + |ws| + |padL|;
    LooseSplitAt(s, i, e, ws, padL, x, padR);
    LooseOpenAt(s, i, e, ws, padL);
    LooseArgumentAt(s, b, x, padR, i + |LooseCall(e, ws, padL, x, padR)|);
  }

  /** A loose spelling is its opening, then the name, padding and `)`. */
  lemma {:induction false} LooseSplitAt(s: string, i: nat, e: string, ws: string, padL: string, x: string, padR: string)
    requires PlainName(x) && At(s, i, LooseCall(e, ws, padL, x, padR))
    ensures var b := i + 5 + |e| + |ws| + |padL|;
      && At(s, i, "@vit" + e + ws + "(" + padL) && At(s, b, x + padR + ")")
      && b < |s| && !IsPad(s[b]) && i + |LooseCall(e, ws, padL, x, padR)| == b + |x| + |padR| + 1
  {
    var open := "@vit" + e + ws + "(" + padL;
    var b := i + 5 + |e| + |ws| + |padL|;
    assert LooseCall(e, ws, padL, x, padR) == open + (x + padR + ")");
    AtSplit(s, i, open, x + padR + ")");
    AtChar(s, b, x + padR + ")", 0);
    assert PlainChar(x[0]);
  }

  /** A match at `i` is rewritten, and the scan resumes after it. */
  lemma {:induction false} NormaliseHit(s: string, i: nat, w: Rewrite)
    requires i < |s| && NormaliseAt(s, i) == Some(w)
    ensures NormaliseFrom(s, i) == w.text + NormaliseFrom(s, w.end)
  {
  }

  /** From `j` on, where there is no `@`, the normaliser copies the rest. */
  lemma {:induction false} NormaliseRest(s: string, j: nat)
    requires j <= |s| && forall k :: j <= k < |s| ==> s[k] != '@'
    ensures NormaliseFrom(s, j) == s[j..]
  {
    assert forall k :: j <= k < |s| ==> !VitAt(s, k);
    NormaliseSkip(s, j, |s|);
    assert NormaliseFrom(s, |s|) == [];
    assert s[j..|s|] + [] == s[j..];
  }

  /** The normaliser rewrites the one match of a text whose only `@` starts it, and copies the rest. */
  lemma {:induction false} NormaliseOnlyMatch(s: string, i: nat, w: Rewrite)
    requires i < |s| && OnlyAtSign(s, i) && NormaliseAt(s, i) == Some(w)
    ensures Normalise(s) == s[..i] + w.text + s[w.end..]
  {
    assert forall k :: 0 <= k < i ==> !VitAt(s, k);
    NormaliseSkip(s, 0, i);
    NormaliseHit(s, i, w);
    NormaliseRest(s, w.end);
    assert s[0..i] == s[..i];
  }

  lemma {:induction false} LooseCallAtSign(e: string, ws: string, padL: string, x: string, padR: string)
    requires AllSpace(ws) && AllPad(padL) && PlainName(x) && AllPad(padR)
    ensures LooseCall(e, ws, padL, x, padR)[0] == '@'
    ensures e == "" || e == "e" ==> '@' !in LooseCall(e, ws, padL, x, padR)[1..]
  {
    var body := "vit" + e + ws + "(" + padL + x + padR + ")";
    assert LooseCall(e, ws, padL, x, padR) == "@" + body;
    assert LooseCall(e, ws, padL, x, padR)[1..] == body;
    assert '@' !in x && '@' !in ws && '@' !in padL && '@' !in padR;
  }

  /** Where a loose spelling is the only `@` of a text, the normaliser rewrites it, with a `;` right after it, and copies the rest. */
  lemma {:induction false} LooseNormalisedAt(s: string, i: nat, e: string, ws: string, padL: string, x: string, padR: string)
    requires (e == "" || e == "e") && AllSpace(ws) && AllPad(padL) && PlainName(x) && AllPad(padR)
    requires At(s, i, LooseCall(e, ws, padL, x, padR)) && OnlyAtSign(s, i)
    ensures var c := i + |LooseCall(e, ws, padL, x, padR)|;
      Normalise(s) == s[..i] + PlainCall(x) + s[if c < |s| && s[c] == ';' then c + 1 else c..]
  {
    var c := i + |LooseCall(e, ws, padL, x, padR)|;
    LooseNormaliseAt(s, i, e, ws, padL, x, padR);
    NormaliseOnlyMatch(s, i, Rewrite(if c < |s| && s[c] == ';' then c + 1 else c, PlainCall(x)));
  }

  /** What follows a middle part, less a `;` right after it, is the last part less its leading `;`. */
  lemma {:induction false} AfterSemicolon(pre: string, d: string, post: string)
    ensures var s := pre + d + post; var c := |pre| + |d|;
      s[if c < |s| && s[c] == ';' then c + 1 else c..] == DropSemicolon(post)
  {
    var s := pre + d + post;
    var c := |pre| + |d|;
    assert s[c..] == post;
    if c < |s| {
      assert s[c] == post[0];
      assert s[c + 1..] == post[1..];
    }
  }

  /** In a template, a loose spelling is rewritten to `@vite(` name `)`, together with a `;` right after it. */
  lemma {:induction false} LooseTemplateNormalised(pre: string, e: string, ws: string, padL: string, x: string, padR: string, post: string)
    requires (e == "" || e == "e") && AllSpace(ws) && AllPad(padL) && PlainName(x) && AllPad(padR)
    requires '@' !in pre && '@' !in post
    ensures Normalise(pre + LooseCall(e, ws, padL, x, padR) + post) == pre + PlainCall(x) + DropSemicolon(post)
  {
    var d := LooseCall(e, ws, padL, x, padR);
    var s := pre + d + post;
    var c := |pre| + |d|;
    assert Normalise(s) == s[..|pre|] + PlainCall(x) + s[if c < |s| && s[c] == ';' then c + 1 else c..] by {
      LooseCallAtSign(e, ws, padL, x, padR);
      AtWhole(pre, d, post);
      OnlyAtSignOf(pre, d, post);
      LooseNormalisedAt(s, |pre|, e, ws, padL, x, padR);
    }
    assert s[..|pre|] == pre;
    AfterSemicolon(pre, d, post);
  }

  /** What the normaliser makes of a loose spelling: `@vite(` name `)`, unquoted. */
  function PlainCall(x: string): string {
    "@vite(" + x + ")"
  }

  /** `@vite(` plain name `)` is no directive: the grammar wants a quote or `[` first. */
  lemma {:induction false} PlainCallNotDirective(t: string, j: nat, x: string)
    requires PlainName(x) && At(t, j, "@vite(" + x + ")")
    ensures DirectiveAt(t, j).None?
  {
    AtSplit(t, j, "@vite(" + x, ")");
    AtSplit(t, j, "@vite(", x);
    AtChar(t, j + 6, x, 0);
    assert PlainChar(x[0]);
    assert SpaceEnd(t, j + 6) == j + 6;
  }

  /** `@vite(` plain name `)` holds no `@` after its first character. */
  lemma {:induction false} PlainCallAtSign(x: string)
    requires PlainName(x)
    ensures PlainCall(x) != [] && '@' !in PlainCall(x)[1..]
  {
    assert PlainCall(x)[1..] == "vite(" + x + ")";
    assert '@' !in x;
  }

  /** A text whose only `@` starts `@vite(` plain name `)` passes the directive pass unchanged. */
  lemma {:induction false} PlainCallNowhere(t: string, j: nat, x: string, render: Directive -> string)
    requires PlainName(x) && At(t, j, PlainCall(x)) && OnlyAtSign(t, j)
    ensures ExpandFrom(t, 0, render) == t
  {
    PlainCallNotDirective(t, j, x);
    ExpandNowhere(t, j, render);
  }

  /** A text whose only `@` starts `@vite(` plain name `)` makes the callback run not at all. */
  lemma {:induction false} PlainCallUncounted(t: string, j: nat, x: string)
    requires PlainName(x) && At(t, j, PlainCall(x)) && OnlyAtSign(t, j)
    ensures DirectiveCountFrom(t, 0) == 0
  {
    PlainCallNotDirective(t, j, x);
    assert forall k :: 0 <= k < j ==> !VitAt(t, k);
    assert forall k :: j + 1 <= k < |t| ==> !VitAt(t, k);
    CountSkip(t, 0, j);
    CountSkip(t, j + 1, |t|);
  }

  /** The directive pass copies a template whose only `@` starts `@vite(` plain name `)`. */
  lemma {:induction false} PlainCallUnexpanded(pre: string, x: string, post: string, render: Directive -> string)
    requires PlainName(x) && '@' !in pre && '@' !in post
    ensures ExpandFrom(pre + PlainCall(x) + post, 0, render) == pre + PlainCall(x) + post
  {
    PlainCallAtSign(x);
    OnlyAtSignOf(pre, PlainCall(x), post);
    AtWhole(pre, PlainCall(x), post);
    PlainCallNowhere(pre + PlainCall(x) + post, |pre|, x, render);
  }

  /** The loose spelling does not start the refresh directive. */
  lemma {:induction false} LooseNotRefresh(e: string, ws: string, padL: string, x: string, padR: string)
    requires (e == "" || e == "e") && AllSpace(ws) && PlainName(x)
    ensures |LooseCall(e, ws, padL, x, padR)| > 5 && LooseCall(e, ws, padL, x, padR)[..6] != "@viteR"
  {
    var d := LooseCall(e, ws, padL, x, padR);
    if e == "e" && ws == [] {
      assert d[5] == '(';
    } else if e == "e" {
      assert d[5] == ws[0];
      assert IsSpace(ws[0]);
    } else if ws == [] {
      assert d[4] == '(';
    } else {
      assert d[4] == ws[0];
      assert IsSpace(ws[0]);
    }
  }

  /**
   * A loose spelling such as `@vite('a.js')` or `@vit ( "a.js" );` is
   * rewritten by the normaliser to `@vite(a.js)`, which the directive
   * grammar does not accept, so the rewritten text is what the page gets.
   */
  lemma {:induction false} LooseForm(pre: string, e: string, ws: string, padL: string, x: string, padR: string, post: string,
                  refreshHtml: string, site: Site)
    requires (e == "" || e == "e") && AllSpace(ws) && AllPad(padL) && PlainName(x) && AllPad(padR)
    requires '@' !in pre && '@' !in post
    ensures ResolveVite(pre + LooseCall(e, ws, padL, x, padR) + post, refreshHtml, site)
      == pre + PlainCall(x) + DropSemicolon(post)
  {
    var d := LooseCall(e, ws, padL, x, padR);
    LooseCallAtSign(e, ws, padL, x, padR);
    LooseNotRefresh(e, ws, padL, x, padR);
    RefreshAbsentAround(pre, d, post, refreshHtml);
    LooseTemplateNormalised(pre, e, ws, padL, x, padR, post);
    assert '@' !in DropSemicolon(post);
    PlainCallUnexpanded(pre, x, DropSemicolon(post), Renderer(site));
  }

  // ---------------------------------------------------------------- what the normaliser writes is never a directive

  /** `@vite(`, characters of the normaliser's argument class, `)`: the shape of every text the normaliser writes. */
  predicate UnquotedCall(v: string) {
    |v| >= 7 && v[..6] == "@vite(" && v[|v| - 1] == ')' && forall k :: 6 <= k < |v| - 1 ==> IsBodyChar(v[k])
  }

  lemma {:induction false} ArgumentShape(s: string, b: nat)
    requires b <= |s| && NormaliseArgument(s, b).Some?
    ensures UnquotedCall(NormaliseArgument(s, b).value.text)
  {
    var e := LazyBodyEnd(s, b).value;
    LazyBodyShortest(s, b);
    var v := "@vite(" + s[b..e] + ")";
    assert NormaliseArgument(s, b).value.text == v;
    forall k | 6 <= k < |v| - 1
      ensures IsBodyChar(v[k])
    {
      assert v[k] == s[b + k - 6];
    }
    assert v[..6] == "@vite(";
  }

  /** Every rewrite of the normaliser is `@vite(` unquoted argument `)`. */
  lemma {:induction false} RewriteShape(s: string, i: nat)
    requires i <= |s| && NormaliseAt(s, i).Some?
    ensures UnquotedCall(NormaliseAt(s, i).value.text)
  {
    var afterE := if i + 4 < |s| && s[i + 4] == 'e' then i + 5 else i + 4;
    var open := SpaceEnd(s, afterE);
    ArgumentShape(s, PadEnd(s, open + 1));
  }

  /** `@vite(` unquoted argument `)` is no directive: the grammar's ENTRY starts with a quote or `[` and a quote. */
  lemma {:induction false} UnquotedCallNotDirective(t: string, j: nat, v: string)
    requires UnquotedCall(v) && At(t, j, v)
    ensures DirectiveAt(t, j).None?
  {
    var close := j + |v| - 1;
    AtChar(t, j, v, |v| - 1);
    var p := SpaceEnd(t, j + 6);
    SpaceEndSpec(t, j + 6);
    assert p <= close;
    if p < close {
      AtChar(t, j, v, p - j);
      assert IsBodyChar(t[p]);
      if t[p] == '[' {
        AtChar(t, j, v, p + 1 - j);
        assert !IsQuote(t[p + 1]);
      }
    }
  }

  /**
   * Whatever text the normaliser writes, wherever it stands, the directive
   * grammar does not match at it: the normaliser drops the quotes the
   * grammar needs, so no rewritten directive is ever expanded.
   */
  lemma {:induction false} NormalisedNeverExpanded(s: string, i: nat, t: string, j: nat)
    requires i <= |s| && NormaliseAt(s, i).Some? && At(t, j, NormaliseAt(s, i).value.text)
    ensures DirectiveAt(t, j).None?
  {
    RewriteShape(s, i);
    UnquotedCallNotDirective(t, j, NormaliseAt(s, i).value.text);
  }

  // ---------------------------------------------------------------- how many times the callback runs

  lemma {:induction false} CountSkip(s: string, i: nat, j: nat)
    requires i <= j <= |s|
    requires forall k :: i <= k < j ==> !VitAt(s, k)
    ensures DirectiveCountFrom(s, i) == DirectiveCountFrom(s, j)
    decreases j - i
  {
    if i < j {
      CountSkip(s, i + 1, j);
      assert DirectiveAt(s, i).None?;
    }
  }

  /** A text whose only `@` starts a directive makes the callback run once. */
  lemma {:induction false} CountOnly(s: string, i: nat, d: Directive)
    requires i < |s| && OnlyAtSign(s, i) && DirectiveAt(s, i) == Some(d)
    ensures DirectiveCountFrom(s, 0) == 1
  {
    assert forall k :: 0 <= k < i ==> !VitAt(s, k);
    assert forall k :: d.end <= k < |s| ==> !VitAt(s, k);
    CountSkip(s, 0, i);
    CountSkip(s, d.end, |s|);
    assert DirectiveCountFrom(s, |s|) == 0;
  }

  /** A text whose only `@` starts the array form makes the callback run once. */
  lemma {:induction false} ArrayCountAt(s: string, i: nat, q: char, x: string, ns: seq<string>)
    requires IsQuote(q) && PlainName(x) && AllPlain(ns)
    requires At(s, i, ArrayCall(q, x, ns)) && OnlyAtSign(s, i)
    ensures DirectiveCountFrom(s, 0) == 1
  {
    ArrayDirectiveAt(s, i, q, x, ns);
    CountOnly(s, i, Directive(i + |ArrayCall(q, x, ns)|, ArrayEntry(q, x, ns), None));
  }

  /** The array form makes `resolveVite` call `generateHtml` once. */
  lemma {:induction false} ArrayFormCount(pre: string, q: char, x: string, ns: seq<string>, post: string, refreshHtml: string)
    requires IsQuote(q) && PlainName(x) && AllPlain(ns) && '@' !in pre && '@' !in post
    ensures DirectiveCountFrom(Prepared(pre + ArrayCall(q, x, ns) + post, refreshHtml), 0) == 1
  {
    ArrayTemplatePrepared(pre, q, x, ns, post, refreshHtml);
    ArrayCallAtSign(q, x, ns);
    AtWhole(pre, ArrayCall(q, x, ns), post);
    OnlyAtSignOf(pre, ArrayCall(q, x, ns), post);
    ArrayCountAt(pre + ArrayCall(q, x, ns) + post, |pre|, q, x, ns);
  }

  /** A loose spelling makes `resolveVite` call `generateHtml` not at all. */
  lemma {:induction false} LooseFormCount(pre: string, e: string, ws: string, padL: string, x: string, padR: string, post: string,
                       refreshHtml: string)
    requires (e == "" || e == "e") && AllSpace(ws) && AllPad(padL) && PlainName(x) && AllPad(padR)
    requires '@' !in pre && '@' !in post
    ensures DirectiveCountFrom(Prepared(pre + LooseCall(e, ws, padL, x, padR) + post, refreshHtml), 0) == 0
  {
    var d := LooseCall(e, ws, padL, x, padR);
    LooseCallAtSign(e, ws, padL, x, padR);
    LooseNotRefresh(e, ws, padL, x, padR);
    RefreshAbsentAround(pre, d, post, refreshHtml);
    LooseTemplateNormalised(pre, e, ws, padL, x, padR, post);
    var rest := DropSemicolon(post);
    assert '@' !in rest;
    PlainCallAtSign(x);
    OnlyAtSignOf(pre, PlainCall(x), rest);
    AtWhole(pre, PlainCall(x), rest);
    PlainCallUncounted(pre + PlainCall(x) + rest, |pre|, x);
  }

  // ---------------------------------------------------------------- the refresh directive

  lemma {:induction false} NoAtNoVit(s: string)
    requires '@' !in s
    ensures !Contains(s, "@vit")
    decreases |s|
  {
    if s != [] {
      assert s[0] != '@';
      NoAtNoVit(s[1..]);
    }
  }

  /** Every `@viteReactRefresh` is replaced by the preamble; text around it without `@` is kept. */
  lemma {:induction false} RefreshReplaced(pre: string, post: string, refreshHtml: string)
    requires '@' !in pre && '@' !in post
    ensures ReplaceAll(pre + ReactRefreshDirective + post, ReactRefreshDirective, refreshHtml) == pre + refreshHtml + post
  {
    var R := ReactRefreshDirective;
    assert pre + R + post == pre + (R + post);
    ReplaceAllSkip(pre, R + post, R, refreshHtml);
    ReplaceAllHit(post, R, refreshHtml);
    assert post + [] == post;
    ReplaceAllSkip(post, [], R, refreshHtml);
  }

  /**
   * `@viteReactRefresh` in a template becomes the preamble, and neither the
   * normaliser nor the directive pass changes the result when it holds no
   * `@vit`.
   */
  lemma {:induction false} RefreshResolved(pre: string, post: string, refreshHtml: string, site: Site)
    requires '@' !in pre && '@' !in post && !Contains(pre + refreshHtml + post, "@vit")
    ensures ResolveVite(pre + ReactRefreshDirective + post, refreshHtml, site) == pre + refreshHtml + post
  {
    RefreshReplaced(pre, post, refreshHtml);
    NormaliseAbsent(pre + refreshHtml + post);
    ExpandAbsent(pre + refreshHtml + post, site);
  }

  /** In production the preamble is empty, so `@viteReactRefresh` simply disappears. */
  lemma {:induction false} RefreshInProduction(pre: string, post: string, devServerUrl: string, site: Site)
    requires '@' !in pre && '@' !in post
    ensures ResolveVite(pre + ReactRefreshDirective + post, ReactRefreshHtml(Production, devServerUrl), site) == pre + post
  {
    assert pre + ReactRefreshHtml(Production, devServerUrl) + post == pre + post;
    assert '@' !in pre + post;
    NoAtNoVit(pre + post);
    RefreshResolved(pre, post, ReactRefreshHtml(Production, devServerUrl), site);
  }
}
