/**
 * The template rewriter of src/Hook.php (`resolveVite`): three passes over
 * the template text, each a left-to-right scan.
 *
 *  1. every literal `@viteReactRefresh` becomes the React refresh preamble;
 *  2. the normaliser pattern rewrites loose spellings such as
 *     `@vit ( 'main.js' );` to `@vite(main.js)`;
 *  3. the directive grammar finds `@vite( ENTRY [, {OPTIONS}] )` and replaces
 *     each occurrence with the rendered tag block.
 *
 * The two patterns are written out as recognisers over positions of the
 * scanned text: each takes the position where a match is tried and returns
 * where the match ends. Both patterns are compiled in UTF-8 mode, where
 * PCRE2's `\s` is its Unicode white-space class (IsSpace below), which
 * already holds the tab and the ideographic space the patterns list besides `\s`.
 */
module Directives {
  import opened Wrappers
  import opened PhpText
  import opened AssetGraph

  // ---------------------------------------------------------------- character classes

  /** `\s` in UTF-8 mode: tab to carriage return, space, NEL, and the Unicode separators. */
  predicate IsSpace(c: char) {
    '\t' <= c <= '\r' || c == ' ' || c == '\U{85}' || c == '\U{A0}' || c == '\U{1680}' || c == '\U{180E}'
    || '\U{2000}' <= c <= '\U{200A}' || c == '\U{2028}' || c == '\U{2029}' || c == '\U{202F}'
    || c == '\U{205F}' || c == '\U{3000}'
  }

  predicate IsQuote(c: char) {
    c == '\'' || c == '"'
  }

  /** The normaliser's padding class around the argument: white space and quotes. */
  predicate IsPad(c: char) {
    IsSpace(c) || IsQuote(c)
  }

  /** The normaliser's argument class: anything but `)`, a newline or a quote. */
  predicate IsBodyChar(c: char) {
    c != ')' && c != '\n' && !IsQuote(c)
  }

  /** Where a greedy `\s*` started at `i` stops. */
  function SpaceEnd(s: string, i: nat): (j: nat)
    requires i <= |s|
    ensures i <= j <= |s|
    decreases |s| - i
  {
    if i < |s| && IsSpace(s[i]) then SpaceEnd(s, i + 1) else i
  }

  /** Where a greedy run of padding (`[\t'"\s　]*`) started at `i` stops. */
  function PadEnd(s: string, i: nat): (j: nat)
    requires i <= |s|
    ensures i <= j <= |s|
    decreases |s| - i
  {
    if i < |s| && IsPad(s[i]) then PadEnd(s, i + 1) else i
  }

  /** Where the white space that ends `s[lo..hi]` begins. */
  function SpaceStart(s: string, lo: nat, hi: nat): (j: nat)
    requires lo <= hi <= |s|
    ensures lo <= j <= hi
    decreases hi - lo
  {
    if lo < hi && IsSpace(s[hi - 1]) then SpaceStart(s, lo, hi - 1) else hi
  }

  /** The first position at or after `i` that holds `c`, if there is one. */
  function Find(s: string, i: nat, c: char): (r: Option<nat>)
    requires i <= |s|
    ensures r.Some? ==> i <= r.value < |s| && s[r.value] == c
    decreases |s| - i
  {
    if i == |s| then None
    else if s[i] == c then Some(i)
    else Find(s, i + 1, c)
  }

  // ---------------------------------------------------------------- the normaliser (Hook.php:57-61)

  /** A replacement found at a position: where the match ends and the text put in its place. */
  datatype Rewrite = Rewrite(end: nat, text: string)

  /** `@vit` at position `i`. */
  predicate VitAt(s: string, i: nat) {
    i + 4 <= |s| && s[i] == '@' && s[i + 1] == 'v' && s[i + 2] == 'i' && s[i + 3] == 't'
  }

  /** The argument may end at `e`: the padding that follows is closed by `)`. */
  predicate Closes(s: string, e: nat)
    requires e <= |s|
  {
    var z := PadEnd(s, e);
    z < |s| && s[z] == ')'
  }

  /**
   * The lazy argument `([^)\n'"]*?)` started at `b`, followed by greedy
   * padding and `)`: it ends at the first place where the text closes, and
   * there is no match when argument characters run out before one.
   */
  function LazyBodyEnd(s: string, b: nat): (r: Option<nat>)
    requires b <= |s|
    ensures r.Some? ==> b <= r.value <= |s| && Closes(s, r.value)
    decreases |s| - b
  {
    if Closes(s, b) then Some(b)
    else if b < |s| && IsBodyChar(s[b]) then LazyBodyEnd(s, b + 1)
    else None
  }

  /**
   * The normaliser pattern tried at `i`: `@vit`, an optional `e`, white
   * space, `(`, padding, the lazy argument, padding, `)` and an optional `;`,
   * rewritten to `@vite(` argument `)`.
   */
  function NormaliseAt(s: string, i: nat): (r: Option<Rewrite>)
    requires i <= |s|
    ensures r.Some? ==> i < r.value.end <= |s| && VitAt(s, i)
  {
    if !VitAt(s, i) then None
    else
      var afterE := if i + 4 < |s| && s[i + 4] == 'e' then i + 5 else i + 4;
      var open := SpaceEnd(s, afterE);
      if open == |s| || s[open] != '(' then None
      else NormaliseArgument(s, PadEnd(s, open + 1))
  }

  /** The rest of the normaliser pattern, from the start `b` of the argument to the closing `)` and optional `;`. */
  function NormaliseArgument(s: string, b: nat): (r: Option<Rewrite>)
    requires b <= |s|
    ensures r.Some? ==> b < r.value.end <= |s|
  {
    match LazyBodyEnd(s, b)
    case None => None
    case Some(e) =>
      var close := PadEnd(s, e);
      var end := if close + 1 < |s| && s[close + 1] == ';' then close + 2 else close + 1;
      Some(Rewrite(end, "@vite(" + s[b..e] + ")"))
  }

  /** `preg_replace` with the normaliser pattern, from position `i` on: matches are rewritten left to right, the rest copied. */
  function NormaliseFrom(s: string, i: nat): string
    requires i <= |s|
    decreases |s| - i
  {
    if i == |s| then []
    else
      match NormaliseAt(s, i)
      case Some(w) => w.text + NormaliseFrom(s, w.end)
      case None => [s[i]] + NormaliseFrom(s, i + 1)
  }

  function Normalise(s: string): string {
    NormaliseFrom(s, 0)
  }

  // ---------------------------------------------------------------- the directive grammar (Hook.php:62)

  /** `"[^"]*"` or `'[^']*'` at `i`: where the quoted string ends. */
  function QuotedEnd(s: string, i: nat): (r: Option<nat>)
    requires i <= |s|
    ensures r.Some? ==> i + 2 <= r.value <= |s| && IsQuote(s[i]) && s[r.value - 1] == s[i]
  {
    if i < |s| && IsQuote(s[i]) then
      match Find(s, i + 1, s[i])
      case Some(q) => Some(q + 1)
      case None => None
    else None
  }

  /** One repetition `\s*,\s*STR` at `i`. */
  function NextStringEnd(s: string, i: nat): (r: Option<nat>)
    requires i <= |s|
    ensures r.Some? ==> i < r.value <= |s|
  {
    var k := SpaceEnd(s, i);
    if k < |s| && s[k] == ',' then QuotedEnd(s, SpaceEnd(s, k + 1))
    else None
  }

  /**
   * `(?:\s*,\s*STR)*\]` at `i`: as many further strings as there are, then
   * the closing bracket. The repetition is greedy and giving a repetition
   * back never puts a `]` next, so there is no backtracking.
   */
  function ArrayTailEnd(s: string, i: nat): (r: Option<nat>)
    requires i <= |s|
    ensures r.Some? ==> i < r.value <= |s| && s[r.value - 1] == ']'
    decreases |s| - i
  {
    match NextStringEnd(s, i)
    case Some(j) => ArrayTailEnd(s, j)
    case None => if i < |s| && s[i] == ']' then Some(i + 1) else None
  }

  /** ENTRY at `p`: a bracketed list of strings, or one string. */
  function EntryEnd(s: string, p: nat): (r: Option<nat>)
    requires p <= |s|
    ensures r.Some? ==> p < r.value <= |s|
  {
    if p < |s| && s[p] == '[' then
      match QuotedEnd(s, p + 1)
      case None => None
      case Some(q) => ArrayTailEnd(s, q)
    else QuotedEnd(s, p)
  }

  /**
   * The options group `{[^)]+}` and the `\s*)` after it, at a `{`: the group
   * can only end at the last non-space before the first `)`, and must hold a
   * character between its braces. Gives the end `y` of the group and the
   * position `z` of the `)`.
   */
  function OptionsEnd(s: string, brace: nat): (r: Option<(nat, nat)>)
    requires brace < |s| && s[brace] == '{'
    ensures r.Some? ==> brace + 3 <= r.value.0 <= r.value.1 < |s| && s[r.value.0 - 1] == '}' && s[r.value.1] == ')'
  {
    match Find(s, brace, ')')
    case None => None
    case Some(z) =>
      var y := SpaceStart(s, brace, z);
      if y >= brace + 3 && s[y - 1] == '}' then Some((y, z)) else None
  }

  /** A directive found at a position: where it ends, the ENTRY text and the options text if given. */
  datatype Directive = Directive(end: nat, entry: string, options: Option<string>)

  /** `@vite(` at position `i`. */
  predicate ViteCallAt(s: string, i: nat) {
    VitAt(s, i) && i + 6 <= |s| && s[i + 4] == 'e' && s[i + 5] == '('
  }

  /** The directive grammar tried at `i`. */
  function DirectiveAt(s: string, i: nat): (r: Option<Directive>)
    requires i <= |s|
    ensures r.Some? ==> i < r.value.end <= |s| && ViteCallAt(s, i)
  {
    if !ViteCallAt(s, i) then None
    else
      var p := SpaceEnd(s, i + 6);
      match EntryEnd(s, p)
      case None => None
      case Some(en) => DirectiveClose(s, p, en)
  }

  /** The rest of the directive grammar, after the ENTRY text `s[p..en]`: either `)` or the options group and `)`. */
  function DirectiveClose(s: string, p: nat, en: nat): (r: Option<Directive>)
    requires p <= en <= |s|
    ensures r.Some? ==> en < r.value.end <= |s| && r.value.entry == s[p..en] && s[r.value.end - 1] == ')'
  {
    var p2 := SpaceEnd(s, en);
    if p2 < |s| && s[p2] == ')' then Some(Directive(p2 + 1, s[p..en], None))
    else if p2 < |s| && s[p2] == ',' then
      var brace := SpaceEnd(s, p2 + 1);
      if brace < |s| && s[brace] == '{' then
        match OptionsEnd(s, brace)
        case None => None
        case Some(yz) => Some(Directive(yz.1 + 1, s[p..en], Some(s[brace..yz.0])))
      else None
    else None
  }

  /**
   * The callback's entry list: a bracketed entry is stripped of `[` and `]`,
   * split on every comma, and each piece trimmed of white space and then of
   * quotes; a single entry is stripped of quotes.
   */
  function ParseEntries(entry: string): (r: seq<string>)
    ensures |entry| > 0 && entry[0] == '[' ==> |r| == |Explode(Trim(entry, {'[', ']'}), ',')|
    ensures !(|entry| > 0 && entry[0] == '[') ==> r == [Trim(entry, Quotes)]
  {
    if |entry| > 0 && entry[0] == '[' then
      var parts := Explode(Trim(entry, {'[', ']'}), ',');
      seq(|parts|, i requires 0 <= i < |parts| => Trim(Trim(parts[i], PhpWhitespace), Quotes))
    else [Trim(entry, Quotes)]
  }

  // ---------------------------------------------------------------- the rewrite

  /**
   * What the callback sees besides the match: the mode, the dev-server URL
   * and the manifest `generateHtml` works from, the JSON decoder for the
   * options text, and `resolvePath` with the theme already applied.
   */
  datatype Site = Site(
    mode: Mode,
    devServerUrl: string,
    manifest: ClosedManifest,
    decodeOptions: string -> Options,
    resolvePath: string -> string)

  /** The options the callback passes: none when the group is absent, the decoded group otherwise. */
  function DirectiveOptions(d: Directive, decodeOptions: string -> Options): Options {
    match d.options
    case None => NoOptions
    case Some(text) => decodeOptions(text)
  }

  /** The callback: `resolvePath(generateHtml(entries, options))`. */
  function RenderDirective(d: Directive, site: Site): string {
    site.resolvePath(HtmlBlock(site.mode, site.devServerUrl, site.manifest, ParseEntries(d.entry),
                               DirectiveOptions(d, site.decodeOptions)))
  }

  /** The callback for a given site, as a function of the match alone. */
  function Renderer(site: Site): Directive -> string {
    d => RenderDirective(d, site)
  }

  /**
   * `preg_replace_callback` with the directive grammar and the callback
   * `render`, from position `i` on: matches are replaced left to right, the
   * rest copied.
   */
  function ExpandFrom(s: string, i: nat, render: Directive -> string): string
    requires i <= |s|
    decreases |s| - i
  {
    if i == |s| then []
    else
      match DirectiveAt(s, i)
      case Some(d) => render(d) + ExpandFrom(s, d.end, render)
      case None => [s[i]] + ExpandFrom(s, i + 1, render)
  }

  function Expand(s: string, site: Site): string {
    ExpandFrom(s, 0, Renderer(site))
  }

  /** How many directives the directive pass replaces from position `i` on. */
  function DirectiveCountFrom(s: string, i: nat): nat
    requires i <= |s|
    decreases |s| - i
  {
    if i == |s| then 0
    else
      match DirectiveAt(s, i)
      case Some(d) => 1 + DirectiveCountFrom(s, d.end)
      case None => DirectiveCountFrom(s, i + 1)
  }

  const ReactRefreshDirective: string := "@viteReactRefresh"

  /** The text the directive pass scans: the refresh directive replaced, then the normaliser applied. */
  function Prepared(tpl: string, refreshHtml: string): string {
    Normalise(ReplaceAll(tpl, ReactRefreshDirective, refreshHtml))
  }

  /** `resolveVite`: the refresh directive first, then the normaliser, then the directive grammar. */
  function ResolveVite(tpl: string, refreshHtml: string, site: Site): string {
    Expand(Prepared(tpl, refreshHtml), site)
  }
}
