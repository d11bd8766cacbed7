# acms-vite in Dafny

A model of the Vite integration plugin for a-blog cms (`appleple/acms-vite`):

- **`src/Vite.php`**: the `Vite` service. It turns a list of entrypoint names and Vite's build manifest into the HTML tag block of Vite's backend integration. The block has four parts:
  - the entrypoints' own stylesheets;
  - the stylesheets of the chunks they import, one level deep;
  - the entrypoint `<script>`/`<link>` tags;
  - the `modulepreload` links.

  The service reads the manifest through the host's temporary cache, keyed by the MD5 of the manifest path. That cache outlives a request.
- **`src/Hook.php`**: the template hook. `beforeBuild` rewrites a template through `resolveVite`, which runs three passes:
  1. it replaces every `@viteReactRefresh` with the React refresh preamble;
  2. it normalises loose `@vite(...)` spellings;
  3. it replaces every `@vite( ENTRY [, {OPTIONS}] )` directive with the block `generateHtml` builds for it.

Modules, one file each:

| module | file | contents |
|---|---|---|
| `Wrappers` | `wrappers.dfy` | `Option` |
| `PhpText` | `php_text.dfy` | the PHP string built-ins used: `implode`, `explode` on one character, `trim`/`ltrim`/`rtrim` with a character list, a literal `preg_replace` |
| `Attributes` | `attributes.dfy` | ordered PHP attribute arrays, `array_merge` over them, `parseAttributes`, `createScriptTag`, `createLinkTag` |
| `AssetGraph` | `asset_graph.dfy` | the manifest, `isCssPath`, the four path lists and the blocks built from them, the whole `generateHtml` block as a function of mode, dev-server URL, manifest and options, the refresh preamble |
| `Vite` | `vite.dfy` | the `Vite` class: a cache field (a `map`) and the error log (a `seq`). `GetManifestPath` and `GetManifest` as methods, and the four builders as methods whose `foreach` loops are `for` loops, each proved equal to its function in `AssetGraph` |
| `Directives` | `directives.dfy` | the normaliser pattern and the directive grammar as recognisers over positions, the left-to-right replace passes, the callback's entry parsing, `resolveVite` as a function |
| `DirectiveFacts` | `directive_facts.dfy` | what the recognisers match, and what each pass leaves alone |
| `DirectiveForms` | `directive_forms.dfy` | the array form, the form with options, the loose spellings and `@viteReactRefresh`, taken through all three passes |
| `Hook` | `hook.dfy` | the `Hook` class: `BeforeBuild`, and the directive pass as a loop that calls `Vite.GenerateHtml` once per directive |

The host framework is reached through parameters.

- A `Vite.Host` value supplies:
  - `findTemplate`;
  - the storage, a map from path to text;
  - `md5`;
  - `json_decode` of the manifest.
- A `Directives.Site` value supplies:
  - the options decoder;
  - `resolvePath(…, config('theme'), '/')`.

The manifest is the decoded map from chunk name to `{file, css, imports}`. Attribute values are strings, booleans or null.

The two regular expressions of `resolveVite` are each a hand-written recogniser that follows PCRE's backtracking for that one pattern:

- **The normaliser** (`Directives.NormaliseAt`) works as follows:
  - a greedy white-space run before `(`;
  - a greedy padding run after it;
  - a lazy argument that stops at the first position where padding and `)` follow;
  - an optional `;`.
- **The grammar** (`Directives.DirectiveAt`) needs no backtracking except in the options group. That group ends at the last non-space character before the first `)`.

Both patterns use the `u` flag. There, PCRE2's `\s` is the Unicode white-space class (`Directives.IsSpace`):

- tab to carriage return;
- space;
- U+0085;
- U+00A0;
- U+1680;
- U+180E;
- U+2000 to U+200A;
- U+2028 and U+2029;
- U+202F;
- U+205F;
- U+3000.

`Directives.IsSpace` includes the ideographic space that the pattern also lists by hand.

The model follows the code as written. In four places the code does something other than what the plugin is evidently meant to do:

- **The normaliser's output is never expanded.** The normaliser rewrites `@vite('main.js')` to `@vite(main.js)` without quotes. The grammar needs quotes, so nothing expands that text, and the page receives `@vite(main.js)`. See `DirectiveForms.LooseForm` and `DirectiveForms.NormalisedNeverExpanded`. Such a directive is evidently meant to render tags, or the empty string when the manifest is missing.
- **The log is written once per builder.** Each builder calls `getManifest` itself, and a failed read is not cached. So a failed manifest read logs once per builder: four lines for every production `generateHtml` call, and four for every directive (`Vite.Vite.GenerateHtml`, `Hook.CallErrors`). The evident intent is one error line per manifest path.
- **An empty manifest path is still looked up.** When no path resolves, `getManifest` hashes the empty path and consults the cache and the storage with it. It does not short-circuit (`Vite.Load` takes no special branch for `""`).
- **The entrypoint path keeps the untrimmed `outDir`.** The production entrypoint path uses `outDir` as given. The other three builders trim `/` from it (`AssetGraph.UntrimmedEntrypointOutDir`).

## Model

| member | source | states |
|---|---|---|
| Attributes.ParseAttributesKept | src/Vite.php:371-391 | exactly the entries whose value is neither `false` nor `null` are rendered, one string each, in array order: `true` as the bare key, an integer key as the raw value, otherwise `key="value"` |
| Attributes.ParseAttributesAppend | src/Vite.php:379-390 | rendering keeps array order: the rendering of a concatenation is the concatenation of the renderings |
| Attributes.KeptEntries | src/Vite.php:373-378 | the filter keeps only entries whose value is neither `false` nor `null` |
| Attributes.KeptEntriesFrom | src/Vite.php:373-378 | every kept entry is an entry of the input |
| Attributes.TwoTextAttributes | src/Vite.php:379-390 | two string attributes render as `k="v"`, in order, joined by one space |
| Attributes.EmptyTags | src/Vite.php:399-415 | with no attribute kept, the tags are `<script ></script>` and `<link >`, keeping the space after the tag name |
| Attributes.MergeOverBuiltins | src/Vite.php:178-193 | `array_merge` of built-in and caller attributes: built-in keys keep their positions, every string key holds the caller's value when given and the built-in one otherwise, and new caller keys follow the built-ins in the caller's order |
| Attributes.PutAllKeepsPositions | src/Vite.php:178-193 | merging never moves a key already present |
| Attributes.PutAllLookup | src/Vite.php:178-193 | after merging, a string key holds the caller's value if the caller gave one, else the earlier value |
| Attributes.PutAllFresh | src/Vite.php:178-193 | caller attributes with new, distinct string keys are appended as given |
| Attributes.OverwriteHit | src/Vite.php:178-193 | an overridden key takes the caller's value |
| Attributes.OverwriteOthers | src/Vite.php:178-193 | overriding one key leaves every other key's value alone |
| PhpText.Explode | src/Hook.php:74 | `explode` gives at least one piece and no piece holds the delimiter |
| PhpText.ImplodeExplode | src/Hook.php:74 | joining the pieces of `explode` with the delimiter gives the text back |
| PhpText.ExplodeImplode | src/Hook.php:74 | splitting a join of delimiter-free pieces gives the pieces back, in order |
| PhpText.ExplodeCons | src/Hook.php:74 | splitting at the first delimiter puts the piece before it first |
| PhpText.ImplodeAppend | src/Vite.php:164 | joining two non-empty lists puts exactly one separator between their joins |
| PhpText.TrimLeft | src/Vite.php:213 | `ltrim` result is a suffix that starts outside the character list, and everything dropped is in the list |
| PhpText.TrimRight | src/Vite.php:213 | `rtrim` result is a prefix that ends outside the character list, and everything dropped is in the list |
| PhpText.TrimPadded | src/Hook.php:69-72 | trimming a text padded with list characters gives back the inner text whose ends are outside the list |
| PhpText.ReplaceAllAbsent | src/Hook.php:52-56 | a text without the pattern is left as it is |
| PhpText.ReplaceAllHit | src/Hook.php:52-56 | an occurrence at the front is replaced and the scan resumes after it |
| PhpText.ReplaceAllSkip | src/Hook.php:52-56 | text before any possible start of the pattern is copied unchanged |
| AssetGraph.IsCssPath | src/Vite.php:423-426 | true exactly when the path ends in `.` and one of css, less, sass, scss, styl, stylus, pcss, postcss, optionally followed by one final newline, which `$` allows |
| AssetGraph.HasCssExtensionIff | src/Vite.php:423-426 | the text after the last `.` is a stylesheet extension exactly when the text ends in `.` and that extension |
| AssetGraph.LastDot | src/Vite.php:425 | the position of the last `.`, or none when there is no `.` |
| AssetGraph.MergeOptionsDefaults | src/Vite.php:73-86 | absent options give `outDir = 'dist'` and no extra attributes; a given `outDir`, even `''`, replaces the default |
| AssetGraph.Prefixed | src/Vite.php:216-219 | each file becomes `'/' . dir . '/' . file`, in order, one path per file |
| AssetGraph.FilesOfChunks | src/Vite.php:290-292 | one `'/' . dir . '/' . file` path per imported chunk, in order |
| AssetGraph.StylesheetTagText | src/Vite.php:222-228 | a stylesheet tag is `<link rel="stylesheet" href="PATH">` |
| AssetGraph.ModulePreloadTagText | src/Vite.php:295-301 | a preload tag is `<link rel="modulepreload" href="PATH">` |
| AssetGraph.ModuleScriptTagText | src/Vite.php:152-157 | a module script tag is `<script type="module" src="SRC"></script>` |
| AssetGraph.EntrypointTagKind | src/Vite.php:175-197 | a stylesheet path becomes a `<link>` tag and any other path a `<script>` tag |
| AssetGraph.StylesheetEntrypointAttrs | src/Vite.php:177-185 | a stylesheet entrypoint gets `rel`, `href`, then the caller's new link attributes |
| AssetGraph.ScriptEntrypointAttrs | src/Vite.php:187-194 | a script entrypoint gets `type`, `src`, then the caller's new script attributes |
| AssetGraph.ReactRefreshHtmlByMode | src/Vite.php:100-117 | the preamble is empty in production, and otherwise a `<script type="module">` that loads `devServerUrl + '/@react-refresh'` |
| AssetGraph.DevelopmentHtml | src/Vite.php:150-165 | in development the block ignores manifest and options: empty stylesheet and preload blocks, then the `/@vite/client` script followed by one module script per entrypoint at `devServerUrl/entry`, in order |
| AssetGraph.CssPathsSnoc | src/Vite.php:216-220 | each entrypoint's own stylesheets follow those of the entrypoints before it |
| AssetGraph.CssPathsAppend | src/Vite.php:216-220 | the stylesheet list of a concatenation of entrypoints is the concatenation of their lists |
| AssetGraph.ImportedCssPathsSnoc | src/Vite.php:250-256 | each entrypoint contributes the stylesheets of its direct imports, import by import, after the earlier entrypoints |
| AssetGraph.ImportedCssPathsAppend | src/Vite.php:250-256 | the imported-stylesheet list distributes over concatenation of entrypoints |
| AssetGraph.EntrypointPathsAppend | src/Vite.php:169-173 | the entrypoint path list distributes over concatenation of entrypoints |
| AssetGraph.PreloadPathsSnoc | src/Vite.php:289-293 | each entrypoint contributes the files of its direct imports after the earlier entrypoints |
| AssetGraph.PreloadPathsAppend | src/Vite.php:289-293 | the preload list distributes over concatenation of entrypoints |
| AssetGraph.SingleEntrypointPaths | src/Vite.php:167-293 | one entrypoint contributes its own stylesheets, its direct imports' stylesheets, its file when the manifest knows it, and its direct imports' files |
| AssetGraph.UnknownEntrypointSkipped | src/Vite.php:169-173 | an entrypoint missing from the manifest contributes nothing to any of the four lists |
| AssetGraph.ImportsOfImportsIgnored | src/Vite.php:250-256 | only one level of `imports` is followed: changing what a non-entrypoint chunk imports changes neither the imported stylesheets nor the preloads |
| AssetGraph.SameCssSameChunks | src/Vite.php:252-254 | the imported stylesheets depend only on each chunk's `css` |
| AssetGraph.SameFilesSameChunks | src/Vite.php:290-292 | the preloads depend only on each imported chunk's `file` |
| AssetGraph.EntryWithImportPaths | src/Vite.php:167-293 | for an entry with one stylesheet importing a chunk with one stylesheet, the four lists are that stylesheet, the import's stylesheet, the entry file, the import's file |
| AssetGraph.EntryWithImportHtml | src/Vite.php:70-98 | the production block for that manifest is its four tags, one per line, in that order |
| AssetGraph.UntrimmedEntrypointOutDir | src/Vite.php:171 | `outDir = '/dist/'` gives `/dist/...` stylesheet paths but `//dist//...` entrypoint paths |
| Vite.FirstExisting | src/Vite.php:355-360 | the first default location that `findTemplate` resolves and that exists in storage, and none only when no location qualifies |
| Vite.ConfiguredPathFirst | src/Vite.php:346-363 | the configured path wins whenever `findTemplate` resolves it, existing or not; otherwise `dist/manifest.json`, then `dist/.vite/manifest.json`, each only when it exists, then `''` |
| Vite.Vite.GetManifestPath | src/Vite.php:346-363 | the loop returns the path the lookup order above selects |
| Vite.Load | src/Vite.php:322-340 | a cache hit succeeds with the cached text's decoding and leaves the cache unchanged; a miss on a present, non-empty storage file succeeds, stores that text under `md5(path)` and decodes it; a miss on a missing or empty file fails with the empty manifest and leaves the cache as it was; no other key changes |
| Vite.LoadStable | src/Vite.php:326-338 | loading again from the cache a load left gives the same manifest, the same cache and the same failure flag |
| Vite.CacheHitIgnoresStorage | src/Vite.php:326-328 | on a cache hit the storage is not consulted and the load succeeds |
| Vite.MissingManifestFails | src/Vite.php:329-337 | a missing file, or one that is `''` or `'0'`, fails with the empty manifest and an unchanged cache |
| Vite.Vite.GetManifest | src/Vite.php:322-340 | the method returns the manifest the load yields, leaves its cache, and appends one log line exactly when it fails |
| Vite.EntrypointNames | src/Vite.php:72 | a single name becomes a one-element list, a list stays as it is |
| Vite.AppendPrefixed | src/Vite.php:217-219 | the loop appends each file prefixed with the directory |
| Vite.AppendChunkCss | src/Vite.php:251-255 | the loop appends the prefixed stylesheets of each imported chunk, in order |
| Vite.AppendChunkFiles | src/Vite.php:290-292 | the loop appends the prefixed file of each imported chunk, in order |
| Vite.CollectCssPaths | src/Vite.php:215-220 | the loop collects the stylesheet list of `AssetGraph.CssPaths` |
| Vite.CollectImportedCssPaths | src/Vite.php:249-256 | the loop collects the list of `AssetGraph.ImportedCssPaths` |
| Vite.CollectEntrypointPaths | src/Vite.php:168-173 | the loop collects the list of `AssetGraph.EntrypointPaths` |
| Vite.CollectPreloadPaths | src/Vite.php:288-293 | the loop collects the list of `AssetGraph.PreloadPaths` |
| Vite.Vite.constructor | src/Vite.php:48-57 | the settings are stored; the cache is whatever the host's temporary cache already holds, and the log starts empty |
| Vite.Vite.Mode | src/Vite.php:313-316 | the dev server is used exactly when the environment is the string `development` |
| Vite.Vite.Environment | src/Vite.php:123-126 | always `development` or `production`, `development` exactly in development mode, and the configured name when it is one of the two |
| Vite.Vite.DevServerUrl | src/Vite.php:128-134 | the configured URL unless it is `''`, then `http://localhost:5173`; never empty |
| Vite.Vite.GenerateReactRefreshHtml | src/Vite.php:100-117 | `''` in production, otherwise a text containing the dev-server URL followed by `/@react-refresh` |
| Vite.Vite.CreateCssLinkTags | src/Vite.php:207-233 | `''` and no state change in development; in production one stylesheet tag per path of `CssPaths` with the trimmed `outDir`, joined by newlines, and the effects of one manifest load |
| Vite.Vite.CreateImportedChunkLinkTags | src/Vite.php:241-270 | the same for the stylesheets of direct imports |
| Vite.Vite.CreateEntrypointTags | src/Vite.php:144-199 | in development the client script and one script per entrypoint, no state change; in production one tag per known entrypoint with the untrimmed `outDir` and the caller's attributes merged in, and the effects of one manifest load |
| Vite.Vite.CreateModulePreloadLinkTags | src/Vite.php:278-307 | the same as the stylesheet builder, for the files of direct imports as `modulepreload` links |
| Vite.Vite.GenerateHtml | src/Vite.php:70-98 | the four blocks over the manifest the first load yields, joined by three newlines even when empty; development leaves cache and log alone, production leaves the first load's cache and one log line per builder when it fails |
| Directives.NormaliseAt | src/Hook.php:58 | a normaliser match starts with `@vit` and ends after its start |
| Directives.LazyBodyEnd | src/Hook.php:58 | the lazy argument ends where padding and `)` follow |
| Directives.DirectiveAt | src/Hook.php:62 | a grammar match starts with `@vite(` and ends after its start |
| Directives.DirectiveClose | src/Hook.php:62 | a match ends with `)` and its entry is the text the ENTRY part spans |
| Directives.QuotedEnd | src/Hook.php:62 | a quoted string ends with the quote it starts with |
| Directives.ArrayTailEnd | src/Hook.php:62 | the further strings of a bracketed entry end with `]` |
| Directives.OptionsEnd | src/Hook.php:62 | the options group ends in `}`, holds at least one character between braces, and `)` follows it |
| Directives.ParseEntries | src/Hook.php:66-79 | a bracketed entry yields one name per comma-separated piece; any other entry yields one name, trimmed of quotes |
| DirectiveFacts.SpaceEndSpec | src/Hook.php:58 | a greedy `\s*` takes every white-space character up to the first other one |
| DirectiveFacts.PadEndSpec | src/Hook.php:58 | a greedy padding run takes every white-space or quote character up to the first other one |
| DirectiveFacts.SpaceStartSpec | src/Hook.php:62 | the white space before the options' `)` is the longest such run |
| DirectiveFacts.FindSpec | src/Hook.php:62 | the first `)` is found, and none only when there is none |
| DirectiveFacts.LazyBodyShortest | src/Hook.php:58 | the lazy argument stops at the first place where the text closes, and fails only when argument characters run out first |
| DirectiveFacts.NormaliseSkip | src/Hook.php:57-61 | the normaliser copies a stretch without `@vit` |
| DirectiveFacts.ExpandSkip | src/Hook.php:64-84 | the directive pass copies a stretch without `@vit` |
| DirectiveFacts.NormaliseAbsent | src/Hook.php:57-61 | text without `@vit` passes the normaliser unchanged |
| DirectiveFacts.ExpandAbsent | src/Hook.php:64-84 | text without `@vit` passes the directive pass unchanged |
| DirectiveFacts.NoDirectiveUnchanged | src/Hook.php:50-85 | a template without `@vit` (so also without `@viteReactRefresh`) comes back unchanged |
| DirectiveForms.ParseArrayEntry | src/Hook.php:67-75 | `['a','b',…]` with plain names is read as exactly those names, in order |
| DirectiveForms.ArrayListSplits | src/Hook.php:69-74 | between its brackets, a bracketed entry splits at its commas into the quoted names |
| DirectiveForms.ParseQuotedList | src/Hook.php:70-74 | pieces that are quoted names are trimmed back to the names |
| DirectiveForms.ParseSingleEntry | src/Hook.php:76-79 | a single quoted entry is read as the one name it quotes |
| DirectiveForms.ArrayDirectiveAt | src/Hook.php:62 | `@vite([...])` is one directive: its entry is the bracketed text, with no options |
| DirectiveForms.OptionsDirectiveAt | src/Hook.php:62 | `@vite('a',{…})` is one directive: its entry is the quoted name, its options the group |
| DirectiveForms.ArrayNotNormalised | src/Hook.php:58 | the normaliser does not match at `@vite([`: the quote after `[` ends its argument before any `)` |
| DirectiveForms.OptionsNotNormalised | src/Hook.php:58 | the normaliser does not match at `@vite('a',`: the comma after the closing quote is not `)` |
| DirectiveForms.ArrayTemplatePrepared | src/Hook.php:52-61 | the refresh replacement and the normaliser leave a template holding the array form unchanged |
| DirectiveForms.OptionsTemplatePrepared | src/Hook.php:52-61 | the same for the form with options |
| DirectiveForms.ExpandOnly | src/Hook.php:64-84 | only the match is replaced by the callback's text; the text around it is copied |
| DirectiveForms.ExpandNowhere | src/Hook.php:64-84 | a text whose only `@` starts no directive is copied |
| DirectiveForms.NormaliseOnlyMatch | src/Hook.php:57-61 | only the match is rewritten; the text around it is copied |
| DirectiveForms.ArrayTemplateExpanded | src/Hook.php:64-84 | the directive pass replaces the array form by the callback's text for its entry, keeping the text around it |
| DirectiveForms.OptionsTemplateExpanded | src/Hook.php:64-84 | the same for the form with options, whose options text is passed along |
| DirectiveForms.ArrayForm | src/Hook.php:50-85 | `resolveVite` turns `@vite(['a','b',…])` into `resolvePath(generateHtml([a, b, …], []))`, keeping the text around it |
| DirectiveForms.OptionsForm | src/Hook.php:50-85 | `resolveVite` turns `@vite('a',{…})` into `resolvePath(generateHtml([a], json_decode('{…}')))`, keeping the text around it |
| DirectiveForms.LooseTemplateNormalised | src/Hook.php:57-61 | a loose spelling such as `@vit ( 'a' );` is rewritten to `@vite(a)`, together with a `;` right after it |
| DirectiveForms.PlainCallNotDirective | src/Hook.php:62 | `@vite(a)` without quotes is no directive |
| DirectiveForms.LooseForm | src/Hook.php:57-62 | `resolveVite` turns a loose spelling into the unexpanded text `@vite(a)` |
| DirectiveForms.RewriteShape | src/Hook.php:58-59 | every rewrite of the normaliser is `@vite(` an unquoted argument `)` |
| DirectiveForms.UnquotedCallNotDirective | src/Hook.php:62 | `@vite(` unquoted argument `)` is no directive |
| DirectiveForms.NormalisedNeverExpanded | src/Hook.php:57-62 | wherever a normaliser rewrite stands, the directive grammar does not match at it |
| DirectiveForms.ArrayFormCount | src/Hook.php:64-84 | the array form makes the callback, and so `generateHtml`, run once |
| DirectiveForms.LooseFormCount | src/Hook.php:57-84 | a loose spelling makes the callback run not at all |
| DirectiveForms.RefreshReplaced | src/Hook.php:52-56 | `@viteReactRefresh` is replaced by the preamble, the text around it kept |
| DirectiveForms.RefreshResolved | src/Hook.php:50-85 | when the result holds no `@vit`, `resolveVite` of a template with `@viteReactRefresh` is the template with the preamble in its place |
| DirectiveForms.RefreshInProduction | src/Hook.php:52-56 | in production `@viteReactRefresh` disappears |
| Hook.CallErrors | src/Vite.php:334-336 | a failing load leaves four log lines per `generateHtml` call, each the manifest error message; a successful one leaves none |
| Hook.Hook.constructor | src/Hook.php:16-19 | the hook holds the service it is given |
| Hook.Hook.RenderMatch | src/Hook.php:64-84 | the callback returns the rendered block of the match and leaves the service as one `generateHtml` call does |
| Hook.Hook.ExpandDirectives | src/Hook.php:64-84 | the loop returns the directive pass's text, each block rendered from the first load's manifest; the log grows by four lines per directive when that load fails, and the cache is what that load left |
| Hook.Hook.BeforeBuild | src/Hook.php:39-42 | the template becomes `resolveVite` of it, with the service's state changed as the directive pass leaves it |

## Left out

- `src/ServiceProvider.php`: plugin registration, environment reads and lifecycle stubs. The model takes the service's settings as constructor arguments.
- `src/Exceptions/ManifestNotFoundException.php`: an empty class. It appears only as the failure branch of `Vite.Load`.
- Facades and global helpers are parameters whose behaviour is not modelled:
  - `Cache` (the cache is a map field of `Vite.Vite`);
  - `Storage` (a map from path to text);
  - `Logger` (a sequence of messages; the exception context passed with them is dropped);
  - `findTemplate`, `md5` and the manifest decoder (functions of `Vite.Host`);
  - `Application`, `config('theme')` and `resolvePath` (one function of `Directives.Site`).

  `md5` is any function: nothing assumes it is injective.
- Manifest decoding. The manifest is already decoded: `AssetGraph.ClosedManifest` is a map whose every `imports` entry is a key. This precondition excludes the undefined-index warning that `createModulePreloadLinkTags` would hit on a missing import. Malformed JSON is not modelled: in the code its `null` decode fails a type declaration rather than degrading.
- Options decoding. Options arrive decoded as `AssetGraph.Options`. The model does not capture:
  - option keys other than the three used (`array_merge` keeps them, but nothing reads them);
  - attribute values other than strings, booleans and null.
- Directives.DirectiveOptions: the options decoder is a total function to `AssetGraph.Options`. Options text that the directive grammar accepts but `json_decode` rejects (for example `{'outDir':'x'}`) yields `null` in the code (src/Hook.php:80-81). The `array` parameter of `generateHtml` (src/Vite.php:70, under strict types) then throws a `TypeError` that aborts the build. This failure is not modelled.
- Type juggling in `generateHtml` (non-string entrypoints or option values) is not modelled.
- `Hook::extendsGlobalVars`: host glue that copies `getEnvironment` and `getDevServerUrl` into template variables. Both functions are modelled.
- Regular expressions are not modelled in general. Only the two patterns of `resolveVite` and the literal `@viteReactRefresh` are encoded. Text is a sequence of code points, while PHP works on UTF-8 bytes. Every character the code matches, splits or trims on is ASCII, except the Unicode white space the patterns match as characters in UTF-8 mode.
- Invalid UTF-8 cannot be written as a sequence of code points. In PHP the `/u` normaliser (src/Hook.php:57-61) returns `null` on such a template, and `preg_replace_callback` (src/Hook.php:64) then throws a `TypeError`. The model does not capture this failure.
- PhpText.ReplaceAll: inserts the replacement verbatim. `preg_replace` (src/Hook.php:52-56) treats `$n`, `${n}`, `\n` and `\\` in the replacement as back-references or escapes, so a dev-server URL holding `$` or `\` is not inserted verbatim in the code.
- DirectiveForms.RefreshReplaced: the same verbatim insertion of the React refresh preamble; the escape handling of `preg_replace` is not modelled.
- Hook.Hook.ExpandDirectives: `resolveVite` is a chain of pure calls, but `generateHtml` changes the service's cache and log. The directive pass is therefore a loop that calls the service once per match.
- DirectiveForms.ArrayForm: proved for plain entry names (printable ASCII without quotes, brackets, parentheses, commas or `@`) written without spaces, and for templates whose only `@` is the directive's. It does not cover several directives in one template or names with other characters.
- DirectiveForms.OptionsForm: the same restriction. The options text holds neither `)` nor `@`. The decoder is total, so the `TypeError` of `Directives.DirectiveOptions` above is not covered.
- DirectiveForms.LooseForm: the same restriction, for `@vit`/`@vite`, white space, `(`, padding, a plain name, padding and `)`.
- DirectiveForms.RefreshResolved: stated for templates whose only `@` is the directive's, and whose result holds no `@vit`.
- Directives.ParseEntries: for a bracketed entry its contract states the number of names. Their content for quoted plain names is `DirectiveForms.ParseArrayEntry`.
- PhpText.NatToDecimal: states that an integer key renders as a non-empty run of decimal digits, and not which number they denote.

