/**
 * The asset graph of Vite's backend integration (src/Vite.php), as pure
 * functions: the build manifest, the stylesheet classifier, the four path
 * lists the production builders collect, the tag blocks made from them, and
 * the whole block `generateHtml` returns for a mode, a dev-server URL and a
 * manifest. The class in module Vite computes the same values step by step
 * and is proved against these functions.
 */
module AssetGraph {
  import opened PhpText
  import opened Attributes
  import opened Wrappers

  const DefaultDevServerUrl: string := "http://localhost:5173"

  /** The extensions `isCssPath` recognises. */
  const CssExtensions: seq<string> := ["css", "less", "sass", "scss", "styl", "stylus", "pcss", "postcss"]

  /** One manifest record: the emitted file, its CSS files and the chunks it imports statically. */
  datatype Chunk = Chunk(file: string, css: seq<string>, imports: seq<string>)

  /** The decoded build manifest: chunk name to record. */
  type Manifest = map<string, Chunk>

  /** Every imported chunk has a record of its own, as in the manifests Vite writes. */
  predicate ImportsResolve(m: Manifest) {
    forall k :: k in m ==> forall j :: 0 <= j < |m[k].imports| ==> m[k].imports[j] in m
  }

  type ClosedManifest = m: Manifest | ImportsResolve(m) witness map[]

  datatype Mode = Development | Production

  /** The `$options` argument of `generateHtml`, each key possibly absent. */
  datatype Options = Options(outDir: Option<string>, scriptTagAttributes: Option<Attrs>, linkTagAttributes: Option<Attrs>)

  const NoOptions: Options := Options(None, None, None)

  /** The options after `array_merge` with the defaults. */
  datatype Config = Config(outDir: string, scriptTagAttributes: Attrs, linkTagAttributes: Attrs)

  function MergeOptions(options: Options): Config {
    Config(options.outDir.GetOr("dist"), options.scriptTagAttributes.GetOr([]), options.linkTagAttributes.GetOr([]))
  }

  /** Absent options fall back to `outDir = 'dist'` and no extra attributes; given ones replace the defaults. */
  lemma {:induction false} MergeOptionsDefaults(options: Options)
    ensures MergeOptions(NoOptions) == Config("dist", [], [])
    ensures options.outDir.Some? ==> MergeOptions(options).outDir == options.outDir.value
  {
  }

  // ---------------------------------------------------------------- isCssPath

  /** The position of the last `.` in `s`. */
  function LastDot(s: string): (r: Option<nat>)
    ensures r.Some? ==> r.value < |s| && s[r.value] == '.' && '.' !in s[r.value + 1..]
    ensures r.None? ==> '.' !in s
    decreases |s|
  {
    if s == [] then None
    else if s[|s| - 1] == '.' then Some(|s| - 1)
    else
      var r := LastDot(s[..|s| - 1]);
      assert r.Some? ==> s[r.value + 1..] == s[..|s| - 1][r.value + 1..] + [s[|s| - 1]];
      r
  }

  /** The text after the last `.` is one of the stylesheet extensions. */
  predicate HasCssExtension(s: string) {
    match LastDot(s)
    case None => false
    case Some(i) => s[i + 1..] in CssExtensions
  }

  /** The extension found after the last `.` ends the text. */
  lemma {:induction false} CssExtensionEnds(s: string)
    requires HasCssExtension(s)
    ensures exists e :: e in CssExtensions && EndsWith(s, "." + e)
  {
    var i := LastDot(s).value;
    var e := s[i + 1..];
    assert s[i..] == "." + e;
    assert s[|s| - |"." + e|..] == "." + e;
  }

  /** A text ending in `.` and an extension without `.` has its last `.` right before that extension. */
  lemma {:induction false} LastDotBefore(s: string, e: string)
    requires '.' !in e && EndsWith(s, "." + e)
    ensures LastDot(s) == Some(|s| - |e| - 1)
  {
    var pos := |s| - |e| - 1;
    assert s[pos..] == "." + e;
    assert s[pos] == '.';
    assert s[pos] in s;
    var j := LastDot(s).value;
    forall k | j < k < |s|
      ensures s[k] != '.'
    {
      assert s[k] == s[j + 1..][k - j - 1];
    }
    forall k | pos < k < |s|
      ensures s[k] != '.'
    {
      assert s[k] == e[k - pos - 1];
    }
  }

  lemma {:induction false} CssExtensionsUndotted(e: string)
    requires e in CssExtensions
    ensures '.' !in e
  {
  }

  lemma {:induction false} CssExtensionFound(s: string, e: string)
    requires e in CssExtensions && EndsWith(s, "." + e)
    ensures HasCssExtension(s)
  {
    CssExtensionsUndotted(e);
    LastDotBefore(s, e);
    var pos := |s| - |e| - 1;
    assert s[pos..] == "." + e;
    assert s[pos + 1..] == e;
  }

  lemma {:induction false} HasCssExtensionIff(s: string)
    ensures HasCssExtension(s) <==> exists e :: e in CssExtensions && EndsWith(s, "." + e)
  {
    if HasCssExtension(s) {
      CssExtensionEnds(s);
    }
    if e :| e in CssExtensions && EndsWith(s, "." + e) {
      CssExtensionFound(s, e);
    }
  }

  /**
   * `isCssPath`: the path ends in `.` and one of the stylesheet extensions.
   * The pattern's `$` also matches just before a final newline.
   */
  function IsCssPath(path: string): (r: bool)
    ensures r <==> exists e :: e in CssExtensions && (EndsWith(path, "." + e) || EndsWith(path, "." + e + "\n"))
  {
    HasCssExtensionIff(path);
    var chopped := if path != [] then path[..|path| - 1] else [];
    HasCssExtensionIff(chopped);
    assert forall e :: EndsWith(path, "." + e + "\n") <==> path != [] && path[|path| - 1] == '\n' && EndsWith(chopped, "." + e) by {
      forall e ensures EndsWith(path, "." + e + "\n") <==> path != [] && path[|path| - 1] == '\n' && EndsWith(chopped, "." + e) {
        if path != [] && path[|path| - 1] == '\n' && EndsWith(chopped, "." + e) {
          assert path == chopped + "\n";
          assert path[|path| - |"." + e + "\n"|..] == chopped[|chopped| - |"." + e|..] + "\n";
        }
        if EndsWith(path, "." + e + "\n") {
          assert path[|path| - 1] == ("." + e + "\n")[|"." + e|];
          assert chopped[|chopped| - |"." + e|..] == path[|path| - |"." + e + "\n"|..][..|"." + e|];
        }
      }
    }
    HasCssExtension(path) || (path != [] && path[|path| - 1] == '\n' && HasCssExtension(chopped))
  }

  // ---------------------------------------------------------------- path lists

  /** `'/' . $outDir . '/' . $file`. */
  function AssetPath(dir: string, file: string): string {
    "/" + dir + "/" + file
  }

  /** The files, each prefixed with the output directory, in order. */
  function Prefixed(dir: string, files: seq<string>): (r: seq<string>)
    ensures |r| == |files|
    ensures forall i :: 0 <= i < |r| ==> r[i] == AssetPath(dir, files[i])
    decreases |files|
  {
    if files == [] then [] else Prefixed(dir, files[..|files| - 1]) + [AssetPath(dir, files[|files| - 1])]
  }

  /** `$manifest[$name]['css'] ?? []`. */
  function CssFiles(m: Manifest, name: string): seq<string> {
    if name in m then m[name].css else []
  }

  /** `$manifest[$name]['imports'] ?? []`. */
  function ImportsOf(m: Manifest, name: string): seq<string> {
    if name in m then m[name].imports else []
  }

  /** What `createCssLinkTags` collects: each entrypoint's own CSS, entrypoint by entrypoint. */
  function CssPaths(m: Manifest, entrypoints: seq<string>, dir: string): seq<string>
    decreases |entrypoints|
  {
    if entrypoints == [] then []
    else
      var last := entrypoints[|entrypoints| - 1];
      CssPaths(m, entrypoints[..|entrypoints| - 1], dir) + Prefixed(dir, CssFiles(m, last))
  }

  /** The CSS of the listed chunks, chunk by chunk. */
  function CssOfChunks(m: Manifest, chunks: seq<string>, dir: string): seq<string>
    decreases |chunks|
  {
    if chunks == [] then []
    else
      var last := chunks[|chunks| - 1];
      CssOfChunks(m, chunks[..|chunks| - 1], dir) + Prefixed(dir, CssFiles(m, last))
  }

  /** What `createImportedChankLinkTags` collects: the CSS of each entrypoint's direct imports. */
  function ImportedCssPaths(m: Manifest, entrypoints: seq<string>, dir: string): seq<string>
    decreases |entrypoints|
  {
    if entrypoints == [] then []
    else
      var last := entrypoints[|entrypoints| - 1];
      ImportedCssPaths(m, entrypoints[..|entrypoints| - 1], dir) + CssOfChunks(m, ImportsOf(m, last), dir)
  }

  /** The emitted files of the listed chunks. */
  function FilesOfChunks(m: Manifest, chunks: seq<string>, dir: string): (r: seq<string>)
    requires forall j :: 0 <= j < |chunks| ==> chunks[j] in m
    ensures |r| == |chunks|
    ensures forall j :: 0 <= j < |r| ==> r[j] == AssetPath(dir, m[chunks[j]].file)
    decreases |chunks|
  {
    if chunks == [] then []
    else FilesOfChunks(m, chunks[..|chunks| - 1], dir) + [AssetPath(dir, m[chunks[|chunks| - 1]].file)]
  }

  /** What `createModulePreloadLinkTags` collects: the file of each entrypoint's direct imports. */
  function PreloadPaths(m: ClosedManifest, entrypoints: seq<string>, dir: string): seq<string>
    decreases |entrypoints|
  {
    if entrypoints == [] then []
    else
      var last := entrypoints[|entrypoints| - 1];
      PreloadPaths(m, entrypoints[..|entrypoints| - 1], dir) + FilesOfChunks(m, ImportsOf(m, last), dir)
  }

  /** What `createEntrypointTags` collects in production: the file of each entrypoint the manifest knows. */
  function EntrypointPaths(m: Manifest, entrypoints: seq<string>, outDir: string): seq<string>
    decreases |entrypoints|
  {
    if entrypoints == [] then []
    else
      var last := entrypoints[|entrypoints| - 1];
      EntrypointPaths(m, entrypoints[..|entrypoints| - 1], outDir)
        + (if last in m then [AssetPath(outDir, m[last].file)] else [])
  }

  // ---------------------------------------------------------------- tags

  function StylesheetAttrs(path: string): Attrs {
    [(Name("rel"), Text("stylesheet")), (Name("href"), Text(path))]
  }

  function ModuleScriptAttrs(src: string): Attrs {
    [(Name("type"), Text("module")), (Name("src"), Text(src))]
  }

  function StylesheetTag(path: string): string {
    LinkTag(StylesheetAttrs(path))
  }

  function ModulePreloadTag(path: string): string {
    LinkTag([(Name("rel"), Text("modulepreload")), (Name("href"), Text(path))])
  }

  function ModuleScriptTag(src: string): string {
    ScriptTag(ModuleScriptAttrs(src))
  }

  /** The stylesheet tag, as text. */
  lemma {:induction false} StylesheetTagText(path: string)
    ensures StylesheetTag(path) == "<link rel=\"stylesheet\" href=\"" + path + "\">"
  {
    TwoTextAttributes("rel", "stylesheet", "href", path);
    var a := "rel" + "=\"" + "stylesheet" + "\"";
    var b := "href" + "=\"" + path + "\"";
    assert StylesheetTag(path) == "<link " + (a + " " + b) + ">";
    assert "<link " + a + " " + "href" + "=\"" == "<link rel=\"stylesheet\" href=\"";
  }

  /** The module-preload tag, as text. */
  lemma {:induction false} ModulePreloadTagText(path: string)
    ensures ModulePreloadTag(path) == "<link rel=\"modulepreload\" href=\"" + path + "\">"
  {
    TwoTextAttributes("rel", "modulepreload", "href", path);
    var a := "rel" + "=\"" + "modulepreload" + "\"";
    var b := "href" + "=\"" + path + "\"";
    assert ModulePreloadTag(path) == "<link " + (a + " " + b) + ">";
    assert "<link " + a + " " + "href" + "=\"" == "<link rel=\"modulepreload\" href=\"";
  }

  /** The module script tag, as text. */
  lemma {:induction false} ModuleScriptTagText(src: string)
    ensures ModuleScriptTag(src) == "<script type=\"module\" src=\"" + src + "\"></script>"
  {
    TwoTextAttributes("type", "module", "src", src);
    var a := "type" + "=\"" + "module" + "\"";
    var b := "src" + "=\"" + src + "\"";
    assert ModuleScriptTag(src) == "<script " + (a + " " + b) + "></script>";
    assert "<script " + a + " " + "src" + "=\"" == "<script type=\"module\" src=\"";
  }

  /** A production entrypoint tag: a stylesheet link for a stylesheet file, a module script otherwise. */
  function EntrypointTag(path: string, scriptAttrs: Attrs, linkAttrs: Attrs): string {
    if IsCssPath(path) then LinkTag(ArrayMerge(StylesheetAttrs(path), linkAttrs))
    else ScriptTag(ArrayMerge(ModuleScriptAttrs(path), scriptAttrs))
  }

  /** The classification is total: a stylesheet path yields a `<link>` tag, anything else a `<script>` tag. */
  lemma {:induction false} EntrypointTagKind(path: string, scriptAttrs: Attrs, linkAttrs: Attrs)
    ensures IsCssPath(path) ==> StartsWith(EntrypointTag(path, scriptAttrs, linkAttrs), "<link ")
    ensures !IsCssPath(path) ==> StartsWith(EntrypointTag(path, scriptAttrs, linkAttrs), "<script ")
  {
  }

  /**
   * A stylesheet entrypoint carries the caller's link attributes after `rel`
   * and `href`, when the caller's keys are new string keys.
   */
  lemma {:induction false} StylesheetEntrypointAttrs(path: string, scriptAttrs: Attrs, linkAttrs: Attrs)
    requires IsCssPath(path) && NamedOnly(linkAttrs) && UniqueKeys(linkAttrs)
    requires forall i :: 0 <= i < |linkAttrs| ==> linkAttrs[i].0 != Name("rel") && linkAttrs[i].0 != Name("href")
    ensures EntrypointTag(path, scriptAttrs, linkAttrs) == LinkTag(StylesheetAttrs(path) + linkAttrs)
  {
    MergeOverBuiltins(StylesheetAttrs(path), linkAttrs);
  }

  /**
   * A script entrypoint carries the caller's script attributes after `type`
   * and `src`, when the caller's keys are new string keys.
   */
  lemma {:induction false} ScriptEntrypointAttrs(path: string, scriptAttrs: Attrs, linkAttrs: Attrs)
    requires !IsCssPath(path) && NamedOnly(scriptAttrs) && UniqueKeys(scriptAttrs)
    requires forall i :: 0 <= i < |scriptAttrs| ==> scriptAttrs[i].0 != Name("type") && scriptAttrs[i].0 != Name("src")
    ensures EntrypointTag(path, scriptAttrs, linkAttrs) == ScriptTag(ModuleScriptAttrs(path) + scriptAttrs)
  {
    MergeOverBuiltins(ModuleScriptAttrs(path), scriptAttrs);
  }

  function StylesheetTags(paths: seq<string>): seq<string> {
    seq(|paths|, i requires 0 <= i < |paths| => StylesheetTag(paths[i]))
  }

  function ModulePreloadTags(paths: seq<string>): seq<string> {
    seq(|paths|, i requires 0 <= i < |paths| => ModulePreloadTag(paths[i]))
  }

  function EntrypointTagList(paths: seq<string>, scriptAttrs: Attrs, linkAttrs: Attrs): seq<string> {
    seq(|paths|, i requires 0 <= i < |paths| => EntrypointTag(paths[i], scriptAttrs, linkAttrs))
  }

  // ---------------------------------------------------------------- blocks

  /** The development entrypoint block: the client script, a newline, then one module script per entrypoint. */
  function DevEntrypointTags(devServerUrl: string, entrypoints: seq<string>): string {
    ModuleScriptTag(devServerUrl + "/@vite/client") + "\n"
      + Implode("\n", seq(|entrypoints|, i requires 0 <= i < |entrypoints| => ModuleScriptTag(devServerUrl + "/" + entrypoints[i])))
  }

  /** `createCssLinkTags`. */
  function CssLinkTags(mode: Mode, m: Manifest, entrypoints: seq<string>, outDir: string): string {
    if mode == Development then ""
    else Implode("\n", StylesheetTags(CssPaths(m, entrypoints, Trim(outDir, {'/'}))))
  }

  /** `createImportedChankLinkTags`. */
  function ImportedChunkLinkTags(mode: Mode, m: Manifest, entrypoints: seq<string>, outDir: string): string {
    if mode == Development then ""
    else Implode("\n", StylesheetTags(ImportedCssPaths(m, entrypoints, Trim(outDir, {'/'}))))
  }

  /** `createEntrypointTags`; production prefixes `outDir` as given, without trimming it. */
  function EntrypointTags(mode: Mode, devServerUrl: string, m: Manifest, entrypoints: seq<string>, config: Config): string {
    if mode == Development then DevEntrypointTags(devServerUrl, entrypoints)
    else Implode("\n", EntrypointTagList(EntrypointPaths(m, entrypoints, config.outDir),
                                         config.scriptTagAttributes, config.linkTagAttributes))
  }

  /** `createModulePreloadLinkTags`. */
  function ModulePreloadLinkTags(mode: Mode, m: ClosedManifest, entrypoints: seq<string>, outDir: string): string {
    if mode == Development then ""
    else Implode("\n", ModulePreloadTags(PreloadPaths(m, entrypoints, Trim(outDir, {'/'}))))
  }

  /** What `generateHtml` returns: the four blocks joined by newlines, empty blocks included. */
  function HtmlBlock(mode: Mode, devServerUrl: string, m: ClosedManifest, entrypoints: seq<string>, options: Options): string {
    var config := MergeOptions(options);
    CssLinkTags(mode, m, entrypoints, config.outDir) + "\n"
      + ImportedChunkLinkTags(mode, m, entrypoints, config.outDir) + "\n"
      + EntrypointTags(mode, devServerUrl, m, entrypoints, config) + "\n"
      + ModulePreloadLinkTags(mode, m, entrypoints, config.outDir)
  }

  /** The React refresh preamble, with the runtime URL spliced in. */
  function ReactRefreshHtml(mode: Mode, devServerUrl: string): string {
    if mode == Production then ""
    else
      "<script type=\"module\">\n"
      + "    import RefreshRuntime from '" + devServerUrl + "/@react-refresh" + "'\n"
      + "    RefreshRuntime.injectIntoGlobalHook(window)\n"
      + "    window.$RefreshReg$ = () => {}\n"
      + "    window.$RefreshSig$ = () => (type) => type\n"
      + "    window.__vite_plugin_react_preamble_installed__ = true\n"
      + "</script>"
  }

  /** The preamble is empty in production and loads the refresh runtime from the dev server otherwise. */
  lemma {:induction false} ReactRefreshHtmlByMode(mode: Mode, devServerUrl: string)
    ensures mode == Production ==> ReactRefreshHtml(mode, devServerUrl) == ""
    ensures mode == Development ==> Contains(ReactRefreshHtml(mode, devServerUrl), devServerUrl + "/@react-refresh")
    ensures mode == Development ==> StartsWith(ReactRefreshHtml(mode, devServerUrl), "<script type=\"module\">")
  {
    if mode == Development {
      var head := "<script type=\"module\">\n" + "    import RefreshRuntime from '";
      var url := devServerUrl + "/@react-refresh";
      var tail := "'\n"
        + "    RefreshRuntime.injectIntoGlobalHook(window)\n"
        + "    window.$RefreshReg$ = () => {}\n"
        + "    window.$RefreshSig$ = () => (type) => type\n"
        + "    window.__vite_plugin_react_preamble_installed__ = true\n"
        + "</script>";
      assert ReactRefreshHtml(mode, devServerUrl) == head + url + tail;
      ContainsMiddle(head, url, tail);
      assert (head + url + tail)[..|"<script type=\"module\">"|] == "<script type=\"module\">";
    }
  }

  // ---------------------------------------------------------------- properties

  /**
   * Development mode reads no manifest and ignores the options: the block is
   * two empty blocks, the client script, one module script per entrypoint
   * (the last followed by nothing), and an empty preload block.
   */
  lemma {:induction false} DevelopmentHtml(devServerUrl: string, m: ClosedManifest, m': ClosedManifest, entrypoints: seq<string>, options: Options, options': Options)
    ensures HtmlBlock(Development, devServerUrl, m, entrypoints, options)
         == HtmlBlock(Development, devServerUrl, m', entrypoints, options')
    ensures HtmlBlock(Development, devServerUrl, m, entrypoints, options)
         == "\n\n" + DevEntrypointTags(devServerUrl, entrypoints) + "\n"
    ensures entrypoints == [] ==>
      DevEntrypointTags(devServerUrl, entrypoints) == ModuleScriptTag(devServerUrl + "/@vite/client") + "\n"
    ensures entrypoints != [] ==>
      DevEntrypointTags(devServerUrl, entrypoints)
      == Implode("\n", [ModuleScriptTag(devServerUrl + "/@vite/client")]
                       + seq(|entrypoints|, i requires 0 <= i < |entrypoints| => ModuleScriptTag(devServerUrl + "/" + entrypoints[i])))
  {
    var client := ModuleScriptTag(devServerUrl + "/@vite/client");
    assert HtmlBlock(Development, devServerUrl, m, entrypoints, options)
        == "" + "\n" + "" + "\n" + DevEntrypointTags(devServerUrl, entrypoints) + "\n" + "";
    if entrypoints != [] {
      var scripts := seq(|entrypoints|, i requires 0 <= i < |entrypoints| => ModuleScriptTag(devServerUrl + "/" + entrypoints[i]));
      assert ([client] + scripts)[1..] == scripts;
    }
  }

  /** The last entrypoint of a list contributes its own stylesheets last. */
  lemma {:induction false} CssPathsSnoc(m: Manifest, a: seq<string>, x: string, dir: string)
    ensures CssPaths(m, a + [x], dir) == CssPaths(m, a, dir) + Prefixed(dir, CssFiles(m, x))
  {
    assert (a + [x])[..|a + [x]| - 1] == a;
  }

  /** Each path list of a concatenation of entrypoints is the concatenation of the lists. */
  lemma {:induction false} CssPathsAppend(m: Manifest, a: seq<string>, b: seq<string>, dir: string)
    ensures CssPaths(m, a + b, dir) == CssPaths(m, a, dir) + CssPaths(m, b, dir)
    decreases |b|
  {
    if b == [] {
      assert a + b == a;
    } else {
      var b', x := b[..|b| - 1], b[|b| - 1];
      assert b == b' + [x];
      assert a + b == (a + b') + [x];
      CssPathsSnoc(m, a + b', x, dir);
      CssPathsSnoc(m, b', x, dir);
      CssPathsAppend(m, a, b', dir);
      Associative(CssPaths(m, a, dir), CssPaths(m, b', dir), Prefixed(dir, CssFiles(m, x)));
    }
  }

  /** The last entrypoint of a list contributes the stylesheets of its imports last. */
  lemma {:induction false} ImportedCssPathsSnoc(m: Manifest, a: seq<string>, x: string, dir: string)
    ensures ImportedCssPaths(m, a + [x], dir) == ImportedCssPaths(m, a, dir) + CssOfChunks(m, ImportsOf(m, x), dir)
  {
    assert (a + [x])[..|a + [x]| - 1] == a;
  }

  lemma {:induction false} ImportedCssPathsAppend(m: Manifest, a: seq<string>, b: seq<string>, dir: string)
    ensures ImportedCssPaths(m, a + b, dir) == ImportedCssPaths(m, a, dir) + ImportedCssPaths(m, b, dir)
    decreases |b|
  {
    if b == [] {
      assert a + b == a;
    } else {
      var b', x := b[..|b| - 1], b[|b| - 1];
      assert b == b' + [x];
      assert a + b == (a + b') + [x];
      ImportedCssPathsSnoc(m, a + b', x, dir);
      ImportedCssPathsSnoc(m, b', x, dir);
      ImportedCssPathsAppend(m, a, b', dir);
      Associative(ImportedCssPaths(m, a, dir), ImportedCssPaths(m, b', dir), CssOfChunks(m, ImportsOf(m, x), dir));
    }
  }

  lemma {:induction false} EntrypointPathsAppend(m: Manifest, a: seq<string>, b: seq<string>, dir: string)
    ensures EntrypointPaths(m, a + b, dir) == EntrypointPaths(m, a, dir) + EntrypointPaths(m, b, dir)
    decreases |b|
  {
    if b == [] {
      assert a + b == a;
    } else {
      assert (a + b)[..|a + b| - 1] == a + b[..|b| - 1];
      assert (a + b)[|a + b| - 1] == b[|b| - 1];
      EntrypointPathsAppend(m, a, b[..|b| - 1], dir);
    }
  }

  /** The last entrypoint of a list contributes the files of its imports last. */
  lemma {:induction false} PreloadPathsSnoc(m: ClosedManifest, a: seq<string>, x: string, dir: string)
    ensures PreloadPaths(m, a + [x], dir) == PreloadPaths(m, a, dir) + FilesOfChunks(m, ImportsOf(m, x), dir)
  {
    assert (a + [x])[..|a + [x]| - 1] == a;
  }

  lemma {:induction false} PreloadPathsAppend(m: ClosedManifest, a: seq<string>, b: seq<string>, dir: string)
    ensures PreloadPaths(m, a + b, dir) == PreloadPaths(m, a, dir) + PreloadPaths(m, b, dir)
    decreases |b|
  {
    if b == [] {
      assert a + b == a;
    } else {
      var b', x := b[..|b| - 1], b[|b| - 1];
      assert b == b' + [x];
      assert a + b == (a + b') + [x];
      PreloadPathsSnoc(m, a + b', x, dir);
      PreloadPathsSnoc(m, b', x, dir);
      PreloadPathsAppend(m, a, b', dir);
      Associative(PreloadPaths(m, a, dir), PreloadPaths(m, b', dir), FilesOfChunks(m, ImportsOf(m, x), dir));
    }
  }

  /** A single entrypoint contributes its own CSS, its direct imports' CSS, its file, and its direct imports' files. */
  lemma {:induction false} SingleEntrypointPaths(m: ClosedManifest, e: string, dir: string)
    ensures CssPaths(m, [e], dir) == Prefixed(dir, CssFiles(m, e))
    ensures ImportedCssPaths(m, [e], dir) == CssOfChunks(m, ImportsOf(m, e), dir)
    ensures EntrypointPaths(m, [e], dir) == if e in m then [AssetPath(dir, m[e].file)] else []
    ensures PreloadPaths(m, [e], dir) == FilesOfChunks(m, ImportsOf(m, e), dir)
  {
    assert [e][..0] == [];
  }

  /**
   * An entrypoint the manifest does not know contributes nothing to any
   * production list; with the append lemmas above, it is skipped wherever it
   * stands among the entrypoints.
   */
  lemma {:induction false} UnknownEntrypointSkipped(m: ClosedManifest, e: string, dir: string)
    requires e !in m
    ensures CssPaths(m, [e], dir) == []
    ensures ImportedCssPaths(m, [e], dir) == []
    ensures EntrypointPaths(m, [e], dir) == []
    ensures PreloadPaths(m, [e], dir) == []
  {
    SingleEntrypointPaths(m, e, dir);
  }

  /**
   * Only one level of `imports` is followed: changing what a non-entrypoint
   * chunk imports changes neither the imported CSS nor the preloads.
   */
  lemma {:induction false} ImportsOfImportsIgnored(m: ClosedManifest, entrypoints: seq<string>, dir: string, c: string, deeper: seq<string>)
    requires c in m && c !in entrypoints
    requires forall j :: 0 <= j < |deeper| ==> deeper[j] in m
    ensures ImportsResolve(m[c := m[c].(imports := deeper)])
    ensures ImportedCssPaths(m[c := m[c].(imports := deeper)], entrypoints, dir) == ImportedCssPaths(m, entrypoints, dir)
    ensures PreloadPaths(m[c := m[c].(imports := deeper)], entrypoints, dir) == PreloadPaths(m, entrypoints, dir)
    decreases |entrypoints|
  {
    var m' := m[c := m[c].(imports := deeper)];
    if entrypoints != [] {
      var init := entrypoints[..|entrypoints| - 1];
      var last := entrypoints[|entrypoints| - 1];
      assert c !in init by {
        assert forall i :: 0 <= i < |init| ==> init[i] == entrypoints[i];
      }
      ImportsOfImportsIgnored(m, init, dir, c, deeper);
      assert ImportsOf(m', last) == ImportsOf(m, last);
      SameCssSameChunks(m, m', ImportsOf(m, last), dir);
      SameFilesSameChunks(m, m', ImportsOf(m, last), dir);
    }
  }

  lemma {:induction false} SameCssSameChunks(m: Manifest, m': Manifest, chunks: seq<string>, dir: string)
    requires forall x :: CssFiles(m, x) == CssFiles(m', x)
    ensures CssOfChunks(m, chunks, dir) == CssOfChunks(m', chunks, dir)
    decreases |chunks|
  {
    if chunks != [] {
      SameCssSameChunks(m, m', chunks[..|chunks| - 1], dir);
      assert CssFiles(m, chunks[|chunks| - 1]) == CssFiles(m', chunks[|chunks| - 1]);
    }
  }

  lemma {:induction false} SameFilesSameChunks(m: Manifest, m': Manifest, chunks: seq<string>, dir: string)
    requires forall j :: 0 <= j < |chunks| ==> chunks[j] in m && chunks[j] in m' && m[chunks[j]].file == m'[chunks[j]].file
    ensures FilesOfChunks(m, chunks, dir) == FilesOfChunks(m', chunks, dir)
  {
  }

  /** An entry chunk with one stylesheet that imports one other chunk with one stylesheet. */
  function EntryWithImport(entry: string, entryFile: string, entryCss: string,
                           dep: string, depFile: string, depCss: string): Manifest
  {
    map[entry := Chunk(entryFile, [entryCss], [dep]), dep := Chunk(depFile, [depCss], [])]
  }

  /**
   * The four lists for that manifest: the entry's stylesheet, the import's
   * stylesheet, the entry file, the import's file.
   */
  lemma {:induction false} EntryWithImportPaths(entry: string, entryFile: string, entryCss: string,
                             dep: string, depFile: string, depCss: string, dir: string)
    requires entry != dep
    ensures ImportsResolve(EntryWithImport(entry, entryFile, entryCss, dep, depFile, depCss))
    ensures var m := EntryWithImport(entry, entryFile, entryCss, dep, depFile, depCss);
      && CssPaths(m, [entry], dir) == [AssetPath(dir, entryCss)]
      && ImportedCssPaths(m, [entry], dir) == [AssetPath(dir, depCss)]
      && EntrypointPaths(m, [entry], dir) == [AssetPath(dir, entryFile)]
      && PreloadPaths(m, [entry], dir) == [AssetPath(dir, depFile)]
  {
    var m: ClosedManifest := EntryWithImport(entry, entryFile, entryCss, dep, depFile, depCss);
    SingleEntrypointPaths(m, entry, dir);
    assert ImportsOf(m, entry) == [dep];
    assert [dep][..0] == [];
  }

  /**
   * The whole production block for that manifest, as in the worked example of
   * Vite's backend-integration guide: own stylesheet, imported stylesheet,
   * entry script, preload, one per line.
   */
  lemma {:induction false} EntryWithImportHtml(devServerUrl: string, entry: string, entryFile: string, entryCss: string,
                            dep: string, depFile: string, depCss: string, outDir: string)
    requires entry != dep
    requires Trim(outDir, {'/'}) == outDir
    requires !IsCssPath(AssetPath(outDir, entryFile))
    ensures ImportsResolve(EntryWithImport(entry, entryFile, entryCss, dep, depFile, depCss))
    ensures HtmlBlock(Production, devServerUrl, EntryWithImport(entry, entryFile, entryCss, dep, depFile, depCss),
                      [entry], Options(Some(outDir), None, None))
      == StylesheetTag(AssetPath(outDir, entryCss)) + "\n"
       + StylesheetTag(AssetPath(outDir, depCss)) + "\n"
       + ModuleScriptTag(AssetPath(outDir, entryFile)) + "\n"
       + ModulePreloadTag(AssetPath(outDir, depFile))
  {
    var m := EntryWithImport(entry, entryFile, entryCss, dep, depFile, depCss);
    var config := MergeOptions(Options(Some(outDir), None, None));
    assert config == Config(outDir, [], []);
    EntryWithImportPaths(entry, entryFile, entryCss, dep, depFile, depCss, outDir);
    var css := CssLinkTags(Production, m, [entry], outDir);
    var imported := ImportedChunkLinkTags(Production, m, [entry], outDir);
    var script := EntrypointTags(Production, devServerUrl, m, [entry], config);
    var preload := ModulePreloadLinkTags(Production, m, [entry], outDir);
    assert css == StylesheetTag(AssetPath(outDir, entryCss)) by {
      OneStylesheet(CssPaths(m, [entry], outDir));
    }
    assert imported == StylesheetTag(AssetPath(outDir, depCss)) by {
      OneStylesheet(ImportedCssPaths(m, [entry], outDir));
    }
    assert script == ModuleScriptTag(AssetPath(outDir, entryFile)) by {
      OneModuleScript(AssetPath(outDir, entryFile));
    }
    assert preload == ModulePreloadTag(AssetPath(outDir, depFile)) by {
      OnePreload(PreloadPaths(m, [entry], outDir));
    }
  }

  /** A single stylesheet path is one stylesheet line. */
  lemma {:induction false} OneStylesheet(paths: seq<string>)
    requires |paths| == 1
    ensures Implode("\n", StylesheetTags(paths)) == StylesheetTag(paths[0])
  {
    assert StylesheetTags(paths) == [StylesheetTag(paths[0])];
  }

  /** A single preload path is one preload line. */
  lemma {:induction false} OnePreload(paths: seq<string>)
    requires |paths| == 1
    ensures Implode("\n", ModulePreloadTags(paths)) == ModulePreloadTag(paths[0])
  {
    assert ModulePreloadTags(paths) == [ModulePreloadTag(paths[0])];
  }

  /** A single script path with no extra attributes is one module script line. */
  lemma {:induction false} OneModuleScript(path: string)
    requires !IsCssPath(path)
    ensures Implode("\n", EntrypointTagList([path], [], [])) == ModuleScriptTag(path)
  {
    assert EntrypointTag(path, [], []) == ModuleScriptTag(path) by {
      MergeOverBuiltins(ModuleScriptAttrs(path), []);
      assert ModuleScriptAttrs(path) + [] == ModuleScriptAttrs(path);
    }
    assert EntrypointTagList([path], [], []) == [ModuleScriptTag(path)];
  }

  /**
   * `outDir` is trimmed of slashes for stylesheets and preloads but used as
   * given for the entrypoint file, so `/dist/` yields doubled slashes in the
   * script path only.
   */
  lemma {:induction false} UntrimmedEntrypointOutDir(dir: string, entry: string, file: string, css: string)
    requires dir != [] && dir[0] != '/' && dir[|dir| - 1] != '/'
    ensures CssPaths(map[entry := Chunk(file, [css], [])], [entry], Trim("/" + dir + "/", {'/'}))
         == ["/" + dir + "/" + css]
    ensures EntrypointPaths(map[entry := Chunk(file, [css], [])], [entry], "/" + dir + "/")
         == ["/" + ("/" + dir + "/") + "/" + file]
  {
    var m: ClosedManifest := map[entry := Chunk(file, [css], [])];
    assert Trim("/" + dir + "/", {'/'}) == dir by {
      TrimPadded("/", dir, "/", {'/'});
    }
    assert CssPaths(m, [entry], dir) == ["/" + dir + "/" + css] by {
      SingleEntrypointPaths(m, entry, dir);
    }
    assert EntrypointPaths(m, [entry], "/" + dir + "/") == ["/" + ("/" + dir + "/") + "/" + file] by {
      SingleEntrypointPaths(m, entry, "/" + dir + "/");
    }
  }
}
