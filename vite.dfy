/**
 * The `Vite` service of src/Vite.php: a dev-server URL, a configured manifest
 * path and an environment, plus the host's temporary cache of manifest texts
 * keyed by the MD5 of the manifest path. The four builders read the manifest
 * through `GetManifest`, which fills the cache on the first successful read
 * and logs one error for every failed one.
 *
 * Everything the class reaches through facades and global helpers (template
 * lookup, storage, hashing, JSON decoding) is a `Host` value the instance is
 * built with.
 */
module Vite {
  import opened Wrappers
  import opened PhpText
  import opened Attributes
  import opened AssetGraph

  /** Where the manifest is looked for when the configured path is not found. */
  const DefaultManifestPaths: seq<string> := ["dist/manifest.json", "dist/.vite/manifest.json"]

  /** The message logged when the manifest cannot be read. */
  const ManifestErrorMessage: string := "【Vite plugin】manifest.json を取得できませんでした。"

  /**
   * The outside world as the class sees it: `findTemplate` (a path or
   * nothing), the storage (a path is readable and exists when it is a key of
   * `files`), `md5`, and `json_decode` of a manifest text.
   */
  datatype Host = Host(
    findTemplate: string -> Option<string>,
    files: map<string, string>,
    md5: string -> string,
    decode: string -> ClosedManifest)

  /** PHP's `empty()` on a string: the empty string and `"0"`. */
  predicate EmptyText(s: string) {
    s == "" || s == "0"
  }

  /** A default location that is found and whose file exists. */
  predicate Found(host: Host, candidate: string) {
    host.findTemplate(candidate).Some? && host.findTemplate(candidate).value in host.files
  }

  /** The first candidate that is found and exists, as `findTemplate` resolves it. */
  function FirstExisting(host: Host, candidates: seq<string>): (r: Option<string>)
    ensures r.Some? ==> exists i :: (0 <= i < |candidates| && Found(host, candidates[i])
      && r.value == host.findTemplate(candidates[i]).value
      && forall j :: 0 <= j < i ==> !Found(host, candidates[j]))
    ensures r.None? ==> forall i :: 0 <= i < |candidates| ==> !Found(host, candidates[i])
    decreases |candidates|
  {
    if candidates == [] then None
    else if Found(host, candidates[0]) then Some(host.findTemplate(candidates[0]).value)
    else
      var r := FirstExisting(host, candidates[1..]);
      assert forall i :: 0 < i < |candidates| ==> candidates[i] == candidates[1..][i - 1];
      assert r.Some? ==> exists i :: (0 <= i < |candidates| && Found(host, candidates[i])
        && r.value == host.findTemplate(candidates[i]).value
        && forall j :: 0 <= j < i ==> !Found(host, candidates[j])) by {
        if r.Some? {
          var i :| 0 <= i < |candidates[1..]| && Found(host, candidates[1..][i])
            && r.value == host.findTemplate(candidates[1..][i]).value
            && forall j :: 0 <= j < i ==> !Found(host, candidates[1..][j]);
          assert forall j :: 0 <= j < i + 1 ==> !Found(host, candidates[j]) by {
            forall j | 0 <= j < i + 1 ensures !Found(host, candidates[j]) {
              if j > 0 {
                assert candidates[j] == candidates[1..][j - 1];
              }
            }
          }
        }
      }
      r
  }

  /**
   * `getManifestPath`: the configured path when `findTemplate` finds it;
   * otherwise the first default location that is found and exists; otherwise "".
   */
  function ManifestPathFor(host: Host, configured: string): string {
    match host.findTemplate(configured)
    case Some(p) => p
    case None => FirstExisting(host, DefaultManifestPaths).GetOr("")
  }

  /** What one `getManifest` call yields and leaves behind. */
  datatype LoadResult = LoadResult(manifest: ClosedManifest, cache: map<string, string>, failed: bool)

  /**
   * One `getManifest` call on a resolved path: a cache hit decodes the cached
   * text; otherwise a missing or empty file fails (logged, empty manifest),
   * and a readable file is cached and decoded.
   */
  function Load(host: Host, path: string, cache: map<string, string>): (r: LoadResult)
    ensures r.failed ==> r.manifest == map[] && r.cache == cache
    ensures !r.failed ==> host.md5(path) in r.cache && r.manifest == host.decode(r.cache[host.md5(path)])
    ensures forall k :: k in cache ==> k in r.cache && r.cache[k] == cache[k]
    ensures forall k :: k in r.cache && k != host.md5(path) ==> k in cache
    ensures host.md5(path) in cache ==> !r.failed && r.cache == cache && r.manifest == host.decode(cache[host.md5(path)])
    ensures host.md5(path) !in cache && path in host.files && !EmptyText(host.files[path])
      ==> !r.failed && r.cache == cache[host.md5(path) := host.files[path]] && r.manifest == host.decode(host.files[path])
    ensures host.md5(path) !in cache && (path !in host.files || EmptyText(host.files[path])) ==> r.failed
  {
    var key := host.md5(path);
    if key in cache then LoadResult(host.decode(cache[key]), cache, false)
    else if path !in host.files || EmptyText(host.files[path]) then LoadResult(map[], cache, true)
    else LoadResult(host.decode(host.files[path]), cache[key := host.files[path]], false)
  }

  /** The log lines one load leaves. */
  function LoadErrors(r: LoadResult): seq<string> {
    if r.failed then [ManifestErrorMessage] else []
  }

  /**
   * Loading again from the cache a load left behind gives the same manifest,
   * leaves the cache as it is, and fails again exactly when the first load failed.
   */
  lemma {:induction false} LoadStable(host: Host, path: string, cache: map<string, string>)
    ensures Load(host, path, Load(host, path, cache).cache) == Load(host, path, cache)
  {
  }

  /** Once the text is cached, storage no longer matters. */
  lemma {:induction false} CacheHitIgnoresStorage(host: Host, files: map<string, string>, path: string, cache: map<string, string>)
    requires host.md5(path) in cache
    ensures Load(host.(files := files), path, cache) == Load(host, path, cache)
    ensures !Load(host, path, cache).failed
  {
  }

  /** A missing or empty manifest file fails every time until something else fills the cache. */
  lemma {:induction false} MissingManifestFails(host: Host, path: string, cache: map<string, string>)
    requires host.md5(path) !in cache
    requires path !in host.files || EmptyText(host.files[path])
    ensures Load(host, path, cache).failed
    ensures Load(host, path, cache).manifest == map[]
    ensures Load(host, path, cache).cache == cache
  {
  }

  /** `$entrypoints`: one name, or a list of names. */
  datatype Entrypoints = Single(name: string) | Many(names: seq<string>)

  function EntrypointNames(e: Entrypoints): (r: seq<string>)
    ensures e.Single? ==> r == [e.name]
    ensures e.Many? ==> r == e.names
  {
    match e
    case Single(n) => [n]
    case Many(ns) => ns
  }

  /** The inner `foreach` over a chunk's CSS files: appends each, prefixed with the directory. */
  method AppendPrefixed(acc: seq<string>, dir: string, files: seq<string>) returns (r: seq<string>)
    ensures r == acc + Prefixed(dir, files)
  {
    r := acc;
    for j := 0 to |files|
      invariant r == acc + Prefixed(dir, files[..j])
    {
      assert files[..j + 1][..j] == files[..j];
      r := r + [AssetPath(dir, files[j])];
    }
    assert files[..|files|] == files;
  }

  /** The `foreach` over an entrypoint's imports collecting their CSS files. */
  method AppendChunkCss(m: Manifest, acc: seq<string>, chunks: seq<string>, dir: string) returns (r: seq<string>)
    ensures r == acc + CssOfChunks(m, chunks, dir)
  {
    r := acc;
    for j := 0 to |chunks|
      invariant r == acc + CssOfChunks(m, chunks[..j], dir)
    {
      assert chunks[..j + 1][..j] == chunks[..j];
      Associative(acc, CssOfChunks(m, chunks[..j], dir), Prefixed(dir, CssFiles(m, chunks[j])));
      r := AppendPrefixed(r, dir, CssFiles(m, chunks[j]));
    }
    assert chunks[..|chunks|] == chunks;
  }

  /** The `foreach` over an entrypoint's imports collecting their files. */
  method AppendChunkFiles(m: Manifest, acc: seq<string>, chunks: seq<string>, dir: string) returns (r: seq<string>)
    requires forall j :: 0 <= j < |chunks| ==> chunks[j] in m
    ensures r == acc + FilesOfChunks(m, chunks, dir)
  {
    r := acc;
    for j := 0 to |chunks|
      invariant r == acc + FilesOfChunks(m, chunks[..j], dir)
    {
      assert chunks[..j + 1][..j] == chunks[..j];
      r := r + [AssetPath(dir, m[chunks[j]].file)];
    }
    assert chunks[..|chunks|] == chunks;
  }

  /** The `foreach` of `createCssLinkTags`. */
  method CollectCssPaths(m: Manifest, entrypoints: seq<string>, dir: string) returns (cssPaths: seq<string>)
    ensures cssPaths == CssPaths(m, entrypoints, dir)
  {
    cssPaths := [];
    for i := 0 to |entrypoints|
      invariant cssPaths == CssPaths(m, entrypoints[..i], dir)
    {
      assert entrypoints[..i + 1][..i] == entrypoints[..i];
      cssPaths := AppendPrefixed(cssPaths, dir, CssFiles(m, entrypoints[i]));
    }
    assert entrypoints[..|entrypoints|] == entrypoints;
  }

  /** The `foreach` of `createImportedChankLinkTags`. */
  method CollectImportedCssPaths(m: Manifest, entrypoints: seq<string>, dir: string) returns (cssPaths: seq<string>)
    ensures cssPaths == ImportedCssPaths(m, entrypoints, dir)
  {
    cssPaths := [];
    for i := 0 to |entrypoints|
      invariant cssPaths == ImportedCssPaths(m, entrypoints[..i], dir)
    {
      assert entrypoints[..i + 1][..i] == entrypoints[..i];
      cssPaths := AppendChunkCss(m, cssPaths, ImportsOf(m, entrypoints[i]), dir);
    }
    assert entrypoints[..|entrypoints|] == entrypoints;
  }

  /** The `foreach` of `createEntrypointTags` in production. */
  method CollectEntrypointPaths(m: Manifest, entrypoints: seq<string>, outDir: string) returns (paths: seq<string>)
    ensures paths == EntrypointPaths(m, entrypoints, outDir)
  {
    paths := [];
    for i := 0 to |entrypoints|
      invariant paths == EntrypointPaths(m, entrypoints[..i], outDir)
    {
      assert entrypoints[..i + 1][..i] == entrypoints[..i];
      if entrypoints[i] in m {
        paths := paths + [AssetPath(outDir, m[entrypoints[i]].file)];
      }
    }
    assert entrypoints[..|entrypoints|] == entrypoints;
  }

  /** The `foreach` of `createModulePreloadLinkTags`. */
  method CollectPreloadPaths(m: ClosedManifest, entrypoints: seq<string>, dir: string) returns (preloadPaths: seq<string>)
    ensures preloadPaths == PreloadPaths(m, entrypoints, dir)
  {
    preloadPaths := [];
    for i := 0 to |entrypoints|
      invariant preloadPaths == PreloadPaths(m, entrypoints[..i], dir)
    {
      assert entrypoints[..i + 1][..i] == entrypoints[..i];
      preloadPaths := AppendChunkFiles(m, preloadPaths, ImportsOf(m, entrypoints[i]), dir);
    }
    assert entrypoints[..|entrypoints|] == entrypoints;
  }

  class Vite {
    const devServerUrl: string
    const manifestPath: string
    const environment: string
    const host: Host
    /** The temporary cache: MD5 of a manifest path to the manifest text. */
    var cache: map<string, string>
    /** The error log, oldest first. */
    var log: seq<string>

    /**
     * The cache is the host's temporary cache as the instance finds it: it
     * outlives a request, so it may already hold a manifest text.
     */
    constructor(devServerUrl: string, manifestPath: string, environment: string, host: Host, temp: map<string, string>)
      ensures this.devServerUrl == devServerUrl && this.manifestPath == manifestPath
      ensures this.environment == environment && this.host == host
      ensures cache == temp && log == []
    {
      this.devServerUrl := devServerUrl;
      this.manifestPath := manifestPath;
      this.environment := environment;
      this.host := host;
      cache := temp;
      log := [];
    }

    /** `shouldUseDevServer`: only the exact string `development` selects the dev server. */
    function Mode(): (r: Mode)
      ensures r == Development <==> environment == "development"
    {
      if environment == "development" then Development else Production
    }

    /** `getEnvironment`: always one of the two names, and the configured one when it is one of them. */
    function Environment(): (r: string)
      ensures r == "development" || r == "production"
      ensures environment == "development" || environment == "production" ==> r == environment
      ensures r == "development" <==> Mode() == Development
    {
      if Mode() == Development then "development" else "production"
    }

    /** `getDevServerUrl`: the configured URL, or the default when none is configured. */
    function DevServerUrl(): (r: string)
      ensures r != []
      ensures devServerUrl != "" ==> r == devServerUrl
      ensures devServerUrl == "" ==> r == DefaultDevServerUrl
    {
      if devServerUrl != "" then devServerUrl else DefaultDevServerUrl
    }

    /** `generateReactRefreshHtml`: empty in production, the refresh preamble from the dev server otherwise. */
    function GenerateReactRefreshHtml(): (r: string)
      ensures Mode() == Production ==> r == ""
      ensures Mode() == Development ==> Contains(r, DevServerUrl() + "/@react-refresh")
    {
      ReactRefreshHtmlByMode(Mode(), DevServerUrl());
      ReactRefreshHtml(Mode(), DevServerUrl())
    }

    /** What `getManifest` would yield and leave behind in the current state. */
    function LoadNow(): LoadResult
      reads this
    {
      Load(host, ManifestPathFor(host, manifestPath), cache)
    }

    /** `getManifestPath`. */
    method GetManifestPath() returns (path: string)
      ensures path == ManifestPathFor(host, manifestPath)
    {
      var found := host.findTemplate(manifestPath);
      if found.Some? {
        return found.value;
      }
      var i := 0;
      while i < |DefaultManifestPaths|
        invariant 0 <= i <= |DefaultManifestPaths|
        invariant FirstExisting(host, DefaultManifestPaths) == FirstExisting(host, DefaultManifestPaths[i..])
      {
        var candidate := host.findTemplate(DefaultManifestPaths[i]);
        if candidate.Some? && candidate.value in host.files {
          return candidate.value;
        }
        assert DefaultManifestPaths[i..][1..] == DefaultManifestPaths[i + 1..];
        i := i + 1;
      }
      return "";
    }

    /** `getManifest`. */
    method GetManifest() returns (manifest: ClosedManifest)
      modifies this
      ensures manifest == old(LoadNow()).manifest
      ensures cache == old(LoadNow()).cache
      ensures log == old(log) + LoadErrors(old(LoadNow()))
    {
      var path := GetManifestPath();
      var key := host.md5(path);
      if key in cache {
        return host.decode(cache[key]);
      }
      if path !in host.files || EmptyText(host.files[path]) {
        log := log + [ManifestErrorMessage];
        return map[];
      }
      var text := host.files[path];
      cache := cache[key := text];
      manifest := host.decode(text);
    }

    /** The state a production builder leaves: the effects of one `getManifest` call. */
    twostate predicate LoadedOnce()
      reads this
    {
      cache == old(LoadNow()).cache && log == old(log) + LoadErrors(old(LoadNow()))
    }

    /** `createCssLinkTags`. */
    method CreateCssLinkTags(entrypoints: seq<string>, outDir: string) returns (html: string)
      modifies this
      ensures html == CssLinkTags(Mode(), old(LoadNow()).manifest, entrypoints, outDir)
      ensures Mode() == Development ==> cache == old(cache) && log == old(log)
      ensures Mode() == Production ==> LoadedOnce()
    {
      if Mode() == Development {
        return "";
      }
      var dir := Trim(outDir, {'/'});
      var manifest := GetManifest();
      var cssPaths := CollectCssPaths(manifest, entrypoints, dir);
      html := Implode("\n", StylesheetTags(cssPaths));
    }

    /** `createImportedChankLinkTags`. */
    method CreateImportedChunkLinkTags(entrypoints: seq<string>, outDir: string) returns (html: string)
      modifies this
      ensures html == ImportedChunkLinkTags(Mode(), old(LoadNow()).manifest, entrypoints, outDir)
      ensures Mode() == Development ==> cache == old(cache) && log == old(log)
      ensures Mode() == Production ==> LoadedOnce()
    {
      if Mode() == Development {
        return "";
      }
      var dir := Trim(outDir, {'/'});
      var manifest := GetManifest();
      var cssPaths := CollectImportedCssPaths(manifest, entrypoints, dir);
      html := Implode("\n", StylesheetTags(cssPaths));
    }

    /** `createEntrypointTags`. */
    method CreateEntrypointTags(entrypoints: seq<string>, outDir: string, scriptAttrs: Attrs, linkAttrs: Attrs)
      returns (html: string)
      modifies this
      ensures html == EntrypointTags(Mode(), DevServerUrl(), old(LoadNow()).manifest, entrypoints,
                                     Config(outDir, scriptAttrs, linkAttrs))
      ensures Mode() == Development ==> cache == old(cache) && log == old(log)
      ensures Mode() == Production ==> LoadedOnce()
    {
      if Mode() == Development {
        return DevEntrypointTags(DevServerUrl(), entrypoints);
      }
      var manifest := GetManifest();
      var paths := CollectEntrypointPaths(manifest, entrypoints, outDir);
      html := Implode("\n", EntrypointTagList(paths, scriptAttrs, linkAttrs));
    }

    /** `createModulePreloadLinkTags`. */
    method CreateModulePreloadLinkTags(entrypoints: seq<string>, outDir: string) returns (html: string)
      modifies this
      ensures html == ModulePreloadLinkTags(Mode(), old(LoadNow()).manifest, entrypoints, outDir)
      ensures Mode() == Development ==> cache == old(cache) && log == old(log)
      ensures Mode() == Production ==> LoadedOnce()
    {
      if Mode() == Development {
        return "";
      }
      var dir := Trim(outDir, {'/'});
      var manifest := GetManifest();
      var preloadPaths := CollectPreloadPaths(manifest, entrypoints, dir);
      html := Implode("\n", ModulePreloadTags(preloadPaths));
    }

    /**
     * `generateHtml`: the four blocks over one and the same manifest, the
     * one the first `getManifest` call yields. In production a failed read
     * is logged once per builder.
     */
    method GenerateHtml(entrypoints: Entrypoints, options: Options) returns (html: string)
      modifies this
      ensures html == HtmlBlock(Mode(), DevServerUrl(), old(LoadNow()).manifest, EntrypointNames(entrypoints), options)
      ensures Mode() == Development ==> cache == old(cache) && log == old(log)
      ensures Mode() == Production ==> cache == old(LoadNow()).cache
      ensures Mode() == Production ==> log == old(log) + LoadErrors(old(LoadNow())) + LoadErrors(old(LoadNow()))
                                          + LoadErrors(old(LoadNow())) + LoadErrors(old(LoadNow()))
    {
      var names := EntrypointNames(entrypoints);
      var config := MergeOptions(options);
      ghost var first := LoadNow();
      var css := CreateCssLinkTags(names, config.outDir);
      LoadStable(host, ManifestPathFor(host, manifestPath), old(cache));
      var imported := CreateImportedChunkLinkTags(names, config.outDir);
      var tags := CreateEntrypointTags(names, config.outDir, config.scriptTagAttributes, config.linkTagAttributes);
      var preloads := CreateModulePreloadLinkTags(names, config.outDir);
      html := css + "\n" + imported + "\n" + tags + "\n" + preloads;
    }
  }

  /** The configured manifest path wins whenever `findTemplate` finds it, whether or not the file exists. */
  lemma {:induction false} ConfiguredPathFirst(host: Host, configured: string)
    ensures host.findTemplate(configured).Some? ==> ManifestPathFor(host, configured) == host.findTemplate(configured).value
    ensures host.findTemplate(configured).None? && !Found(host, DefaultManifestPaths[0]) && !Found(host, DefaultManifestPaths[1])
      ==> ManifestPathFor(host, configured) == ""
    ensures host.findTemplate(configured).None? && Found(host, DefaultManifestPaths[0])
      ==> ManifestPathFor(host, configured) == host.findTemplate(DefaultManifestPaths[0]).value
    ensures host.findTemplate(configured).None? && !Found(host, DefaultManifestPaths[0]) && Found(host, DefaultManifestPaths[1])
      ==> ManifestPathFor(host, configured) == host.findTemplate(DefaultManifestPaths[1]).value
  {
    assert DefaultManifestPaths[1..][1..] == [];
  }
}
