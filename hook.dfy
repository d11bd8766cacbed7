/**
 * The hook of src/Hook.php: `beforeBuild` rewrites the template in place
 * through `resolveVite`, whose directive callback calls the service's
 * `generateHtml` once per directive, in template order.
 */
module Hook {
  import opened Wrappers
  import opened PhpText
  import opened AssetGraph
  import opened Directives
  import Vite

  /**
   * The log lines `calls` production `generateHtml` calls leave when every
   * load they make behaves like `first`: four per call, one per builder.
   */
  function CallErrors(first: Vite.LoadResult, calls: nat): (r: seq<string>)
    ensures first.failed ==> |r| == 4 * calls
    ensures first.failed ==> forall k :: 0 <= k < |r| ==> r[k] == Vite.ManifestErrorMessage
    ensures !first.failed ==> r == []
  {
    if calls == 0 then []
    else
      var e := Vite.LoadErrors(first);
      CallErrors(first, calls - 1) + e + e + e + e
  }

  /** Four more load errors are one call's worth. */
  lemma {:induction false} OneCall(log0: seq<string>, first: Vite.LoadResult)
    ensures var e := Vite.LoadErrors(first); log0 + e + e + e + e == log0 + CallErrors(first, 1)
  {
    var e := Vite.LoadErrors(first);
    assert CallErrors(first, 1) == [] + e + e + e + e;
    if first.failed {
      assert e == [Vite.ManifestErrorMessage];
    } else {
      assert e == [];
    }
  }

  /**
   * The directive pass has reached position `i` of `s`: `result` is what it
   * wrote for the text before `i`, and `calls` directives were rendered.
   */
  predicate Scanned(s: string, render: Directive -> string, i: nat, result: string, calls: nat) {
    i <= |s| && result + ExpandFrom(s, i, render) == ExpandFrom(s, 0, render)
    && calls + DirectiveCountFrom(s, i) == DirectiveCountFrom(s, 0)
  }

  lemma {:induction false} ScanStart(s: string, render: Directive -> string)
    ensures Scanned(s, render, 0, [], 0)
  {
    assert [] + ExpandFrom(s, 0, render) == ExpandFrom(s, 0, render);
  }

  /** A directive at `i`: its block is written and the scan resumes where it ends. */
  lemma {:induction false} ScanHit(s: string, render: Directive -> string, i: nat, result: string, calls: nat, d: Directive, html: string)
    requires Scanned(s, render, i, result, calls) && i < |s|
    requires DirectiveAt(s, i) == Some(d) && html == render(d)
    ensures Scanned(s, render, d.end, result + html, calls + 1)
  {
    assert ExpandFrom(s, i, render) == html + ExpandFrom(s, d.end, render);
    assert result + html + ExpandFrom(s, d.end, render) == result + (html + ExpandFrom(s, d.end, render));
  }

  /** No directive at `i`: the character is copied. */
  lemma {:induction false} ScanMiss(s: string, render: Directive -> string, i: nat, result: string, calls: nat)
    requires Scanned(s, render, i, result, calls) && i < |s| && DirectiveAt(s, i).None?
    ensures Scanned(s, render, i + 1, result + [s[i]], calls)
  {
    assert ExpandFrom(s, i, render) == [s[i]] + ExpandFrom(s, i + 1, render);
    assert result + [s[i]] + ExpandFrom(s, i + 1, render) == result + ([s[i]] + ExpandFrom(s, i + 1, render));
  }

  lemma {:induction false} ScanDone(s: string, render: Directive -> string, result: string, calls: nat)
    requires Scanned(s, render, |s|, result, calls)
    ensures result == ExpandFrom(s, 0, render) && calls == DirectiveCountFrom(s, 0)
  {
    assert ExpandFrom(s, |s|, render) == [];
    assert result + [] == result;
  }

  /**
   * The service's cache and log after `calls` callbacks that started from
   * `cache0` and `log0` and whose first load gave `first`.
   */
  predicate Tracked(mode: Mode, first: Vite.LoadResult, cache0: map<string, string>, log0: seq<string>,
                    calls: nat, cache: map<string, string>, log: seq<string>) {
    if mode == Development then cache == cache0 && log == log0
    else log == log0 + CallErrors(first, calls) && cache == (if calls == 0 then cache0 else first.cache)
  }

  lemma {:induction false} TrackedStart(mode: Mode, first: Vite.LoadResult, cache0: map<string, string>, log0: seq<string>)
    ensures Tracked(mode, first, cache0, log0, 0, cache0, log0)
  {
    assert log0 + [] == log0;
  }

  /** One more callback: nothing in development, one call's log lines and the first load's cache in production. */
  lemma {:induction false} TrackedStep(mode: Mode, first: Vite.LoadResult, cache0: map<string, string>, log0: seq<string>, calls: nat,
                    cache: map<string, string>, log: seq<string>, cache': map<string, string>, log': seq<string>)
    requires Tracked(mode, first, cache0, log0, calls, cache, log)
    requires mode == Development ==> cache' == cache && log' == log
    requires mode == Production ==> cache' == first.cache && log' == log + CallErrors(first, 1)
    ensures Tracked(mode, first, cache0, log0, calls + 1, cache', log')
  {
    if mode == Production {
      var e := Vite.LoadErrors(first);
      assert CallErrors(first, 1) == [] + e + e + e + e;
      assert CallErrors(first, calls + 1) == CallErrors(first, calls) + e + e + e + e;
      assert log0 + CallErrors(first, calls) + ([] + e + e + e + e)
        == log0 + (CallErrors(first, calls) + e + e + e + e);
    }
  }

  class Hook {
    const vite: Vite.Vite
    /** `json_decode($matches[2], true)` for the options text. */
    const decodeOptions: string -> Options
    /** `resolvePath($html, config('theme'), '/')`. */
    const resolvePath: string -> string

    constructor(vite: Vite.Vite, decodeOptions: string -> Options, resolvePath: string -> string)
      ensures this.vite == vite && this.decodeOptions == decodeOptions && this.resolvePath == resolvePath
    {
      this.vite := vite;
      this.decodeOptions := decodeOptions;
      this.resolvePath := resolvePath;
    }

    /** What the directive callback works with in the service's current state. */
    function SiteNow(): Site
      reads vite
    {
      Site(vite.Mode(), vite.DevServerUrl(), vite.LoadNow().manifest, decodeOptions, resolvePath)
    }

    /**
     * The callback of `resolveVite` for one match: the directive's block,
     * rendered from the manifest the service's next load yields. The load
     * leaves a cache from which the following load yields the same again.
     */
    method RenderMatch(d: Directive) returns (html: string)
      modifies vite
      ensures html == RenderDirective(d, old(SiteNow()))
      ensures vite.LoadNow() == old(vite.LoadNow())
      ensures vite.Mode() == Development ==> vite.cache == old(vite.cache) && vite.log == old(vite.log)
      ensures vite.Mode() == Production ==> vite.cache == old(vite.LoadNow()).cache
      ensures vite.Mode() == Production ==> vite.log == old(vite.log) + CallErrors(old(vite.LoadNow()), 1)
    {
      Vite.LoadStable(vite.host, Vite.ManifestPathFor(vite.host, vite.manifestPath), vite.cache);
      var block := vite.GenerateHtml(Vite.Many(ParseEntries(d.entry)), DirectiveOptions(d, decodeOptions));
      html := resolvePath(block);
      OneCall(old(vite.log), old(vite.LoadNow()));
    }

    /** The callback as the `calls + 1`-th one since the scan started. */
    method TrackedRender(ghost first: Vite.LoadResult, ghost cache0: map<string, string>, ghost log0: seq<string>,
                         ghost calls: nat, d: Directive) returns (html: string)
      requires Tracked(vite.Mode(), first, cache0, log0, calls, vite.cache, vite.log)
      requires vite.LoadNow() == first
      modifies vite
      ensures html == RenderDirective(d, old(SiteNow()))
      ensures Tracked(vite.Mode(), first, cache0, log0, calls + 1, vite.cache, vite.log)
      ensures vite.LoadNow() == first && SiteNow() == old(SiteNow())
    {
      ghost var cache, log := vite.cache, vite.log;
      html := RenderMatch(d);
      TrackedStep(vite.Mode(), first, cache0, log0, calls, cache, log, vite.cache, vite.log);
    }

    /** A directive matched at `i`: the callback renders it, and the scan resumes where it ends. */
    method ScanMatch(s: string, ghost site: Site, ghost first: Vite.LoadResult,
                     ghost cache0: map<string, string>, ghost log0: seq<string>,
                     i: nat, result: string, ghost calls: nat, d: Directive)
      returns (i': nat, result': string, ghost calls': nat)
      requires i < |s| && DirectiveAt(s, i) == Some(d) && Scanned(s, Renderer(site), i, result, calls)
      requires Tracked(vite.Mode(), first, cache0, log0, calls, vite.cache, vite.log)
      requires vite.LoadNow() == first && SiteNow() == site
      modifies vite
      ensures i' == d.end && Scanned(s, Renderer(site), i', result', calls')
      ensures Tracked(vite.Mode(), first, cache0, log0, calls', vite.cache, vite.log)
      ensures vite.LoadNow() == first && SiteNow() == site
    {
      var html := TrackedRender(first, cache0, log0, calls, d);
      ScanHit(s, Renderer(site), i, result, calls, d, html);
      i', result', calls' := d.end, result + html, calls + 1;
    }

    /**
     * One step of `preg_replace_callback`: at `i` either a directive is
     * matched and its block written, or one character is copied.
     */
    method ScanStep(s: string, ghost site: Site, ghost first: Vite.LoadResult,
                    ghost cache0: map<string, string>, ghost log0: seq<string>,
                    i: nat, result: string, ghost calls: nat)
      returns (i': nat, result': string, ghost calls': nat)
      requires i < |s| && Scanned(s, Renderer(site), i, result, calls)
      requires Tracked(vite.Mode(), first, cache0, log0, calls, vite.cache, vite.log)
      requires vite.LoadNow() == first && SiteNow() == site
      modifies vite
      ensures i < i' <= |s| && Scanned(s, Renderer(site), i', result', calls')
      ensures Tracked(vite.Mode(), first, cache0, log0, calls', vite.cache, vite.log)
      ensures vite.LoadNow() == first && SiteNow() == site
    {
      var m := DirectiveAt(s, i);
      if m.Some? {
        i', result', calls' := ScanMatch(s, site, first, cache0, log0, i, result, calls, m.value);
      } else {
        ScanMiss(s, Renderer(site), i, result, calls);
        i', result', calls' := i + 1, result + [s[i]], calls;
      }
    }

    /**
     * `preg_replace_callback` with the directive grammar over `s`: the text
     * comes back as the directive pass rewrites it, every block rendered
     * from the manifest the first load yields. In production each directive
     * appends four log lines when that load fails, and the cache is the one
     * the first load left.
     */
    method ExpandDirectives(s: string) returns (result: string)
      modifies vite
      ensures result == Expand(s, old(SiteNow()))
      ensures vite.LoadNow() == old(vite.LoadNow())
      ensures Tracked(vite.Mode(), old(vite.LoadNow()), old(vite.cache), old(vite.log),
                      DirectiveCountFrom(s, 0), vite.cache, vite.log)
    {
      ghost var site := SiteNow();
      ghost var first := vite.LoadNow();
      ghost var cache0, log0 := vite.cache, vite.log;
      result := [];
      var i := 0;
      ghost var calls := 0;
      ScanStart(s, Renderer(site));
      TrackedStart(vite.Mode(), first, cache0, log0);
      while i < |s|
        invariant Scanned(s, Renderer(site), i, result, calls)
        invariant Tracked(vite.Mode(), first, cache0, log0, calls, vite.cache, vite.log)
        invariant vite.LoadNow() == first && SiteNow() == site
        decreases |s| - i
      {
        i, result, calls := ScanStep(s, site, first, cache0, log0, i, result, calls);
      }
      ScanDone(s, Renderer(site), result, calls);
    }

    /**
     * `beforeBuild`: the template comes back as `resolveVite` rewrites it,
     * and the service's cache and log change as the directive pass leaves them.
     */
    method BeforeBuild(tpl: string) returns (result: string)
      modifies vite
      ensures result == ResolveVite(tpl, vite.GenerateReactRefreshHtml(), old(SiteNow()))
      ensures vite.LoadNow() == old(vite.LoadNow())
      ensures Tracked(vite.Mode(), old(vite.LoadNow()), old(vite.cache), old(vite.log),
                      DirectiveCountFrom(Prepared(tpl, vite.GenerateReactRefreshHtml()), 0), vite.cache, vite.log)
    {
      var refreshHtml := vite.GenerateReactRefreshHtml();
      var s := Normalise(ReplaceAll(tpl, ReactRefreshDirective, refreshHtml));
      result := ExpandDirectives(s);
    }
  }
}
