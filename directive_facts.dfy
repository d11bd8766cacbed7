/**
 * Properties of the template rewriter: what the two recognisers match, what
 * each pass leaves alone, how the refresh directive and the entry forms are
 * handled, and which spellings the normaliser turns into text the directive
 * pass no longer expands.
 */
module DirectiveFacts {
  import opened Wrappers
  import opened PhpText
  import opened AssetGraph
  import opened Directives

  // ---------------------------------------------------------------- the runs and the search

  /** A greedy `\s*` takes every white-space character up to the first other one. */
  lemma {:induction false} SpaceEndSpec(s: string, i: nat)
    requires i <= |s|
    ensures forall k :: i <= k < SpaceEnd(s, i) ==> IsSpace(s[k])
    ensures SpaceEnd(s, i) == |s| || !IsSpace(s[SpaceEnd(s, i)])
    decreases |s| - i
  {
    if i < |s| && IsSpace(s[i]) {
      SpaceEndSpec(s, i + 1);
    }
  }

  /** A greedy run of padding takes every white-space or quote character up to the first other one. */
  lemma {:induction false} PadEndSpec(s: string, i: nat)
    requires i <= |s|
    ensures forall k :: i <= k < PadEnd(s, i) ==> IsPad(s[k])
    ensures PadEnd(s, i) == |s| || !IsPad(s[PadEnd(s, i)])
    decreases |s| - i
  {
    if i < |s| && IsPad(s[i]) {
      PadEndSpec(s, i + 1);
    }
  }

  /** The white space ending `s[lo..hi]` is the longest such run. */
  lemma {:induction false} SpaceStartSpec(s: string, lo: nat, hi: nat)
    requires lo <= hi <= |s|
    ensures forall k :: SpaceStart(s, lo, hi) <= k < hi ==> IsSpace(s[k])
    ensures SpaceStart(s, lo, hi) == lo || !IsSpace(s[SpaceStart(s, lo, hi) - 1])
    decreases hi - lo
  {
    if lo < hi && IsSpace(s[hi - 1]) {
      SpaceStartSpec(s, lo, hi - 1);
    }
  }

  /** `Find` gives the first occurrence, and nothing only when there is none. */
  lemma {:induction false} FindSpec(s: string, i: nat, c: char)
    requires i <= |s|
    ensures Find(s, i, c).Some? ==> forall j :: i <= j < Find(s, i, c).value ==> s[j] != c
    ensures Find(s, i, c).None? ==> forall j :: i <= j < |s| ==> s[j] != c
    decreases |s| - i
  {
    if i < |s| && s[i] != c {
      FindSpec(s, i + 1, c);
    }
  }

  /** A stretch of padding does not change where the padding run ends. */
  lemma {:induction false} PadEndOver(s: string, i: nat, j: nat)
    requires i <= j <= |s|
    requires forall k :: i <= k < j ==> IsPad(s[k])
    ensures PadEnd(s, i) == PadEnd(s, j)
    decreases j - i
  {
    if i < j {
      PadEndOver(s, i + 1, j);
    }
  }

  /** A stretch of white space does not change where the white-space run ends. */
  lemma {:induction false} SpaceEndOver(s: string, i: nat, j: nat)
    requires i <= j <= |s|
    requires forall k :: i <= k < j ==> IsSpace(s[k])
    ensures SpaceEnd(s, i) == SpaceEnd(s, j)
    decreases j - i
  {
    if i < j {
      SpaceEndOver(s, i + 1, j);
    }
  }

  /** Past a stretch without `c`, the next `c` is the one found. */
  lemma {:induction false} FindPast(s: string, i: nat, j: nat, c: char)
    requires i <= j < |s| && s[j] == c
    requires forall k :: i <= k < j ==> s[k] != c
    ensures Find(s, i, c) == Some(j)
    decreases j - i
  {
    if i < j {
      FindPast(s, i + 1, j, c);
    }
  }

  /**
   * The lazy argument of the normaliser stops at the first place where the
   * text closes, and there is no match only when argument characters run
   * out before any such place.
   */
  lemma {:induction false} LazyBodyShortest(s: string, b: nat)
    requires b <= |s|
    ensures LazyBodyEnd(s, b).Some? ==>
      forall j :: b <= j < LazyBodyEnd(s, b).value ==> IsBodyChar(s[j]) && !Closes(s, j)
    ensures LazyBodyEnd(s, b).None? ==>
      forall e :: b <= e <= |s| && (forall j :: b <= j < e ==> IsBodyChar(s[j])) ==> !Closes(s, e)
    decreases |s| - b
  {
    if !Closes(s, b) && b < |s| && IsBodyChar(s[b]) {
      LazyBodyShortest(s, b + 1);
      if LazyBodyEnd(s, b).None? {
        forall e | b <= e <= |s| && (forall j :: b <= j < e ==> IsBodyChar(s[j]))
          ensures !Closes(s, e)
        {
          if e > b {
            assert forall j :: b + 1 <= j < e ==> IsBodyChar(s[j]);
          }
        }
      }
    }
  }

  // ---------------------------------------------------------------- text the passes leave alone

  /** `@vit` somewhere in a text means the text contains `@vit`. */
  lemma {:induction false} VitAtContains(s: string, i: nat)
    requires VitAt(s, i)
    ensures Contains(s, "@vit")
    decreases i
  {
    if i == 0 {
      assert s[..4] == "@vit";
    } else {
      assert VitAt(s[1..], i - 1);
      VitAtContains(s[1..], i - 1);
    }
  }

  /** Where the pattern does not match, the normaliser copies one character. */
  lemma {:induction false} NormaliseMiss(s: string, i: nat)
    requires i < |s| && NormaliseAt(s, i).None?
    ensures NormaliseFrom(s, i) == [s[i]] + NormaliseFrom(s, i + 1)
  {
  }

  /** The normaliser copies a stretch without `@vit`. */
  lemma {:induction false} NormaliseSkip(s: string, i: nat, j: nat)
    requires i <= j <= |s|
    requires forall k :: i <= k < j ==> !VitAt(s, k)
    ensures NormaliseFrom(s, i) == s[i..j] + NormaliseFrom(s, j)
    decreases j - i
  {
    if i == j {
      assert s[i..j] == [];
    } else {
      NormaliseSkip(s, i + 1, j);
      NormaliseMiss(s, i);
      var rest := NormaliseFrom(s, j);
      assert s[i..j] + rest == [s[i]] + (s[i + 1..j] + rest);
    }
  }

  /** Where the grammar does not match, the directive pass copies one character. */
  lemma {:induction false} ExpandMiss(s: string, i: nat, render: Directive -> string)
    requires i < |s| && DirectiveAt(s, i).None?
    ensures ExpandFrom(s, i, render) == [s[i]] + ExpandFrom(s, i + 1, render)
  {
  }

  /** The directive pass copies a stretch without `@vit`. */
  lemma {:induction false} ExpandSkip(s: string, i: nat, j: nat, render: Directive -> string)
    requires i <= j <= |s|
    requires forall k :: i <= k < j ==> !VitAt(s, k)
    ensures ExpandFrom(s, i, render) == s[i..j] + ExpandFrom(s, j, render)
    decreases j - i
  {
    if i == j {
      assert s[i..j] == [];
    } else {
      ExpandSkip(s, i + 1, j, render);
      ExpandMiss(s, i, render);
      var rest := ExpandFrom(s, j, render);
      assert s[i..j] + rest == [s[i]] + (s[i + 1..j] + rest);
    }
  }

  /** Text without `@vit` passes the normaliser unchanged. */
  lemma {:induction false} NormaliseAbsent(s: string)
    requires !Contains(s, "@vit")
    ensures Normalise(s) == s
  {
    forall k | 0 <= k < |s|
      ensures !VitAt(s, k)
    {
      if VitAt(s, k) {
        VitAtContains(s, k);
      }
    }
    NormaliseSkip(s, 0, |s|);
    assert s[0..|s|] == s;
  }

  /** Text without `@vit` passes the directive pass unchanged. */
  lemma {:induction false} ExpandAbsent(s: string, site: Site)
    requires !Contains(s, "@vit")
    ensures Expand(s, site) == s
  {
    forall k | 0 <= k < |s|
      ensures !VitAt(s, k)
    {
      if VitAt(s, k) {
        VitAtContains(s, k);
      }
    }
    ExpandSkip(s, 0, |s|, Renderer(site));
    assert s[0..|s|] == s;
  }

  /** A template that mentions neither `@viteReactRefresh` nor `@vit` comes back unchanged. */
  lemma {:induction false} NoDirectiveUnchanged(tpl: string, refreshHtml: string, site: Site)
    requires !Contains(tpl, "@vit")
    ensures ResolveVite(tpl, refreshHtml, site) == tpl
  {
    if Contains(tpl, ReactRefreshDirective) {
      ContainsPrefix(tpl, ReactRefreshDirective, "@vit");
    }
    ReplaceAllAbsent(tpl, ReactRefreshDirective, refreshHtml);
    assert ReplaceAll(tpl, ReactRefreshDirective, refreshHtml) == tpl;
    NormaliseAbsent(tpl);
    assert Prepared(tpl, refreshHtml) == tpl;
    ExpandAbsent(tpl, site);
  }
}
