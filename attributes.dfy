/**
 * Attribute rendering of the Vite helper (src/Vite.php): the ordered PHP
 * attribute arrays the tag builders create, `array_merge` of the built-in
 * attributes with the caller's, `parseAttributes`, and the `<script>` and
 * `<link>` wrappers.
 */
module Attributes {
  import opened PhpText
  import opened Wrappers

  /** A PHP array key: a string, or an integer (a JSON list decodes to integer keys). */
  datatype AttrKey = Name(name: string) | Index(index: nat)

  /** An attribute value as PHP holds it: a string, a boolean or null. */
  datatype AttrValue = Text(text: string) | Flag(flag: bool) | Null

  type Attribute = (AttrKey, AttrValue)

  /** An ordered PHP array of attributes, in insertion order. */
  type Attrs = seq<Attribute>

  function Keys(attrs: Attrs): seq<AttrKey> {
    seq(|attrs|, i requires 0 <= i < |attrs| => attrs[i].0)
  }

  /** The value stored under `k`; a PHP array holds each key once, and the last write wins. */
  function Lookup(attrs: Attrs, k: AttrKey): Option<AttrValue>
    decreases |attrs|
  {
    if attrs == [] then None
    else if attrs[|attrs| - 1].0 == k then Some(attrs[|attrs| - 1].1)
    else Lookup(attrs[..|attrs| - 1], k)
  }

  predicate NamedOnly(attrs: Attrs) {
    forall i :: 0 <= i < |attrs| ==> attrs[i].0.Name?
  }

  predicate UniqueKeys(attrs: Attrs) {
    forall i, j :: 0 <= i < j < |attrs| ==> attrs[i].0 != attrs[j].0
  }

  // ---------------------------------------------------------------- array_merge

  function CountIndexed(attrs: Attrs): nat
    decreases |attrs|
  {
    if attrs == [] then 0
    else CountIndexed(attrs[..|attrs| - 1]) + (if attrs[|attrs| - 1].0.Index? then 1 else 0)
  }

  /** Overwrites, in place, every entry stored under `k`. */
  function Overwrite(attrs: Attrs, k: AttrKey, v: AttrValue): (r: Attrs)
    ensures |r| == |attrs| && Keys(r) == Keys(attrs)
    ensures forall i :: 0 <= i < |r| ==> r[i] == (if attrs[i].0 == k then (k, v) else attrs[i])
    decreases |attrs|
  {
    if attrs == [] then []
    else
      var last := attrs[|attrs| - 1];
      Overwrite(attrs[..|attrs| - 1], k, v) + [if last.0 == k then (k, v) else last]
  }

  /**
   * One step of `array_merge`: a string key overwrites its entry in place or
   * is appended; an integer key is renumbered to the next free index and appended.
   */
  function Put(acc: Attrs, a: Attribute): Attrs {
    match a.0
    case Index(_) => acc + [(Index(CountIndexed(acc)), a.1)]
    case Name(_) => if a.0 in Keys(acc) then Overwrite(acc, a.0, a.1) else acc + [a]
  }

  function PutAll(acc: Attrs, xs: Attrs): Attrs
    decreases |xs|
  {
    if xs == [] then acc else Put(PutAll(acc, xs[..|xs| - 1]), xs[|xs| - 1])
  }

  /** `array_merge($base, $extra)`. */
  function ArrayMerge(base: Attrs, extra: Attrs): Attrs {
    PutAll(PutAll([], base), extra)
  }

  /** Merging never moves an entry that is already there: its key stays at its position. */
  lemma {:induction false} PutAllKeepsPositions(acc: Attrs, xs: Attrs)
    ensures |PutAll(acc, xs)| >= |acc|
    ensures Keys(PutAll(acc, xs))[..|acc|] == Keys(acc)
    decreases |xs|
  {
    if xs != [] {
      var mid := PutAll(acc, xs[..|xs| - 1]);
      PutAllKeepsPositions(acc, xs[..|xs| - 1]);
      var r := Put(mid, xs[|xs| - 1]);
      assert Keys(r)[..|mid|] == Keys(mid);
      assert Keys(r)[..|acc|] == Keys(mid)[..|acc|];
    }
  }

  /** A string key ends up holding the caller's value when the caller gave one, and the earlier value otherwise. */
  lemma {:induction false} PutAllLookup(acc: Attrs, xs: Attrs, n: string)
    ensures Lookup(PutAll(acc, xs), Name(n)) ==
      if Lookup(xs, Name(n)).Some? then Lookup(xs, Name(n)) else Lookup(acc, Name(n))
    decreases |xs|
  {
    if xs != [] {
      var mid := PutAll(acc, xs[..|xs| - 1]);
      PutAllLookup(acc, xs[..|xs| - 1], n);
      PutLookup(mid, xs[|xs| - 1], n);
    }
  }

  lemma {:induction false} PutLookup(acc: Attrs, a: Attribute, n: string)
    ensures Lookup(Put(acc, a), Name(n)) == if a.0 == Name(n) then Some(a.1) else Lookup(acc, Name(n))
  {
    match a.0
    case Index(_) =>
      LookupAppend(acc, (Index(CountIndexed(acc)), a.1), Name(n));
    case Name(_) =>
      if a.0 in Keys(acc) {
        if a.0 == Name(n) {
          OverwriteHit(acc, a.0, a.1);
        } else {
          OverwriteOthers(acc, a.0, a.1, Name(n));
        }
      } else {
        LookupAppend(acc, a, Name(n));
      }
  }

  lemma {:induction false} LookupAppend(acc: Attrs, a: Attribute, k: AttrKey)
    ensures Lookup(acc + [a], k) == if a.0 == k then Some(a.1) else Lookup(acc, k)
  {
    assert (acc + [a])[..|acc|] == acc;
  }

  /** Overwriting one key leaves every other key's value alone. */
  lemma {:induction false} OverwriteOthers(acc: Attrs, k: AttrKey, v: AttrValue, m: AttrKey)
    requires m != k
    ensures Lookup(Overwrite(acc, k, v), m) == Lookup(acc, m)
    decreases |acc|
  {
    if acc != [] {
      var init := acc[..|acc| - 1];
      var r := Overwrite(acc, k, v);
      assert r[..|acc| - 1] == Overwrite(init, k, v);
      assert r[|acc| - 1].0 == m <==> acc[|acc| - 1].0 == m;
      OverwriteOthers(init, k, v, m);
    }
  }

  /** Overwriting a present key makes it hold the new value. */
  lemma {:induction false} OverwriteHit(acc: Attrs, k: AttrKey, v: AttrValue)
    requires k in Keys(acc)
    ensures Lookup(Overwrite(acc, k, v), k) == Some(v)
    decreases |acc|
  {
    var init := acc[..|acc| - 1];
    var last := acc[|acc| - 1];
    if last.0 != k {
      var i :| 0 <= i < |acc| && Keys(acc)[i] == k;
      assert i < |acc| - 1 && Keys(init)[i] == k;
      assert Overwrite(acc, k, v)[..|acc| - 1] == Overwrite(init, k, v);
      OverwriteHit(init, k, v);
    }
  }

  /** Merging string-keyed attributes whose keys are new appends them, in order. */
  lemma {:induction false} PutAllFresh(acc: Attrs, xs: Attrs)
    requires NamedOnly(xs) && UniqueKeys(xs)
    requires forall i :: 0 <= i < |xs| ==> xs[i].0 !in Keys(acc)
    ensures PutAll(acc, xs) == acc + xs
    decreases |xs|
  {
    if xs != [] {
      var init := xs[..|xs| - 1];
      PutAllFresh(acc, init);
      var last := xs[|xs| - 1];
      assert forall i :: 0 <= i < |acc + init| ==> Keys(acc + init)[i] != last.0 by {
        forall i | 0 <= i < |acc + init| ensures Keys(acc + init)[i] != last.0 {
          if i >= |acc| {
            assert Keys(acc + init)[i] == xs[i - |acc|].0;
          } else {
            assert Keys(acc + init)[i] == Keys(acc)[i];
            assert last.0 !in Keys(acc);
          }
        }
      }
      assert acc + init + [last] == acc + xs;
    }
  }

  /**
   * The merge behind the entrypoint tags: the built-in attributes keep their
   * places (an overridden one is overwritten where it stands), every key takes
   * the caller's value when the caller supplies one, and caller attributes
   * with new string keys follow the built-in ones in the caller's order.
   */
  lemma {:induction false} MergeOverBuiltins(base: Attrs, extra: Attrs)
    requires NamedOnly(base) && UniqueKeys(base)
    ensures |ArrayMerge(base, extra)| >= |base|
    ensures Keys(ArrayMerge(base, extra))[..|base|] == Keys(base)
    ensures forall n :: (Lookup(ArrayMerge(base, extra), Name(n)) ==
      if Lookup(extra, Name(n)).Some? then Lookup(extra, Name(n)) else Lookup(base, Name(n)))
    ensures NamedOnly(extra) && UniqueKeys(extra) && (forall i :: 0 <= i < |extra| ==> extra[i].0 !in Keys(base))
      ==> ArrayMerge(base, extra) == base + extra
  {
    PutAllFresh([], base);
    assert PutAll([], base) == base;
    PutAllKeepsPositions(base, extra);
    forall n ensures Lookup(ArrayMerge(base, extra), Name(n)) ==
      if Lookup(extra, Name(n)).Some? then Lookup(extra, Name(n)) else Lookup(base, Name(n))
    {
      PutAllLookup(base, extra, n);
    }
    if NamedOnly(extra) && UniqueKeys(extra) && (forall i :: 0 <= i < |extra| ==> extra[i].0 !in Keys(base)) {
      PutAllFresh(base, extra);
    }
  }

  // ---------------------------------------------------------------- parseAttributes

  /** `false` and `null` attributes are dropped before rendering. */
  predicate Kept(v: AttrValue) {
    v != Flag(false) && v != Null
  }

  function KeyText(k: AttrKey): string {
    match k
    case Name(n) => n
    case Index(i) => NatToDecimal(i)
  }

  /** `true` renders as the bare key, an integer key as the raw value, anything else as `key="value"`. */
  function RenderAttribute(a: Attribute): string
    requires Kept(a.1)
  {
    match a.1
    case Flag(_) => KeyText(a.0)
    case Text(v) => if a.0.Index? then v else a.0.name + "=\"" + v + "\""
  }

  /** `parseAttributes`: the kept attributes, rendered, in their array order. */
  function ParseAttributes(attrs: Attrs): (r: seq<string>)
    ensures |r| <= |attrs|
    decreases |attrs|
  {
    if attrs == [] then []
    else
      var last := attrs[|attrs| - 1];
      ParseAttributes(attrs[..|attrs| - 1]) + (if Kept(last.1) then [RenderAttribute(last)] else [])
  }

  /** Rendering keeps array order: the rendering of a concatenation is the concatenation of renderings. */
  lemma {:induction false} ParseAttributesAppend(a: Attrs, b: Attrs)
    ensures ParseAttributes(a + b) == ParseAttributes(a) + ParseAttributes(b)
    decreases |b|
  {
    if b == [] {
      assert a + b == a;
    } else {
      var init := b[..|b| - 1];
      assert (a + b)[..|a + b| - 1] == a + init;
      ParseAttributesAppend(a, init);
    }
  }

  /** Exactly the entries whose value is neither `false` nor `null` appear, one string each, in order. */
  lemma {:induction false} ParseAttributesKept(attrs: Attrs)
    ensures |ParseAttributes(attrs)| == |KeptEntries(attrs)|
    ensures forall i :: 0 <= i < |KeptEntries(attrs)| ==>
      Kept(KeptEntries(attrs)[i].1) && ParseAttributes(attrs)[i] == RenderAttribute(KeptEntries(attrs)[i])
    decreases |attrs|
  {
    if attrs != [] {
      ParseAttributesKept(attrs[..|attrs| - 1]);
    }
  }

  /** `array_filter` with the kept test. */
  function KeptEntries(attrs: Attrs): (r: Attrs)
    ensures forall i :: 0 <= i < |r| ==> Kept(r[i].1)
    decreases |attrs|
  {
    if attrs == [] then []
    else
      var last := attrs[|attrs| - 1];
      KeptEntries(attrs[..|attrs| - 1]) + (if Kept(last.1) then [last] else [])
  }

  // ---------------------------------------------------------------- tags

  /** `createScriptTag`. */
  function ScriptTag(attrs: Attrs): string {
    "<script " + Implode(" ", ParseAttributes(attrs)) + "></script>"
  }

  /** `createLinkTag`. */
  function LinkTag(attrs: Attrs): string {
    "<link " + Implode(" ", ParseAttributes(attrs)) + ">"
  }

  /** When every attribute is `false` or `null` the tags keep the space after the tag name. */
  lemma {:induction false} EmptyTags(attrs: Attrs)
    requires forall i :: 0 <= i < |attrs| ==> !Kept(attrs[i].1)
    ensures ScriptTag(attrs) == "<script ></script>"
    ensures LinkTag(attrs) == "<link >"
  {
    ParseAttributesKept(attrs);
    assert KeptEntries(attrs) == [] by {
      if KeptEntries(attrs) != [] {
        KeptEntriesFrom(attrs, 0);
      }
    }
  }

  /** Every kept entry comes from the input. */
  lemma {:induction false} KeptEntriesFrom(attrs: Attrs, i: nat)
    requires i < |KeptEntries(attrs)|
    ensures exists j :: 0 <= j < |attrs| && attrs[j] == KeptEntries(attrs)[i]
    decreases |attrs|
  {
    var init := attrs[..|attrs| - 1];
    if i < |KeptEntries(init)| {
      KeptEntriesFrom(init, i);
      var j :| 0 <= j < |init| && init[j] == KeptEntries(init)[i];
      assert attrs[j] == init[j];
    } else {
      assert attrs[|attrs| - 1] == KeptEntries(attrs)[i];
    }
  }

  /** Two string attributes render as `<name>="<value>"`, space-separated, in order. */
  lemma {:induction false} TwoTextAttributes(k1: string, v1: string, k2: string, v2: string)
    ensures ParseAttributes([(Name(k1), Text(v1)), (Name(k2), Text(v2))]) ==
      [k1 + "=\"" + v1 + "\"", k2 + "=\"" + v2 + "\""]
    ensures Implode(" ", ParseAttributes([(Name(k1), Text(v1)), (Name(k2), Text(v2))])) ==
      (k1 + "=\"" + v1 + "\"") + " " + (k2 + "=\"" + v2 + "\"")
  {
    var attrs := [(Name(k1), Text(v1)), (Name(k2), Text(v2))];
    assert attrs[..1] == [(Name(k1), Text(v1))];
    assert attrs[..1][..0] == [];
    var parts := [k1 + "=\"" + v1 + "\"", k2 + "=\"" + v2 + "\""];
    assert parts[1..] == [parts[1]];
  }
}
