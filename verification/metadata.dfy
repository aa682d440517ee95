/** The metadata dictionary of a note footer: {guidKey: None, tagKey: []} updated by every
    footnote pair in order. The guid is a scalar, so a later pair overwrites an earlier one;
    the tags are a list, so each pair appends; any other key is skipped. */
module Metadata {
  import opened Text
  import opened Results
  import opened Settings
  import opened Footnotes

  /** A dictionary value: None or a string for the guid, a list of strings for the tags. */
  datatype Slot = Scalar(value: Option<string>) | Items(items: seq<string>)

  type Meta = map<string, Slot>

  /** The position of the last pair with this key, -1 when there is none. */
  function LastIndex(ps: seq<Pair>, key: string): (n: int)
    ensures -1 <= n < |ps| && (n >= 0 ==> ps[n].key == key)
    ensures forall n' :: n < n' < |ps| ==> ps[n'].key != key
  {
    if ps == [] then -1
    else if ps[|ps| - 1].key == key then |ps| - 1
    else LastIndex(ps[..|ps| - 1], key)
  }

  /** The stripped value of the last pair with this key, as the scalar slot ends up holding. */
  function LastValue(ps: seq<Pair>, key: string): (r: Option<string>)
    ensures r.None? <==> LastIndex(ps, key) == -1
    ensures r.Some? ==> r.value == Strip(ps[LastIndex(ps, key)].text)
  {
    if ps == [] then None
    else if ps[|ps| - 1].key == key then Some(Strip(ps[|ps| - 1].text))
    else
      var r := LastValue(ps[..|ps| - 1], key);
      assert r.Some? ==> ps[..|ps| - 1][LastIndex(ps[..|ps| - 1], key)] == ps[LastIndex(ps, key)];
      r
  }

  /** The stripped values of the pairs with this key, in order. */
  function Values(ps: seq<Pair>, key: string): seq<string> {
    if ps == [] then []
    else (if ps[0].key == key then [Strip(ps[0].text)] else []) + Values(ps[1..], key)
  }

  /** The dictionary the footer pairs ps produce. */
  function MetaOf(ps: seq<Pair>, keys: Keys): Meta {
    map[keys.guidKey := Scalar(LastValue(ps, keys.guidKey)), keys.tagKey := Items(Values(ps, keys.tagKey))]
  }

  /** The dictionary loop of extract_meta / _extract_meta over the pairs findall reported. */
  method CollectMeta(pairs: seq<Pair>, keys: Keys) returns (meta: Meta)
    ensures meta == MetaOf(pairs, keys)
  {
    meta := map[keys.guidKey := Scalar(None), keys.tagKey := Items([])];
    var n := 0;
    while n < |pairs|
      invariant 0 <= n <= |pairs|
      invariant meta == MetaOf(pairs[..n], keys)
    {
      var key, value := pairs[n].key, Strip(pairs[n].text);
      assert pairs[..n + 1] == pairs[..n] + [pairs[n]];
      if key in meta {
        if meta[key].Items? {
          assert key == keys.tagKey;
          TagStep(pairs[..n], pairs[n], keys, meta);
          meta := meta[key := Items(meta[key].items + [value])];
        } else {
          assert key == keys.guidKey;
          GuidStep(pairs[..n], pairs[n], keys, meta);
          meta := meta[key := Scalar(Some(value))];
        }
      } else {
        OtherStep(pairs[..n], pairs[n], keys, meta);
      }
      n := n + 1;
    }
    assert pairs[..n] == pairs;
  }

  /** One more pair updates the guid and the tags as the loop body does. */
  lemma MetaOfSnoc(ps: seq<Pair>, p: Pair, keys: Keys)
    ensures LastValue(ps + [p], keys.guidKey) ==
      if p.key == keys.guidKey then Some(Strip(p.text)) else LastValue(ps, keys.guidKey)
    ensures Values(ps + [p], keys.tagKey) ==
      if p.key == keys.tagKey then Values(ps, keys.tagKey) + [Strip(p.text)] else Values(ps, keys.tagKey)
  {
    var q := ps + [p];
    assert q[..|q| - 1] == ps;
    ValuesAppend(ps, [p], keys.tagKey);
    assert [p][1..] == [];
  }

  lemma GuidStep(ps: seq<Pair>, p: Pair, keys: Keys, meta: Meta)
    requires meta == MetaOf(ps, keys) && p.key == keys.guidKey
    ensures MetaOf(ps + [p], keys) == meta[p.key := Scalar(Some(Strip(p.text)))]
  {
    MetaOfSnoc(ps, p, keys);
    OverwriteFirst(keys.guidKey, keys.tagKey, LastValue(ps, keys.guidKey), Some(Strip(p.text)), Items(Values(ps, keys.tagKey)));
  }

  lemma OverwriteFirst(g: string, t: string, a: Option<string>, a': Option<string>, b: Slot)
    requires g != t
    ensures map[g := Scalar(a), t := b][g := Scalar(a')] == map[g := Scalar(a'), t := b]
  {
  }

  lemma TagStep(ps: seq<Pair>, p: Pair, keys: Keys, meta: Meta)
    requires meta == MetaOf(ps, keys) && p.key == keys.tagKey
    ensures MetaOf(ps + [p], keys) == meta[p.key := Items(meta[p.key].items + [Strip(p.text)])]
  {
    MetaOfSnoc(ps, p, keys);
  }

  lemma OtherStep(ps: seq<Pair>, p: Pair, keys: Keys, meta: Meta)
    requires meta == MetaOf(ps, keys) && p.key != keys.guidKey && p.key != keys.tagKey
    ensures MetaOf(ps + [p], keys) == meta
  {
    MetaOfSnoc(ps, p, keys);
  }

  /** extract_meta on a footer text: findall of the footnote expression, then the
      dictionary loop. */
  method ExtractMeta(footer: string, shape: ValueShape, keys: Keys) returns (meta: Meta)
    ensures meta == MetaOf(FindPairs(footer, shape), keys)
  {
    meta := CollectMeta(FindPairs(footer, shape), keys);
  }

  /** The dictionary holds exactly the guid and tag keys, whatever the footer says. */
  lemma MetaOfKeys(ps: seq<Pair>, keys: Keys)
    ensures MetaOf(ps, keys).Keys == {keys.guidKey, keys.tagKey}
    ensures MetaOf(ps, keys)[keys.guidKey].Scalar? && MetaOf(ps, keys)[keys.tagKey].Items?
  {
  }

  /** Tags accumulate in order: the tags of a concatenation are the concatenation of the tags. */
  lemma {:induction false} ValuesAppend(a: seq<Pair>, b: seq<Pair>, key: string)
    ensures Values(a + b, key) == Values(a, key) + Values(b, key)
  {
    if a == [] {
      assert a + b == b;
    } else {
      var h := if a[0].key == key then [Strip(a[0].text)] else [];
      assert (a + b)[0] == a[0];
      assert (a + b)[1..] == a[1..] + b;
      ValuesAppend(a[1..], b, key);
      calc {
        Values(a + b, key);
        h + Values(a[1..] + b, key);
        h + (Values(a[1..], key) + Values(b, key));
        (h + Values(a[1..], key)) + Values(b, key);
      }
    }
  }

  /** A pair whose key is neither the guid nor the tag key changes nothing, wherever it is. */
  lemma UnknownKeyIgnored(a: seq<Pair>, p: Pair, b: seq<Pair>, keys: Keys)
    requires p.key != keys.guidKey && p.key != keys.tagKey
    ensures MetaOf(a + [p] + b, keys) == MetaOf(a + b, keys)
  {
    var g, t := keys.guidKey, keys.tagKey;
    assert [p][1..] == [];
    assert Values([p], t) == [];
    ValuesAppend(a, [p], t);
    ValuesAppend(a + [p], b, t);
    ValuesAppend(a, b, t);
    assert Values(a + [p] + b, t) == Values(a + b, t);
    assert [p][..0] == [];
    assert LastValue([p], g) == None;
    LastValueAppend(a, [p], g);
    LastValueAppend(a + [p], b, g);
    LastValueAppend(a, b, g);
    assert LastValue(a + [p] + b, g) == LastValue(a + b, g);
  }

  /** The last pair with the key decides: the guid of a + b is that of b when b has one. */
  lemma {:induction false} LastValueAppend(a: seq<Pair>, b: seq<Pair>, key: string)
    ensures LastValue(a + b, key) == if LastValue(b, key).Some? then LastValue(b, key) else LastValue(a, key)
    decreases |b|
  {
    if b != [] {
      var b' := b[..|b| - 1];
      assert (a + b)[..|a + b| - 1] == a + b';
      LastValueAppend(a, b', key);
    } else {
      assert a + b == a;
    }
  }
}
