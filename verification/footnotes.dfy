/** Footnote-style metadata lines `[^key]: value` and the metadata dictionary read from them
    (parser.py extract_meta, sources.py Chunk._extract_meta, models/notes.py Block._extract_meta).
    All three scan with `(\[\^(\w+)\]: *VALUE)`, where VALUE is `(.+)` (the rest of the line)
    or, in sources.py, `(\w+)` (a run of word characters). */
module Footnotes {
  import opened Text
  import opened Results
  import opened Settings
  import opened Scanning

  /** `[^key]:` */
  function FootnoteHead(key: string): (h: string)
    ensures |h| == |key| + 4 && h[..2] == "[^" && h[2..|key| + 2] == key && h[|key| + 2..] == "]:"
  {
    "[^" + key + "]:"
  }

  /** The two value captures in use. */
  datatype ValueShape = RestOfLine | WordRun

  /** One (key, value) pair as findall reports it, before stripping. */
  datatype Pair = Pair(key: string, text: string)

  /** `\[\^(\w+)\]:` at position i. */
  predicate IsHead(s: string, i: nat, key: string) {
    IsFooterKey(key) && i + |key| + 4 <= |s| && s[i..i + |key| + 4] == FootnoteHead(key)
  }

  /** ` *VALUE` from a to e, the value being s[v..e]: spaces, then the capture, which runs to
      the end of the line or of the word run. */
  predicate IsValue(s: string, shape: ValueShape, a: nat, v: nat, e: nat) {
    && a <= v < e <= |s|
    && (forall k :: a <= k < v ==> s[k] == ' ')
    && (shape.RestOfLine? ==> (forall k :: v <= k < e ==> s[k] != '\n') && (e == |s| || s[e] == '\n'))
    && (shape.RestOfLine? ==> s[v] != ' ' || v + 1 == e)
    && (shape.WordRun? ==> (forall k :: v <= k < e ==> IsWordChar(s[k])) && (e == |s| || !IsWordChar(s[e])))
  }

  /** What a footnote match from i to e captured. */
  predicate IsPairMatch(s: string, shape: ValueShape, i: nat, e: nat, p: Pair) {
    && IsHead(s, i, p.key)
    && |p.text| <= e
    && IsValue(s, shape, i + |p.key| + 4, e - |p.text|, e)
    && p.text == s[e - |p.text|..e]
  }

  datatype Head = Head(key: string, after: nat)

  function HeadAt(s: string, i: nat): (r: Option<Head>)
    requires i <= |s|
    ensures r.Some? ==> IsHead(s, i, r.value.key) && r.value.after == i + |r.value.key| + 4
  {
    if i + 2 <= |s| && s[i] == '[' && s[i + 1] == '^' then
      var w := WordEnd(s, i + 2);
      if i + 2 < w && w + 2 <= |s| && s[w] == ']' && s[w + 1] == ':' then
        var key := s[i + 2..w];
        assert s[i..w + 2] == FootnoteHead(key);
        Some(Head(key, w + 2))
      else None
    else None
  }

  /** Where the value captured after a head ending at a starts and ends, if it can match. */
  function ValueAt(s: string, shape: ValueShape, a: nat): (r: Option<(nat, nat)>)
    requires a <= |s|
    ensures r.Some? ==> IsValue(s, shape, a, r.value.0, r.value.1)
  {
    var sp := SpaceEnd(s, a);
    match shape
    case RestOfLine =>
      var e := LineEnd(s, sp);
      if sp < e then Some((sp, e))
      // `(.+)` needs one character: ` *` gives back its last space
      else if a < sp then Some((sp - 1, e))
      else None
    case WordRun =>
      var e := WordEnd(s, sp);
      if sp < e then Some((sp, e)) else None
  }

  /** The footnote match starting at position i, if any. */
  function PairAt(s: string, shape: ValueShape, i: nat): (r: Option<Hit<Pair>>)
    requires i <= |s|
    ensures r.Some? ==> r.value.start == i < r.value.end <= |s|
    ensures r.Some? ==> IsPairMatch(s, shape, i, r.value.end, r.value.value)
  {
    match HeadAt(s, i)
    case None => None
    case Some(hd) =>
      match ValueAt(s, shape, hd.after)
      case None => None
      case Some((v, e)) => Some(Hit(i, e, Pair(hd.key, s[v..e])))
  }

  /** The converse: the match at i, when there is one, is the one PairAt reports. */
  lemma PairAtComplete(s: string, shape: ValueShape, i: nat, e: nat, p: Pair)
    requires IsPairMatch(s, shape, i, e, p)
    ensures PairAt(s, shape, i) == Some(Hit(i, e, p))
  {
    var a, v := i + |p.key| + 4, e - |p.text|;
    HeadAtIs(s, i, p.key);
    ValueAtIs(s, shape, a, v, e);
    PairAtIs(s, shape, i, p.key, a, v, e);
  }

  lemma PairAtIs(s: string, shape: ValueShape, i: nat, key: string, a: nat, v: nat, e: nat)
    requires i <= |s| && a <= |s| && v <= e <= |s|
    requires HeadAt(s, i) == Some(Head(key, a)) && ValueAt(s, shape, a) == Some((v, e))
    ensures PairAt(s, shape, i) == Some(Hit(i, e, Pair(key, s[v..e])))
  {
  }

  lemma HeadAtIs(s: string, i: nat, key: string)
    requires IsHead(s, i, key)
    ensures HeadAt(s, i) == Some(Head(key, i + |key| + 4))
  {
    var w := i + |key| + 2;
    var h := FootnoteHead(key);
    assert forall k :: 0 <= k < |h| ==> s[i + k] == h[k];
    assert s[i] == '[' && s[i + 1] == '^' && s[w] == ']' && s[w + 1] == ':' by {
      assert s[i] == h[0] && s[i + 1] == h[1] && s[w] == h[|key| + 2] && s[w + 1] == h[|key| + 3];
    }
    assert forall k :: i + 2 <= k < w ==> s[k] == key[k - i - 2] by {
      assert forall k :: 0 <= k < |key| ==> h[k + 2] == key[k];
    }
    WordEndIs(s, i + 2, w);
    assert s[i + 2..w] == key;
  }

  lemma ValueAtIs(s: string, shape: ValueShape, a: nat, v: nat, e: nat)
    requires IsValue(s, shape, a, v, e)
    ensures ValueAt(s, shape, a) == Some((v, e))
  {
    match shape
    case RestOfLine =>
      if s[v] != ' ' {
        SpaceEndIs(s, a, v);
        LineEndIs(s, v, e);
      } else {
        SpaceEndIs(s, a, e);
        LineEndIs(s, e, e);
      }
    case WordRun =>
      SpaceEndIs(s, a, v);
      WordEndIs(s, v, e);
  }

  function PairMatcher(s: string, shape: ValueShape): (f: nat -> Option<Hit<Pair>>)
    ensures IsMatcher(f, |s|)
  {
    (i: nat) => if i < |s| then PairAt(s, shape, i) else None
  }

  /** re.findall of the footnote expression: the pairs in text order. */
  function FindPairs(s: string, shape: ValueShape): (ps: seq<Pair>)
    ensures var hits := FindAll(PairMatcher(s, shape), |s|, 0);
      |ps| == |hits| && forall n :: 0 <= n < |hits| ==> ps[n] == hits[n].value
  {
    var hits := FindAll(PairMatcher(s, shape), |s|, 0);
    seq(|hits|, n requires 0 <= n < |hits| => hits[n].value)
  }

  /** Every reported pair is a footnote match of the text. */
  lemma FindPairsSound(s: string, shape: ValueShape, n: nat)
    requires n < |FindPairs(s, shape)|
    ensures var h := FindAll(PairMatcher(s, shape), |s|, 0)[n];
      IsPairMatch(s, shape, h.start, h.end, FindPairs(s, shape)[n])
  {
    var f := PairMatcher(s, shape);
    var h := FindAll(f, |s|, 0)[n];
    assert f(h.start) == Some(h);
  }

  /** No footnote match is lost: the one at i is reported, or i lies inside a reported match
      (findall does not report overlapping matches). */
  lemma FindPairsComplete(s: string, shape: ValueShape, i: nat, e: nat, p: Pair)
    requires IsPairMatch(s, shape, i, e, p)
    ensures var hits := FindAll(PairMatcher(s, shape), |s|, 0);
      exists n :: 0 <= n < |hits| && hits[n].start <= i < hits[n].end && (hits[n].start == i ==> FindPairs(s, shape)[n] == p)
  {
    var f := PairMatcher(s, shape);
    var hits := FindAll(f, |s|, 0);
    PairAtComplete(s, shape, i, e, p);
    assert f(i) == Some(Hit(i, e, p));
    FindAllCovers(f, |s|, 0, i);
    var n :| 0 <= n < |hits| && hits[n].start <= i < hits[n].end;
    assert f(hits[n].start) == Some(hits[n]);
  }

  /** A single footnote line `[^key]: value` reads back as its key and value. */
  lemma FootnoteLineRoundTrip(key: string, value: string, shape: ValueShape)
    requires IsFooterKey(key) && |value| >= 1 && value[0] != ' '
    requires shape.RestOfLine? ==> forall k :: 0 <= k < |value| ==> value[k] != '\n'
    requires shape.WordRun? ==> forall k :: 0 <= k < |value| ==> IsWordChar(value[k])
    ensures FindPairs(FootnoteHead(key) + " " + value, shape) == [Pair(key, value)]
  {
    var s := FootnoteHead(key) + " " + value;
    var f := PairMatcher(s, shape);
    FootnoteLineMatch(key, value, shape);
    assert f(0) == Some(Hit(0, |s|, Pair(key, value)));
    assert FindAll(f, |s|, |s|) == [];
  }

  lemma FootnoteLineMatch(key: string, value: string, shape: ValueShape)
    requires IsFooterKey(key) && |value| >= 1 && value[0] != ' '
    requires shape.RestOfLine? ==> forall k :: 0 <= k < |value| ==> value[k] != '\n'
    requires shape.WordRun? ==> forall k :: 0 <= k < |value| ==> IsWordChar(value[k])
    ensures var s := FootnoteHead(key) + " " + value;
      PairAt(s, shape, 0) == Some(Hit(0, |s|, Pair(key, value)))
  {
    var s := FootnoteHead(key) + " " + value;
    var w := |key| + 2;
    FootnoteLineHead(key, value);
    FootnoteLineValue(key, value, shape);
    assert s[w + 3..|s|] == value;
  }

  lemma FootnoteLineHead(key: string, value: string)
    requires IsFooterKey(key)
    ensures HeadAt(FootnoteHead(key) + " " + value, 0) == Some(Head(key, |key| + 4))
  {
    var s := FootnoteHead(key) + " " + value;
    var w := |key| + 2;
    assert s[w] == ']';
    assert WordEnd(s, 2) == w by {
      assert forall k :: 2 <= k < w ==> s[k] == key[k - 2];
    }
    assert s[2..w] == key;
  }

  lemma FootnoteLineValue(key: string, value: string, shape: ValueShape)
    requires |value| >= 1 && value[0] != ' '
    requires shape.RestOfLine? ==> forall k :: 0 <= k < |value| ==> value[k] != '\n'
    requires shape.WordRun? ==> forall k :: 0 <= k < |value| ==> IsWordChar(value[k])
    ensures var s := FootnoteHead(key) + " " + value;
      ValueAt(s, shape, |key| + 4) == Some((|key| + 5, |s|))
  {
    var s := FootnoteHead(key) + " " + value;
    var a := |key| + 4;
    assert s[a] == ' ' && s[a + 1] == value[0];
    assert SpaceEnd(s, a) == a + 1 by {
      assert SpaceEnd(s, a + 1) == a + 1;
    }
    assert forall k :: a + 1 <= k < |s| ==> s[k] == value[k - a - 1];
    match shape
    case RestOfLine => LineEndRun(s, a + 1);
    case WordRun => WordEndRun(s, a + 1);
  }
}
