/** The block grammar shared by parser.py (split_markdown_page) and sources.py
    (File.extract_chunks): a fenced block, its blank-line padding, and the footnote footer
    that may follow it. The regular expression is recognised line by line over the text
    split at '\n' (Text.Lines); line p "is terminated" when a newline follows it. */
module Blocks {
  import opened Text
  import opened Results
  import opened Settings
  import opened Scanning
  import opened Footnotes

  /** `\[\^tag\]: *.+?\n+`: the tag head followed by at least one more character. */
  predicate IsTagLine(line: string, tagKey: string) {
    var h := FootnoteHead(tagKey);
    |line| > |h| && line[..|h|] == h
  }

  /** `\[\^id\]: *[A-Za-z0-9]{10}\n+`: the id head, spaces, then exactly ten ASCII letters
      or digits closing the line. */
  predicate IsGuidLine(line: string, guidKey: string) {
    var h := FootnoteHead(guidKey);
    && |line| >= |h| + 10 && line[..|h|] == h
    && (forall k :: |h| <= k < |line| - 10 ==> line[k] == ' ')
    && (forall k :: |line| - 10 <= k < |line| ==> IsAsciiAlnum(line[k]))
  }

  predicate Terminated(L: seq<string>, p: int) {
    0 <= p && p + 1 < |L|
  }

  /** `---\n`: a line ending in three hyphens, followed by a newline, opens a block. */
  predicate IsOpening(L: seq<string>, p: int) {
    Terminated(L, p) && |L[p]| >= 3 && L[p][|L[p]| - 3..] == "---"
  }

  /** `\n---\n`: the closing fence is a whole line of three hyphens, followed by a newline. */
  predicate IsClosing(L: seq<string>, p: int) {
    Terminated(L, p) && L[p] == "---"
  }

  /** The first line at or after p that is not whitespace-only (|L| when there is none). */
  function NextNonBlank(L: seq<string>, p: nat): (q: nat)
    requires p <= |L|
    ensures p <= q <= |L|
    ensures forall r :: p <= r < q ==> IsBlank(L[r])
    ensures q < |L| ==> !IsBlank(L[q])
    decreases |L| - p
  {
    if p == |L| || !IsBlank(L[p]) then p else NextNonBlank(L, p + 1)
  }

  /** `\n+`: the run of empty, terminated lines starting at p. */
  function SkipEmpty(L: seq<string>, p: nat): (q: nat)
    requires p <= |L|
    ensures p <= q <= |L|
    ensures forall r :: p <= r < q ==> L[r] == "" && Terminated(L, r)
    ensures q < |L| ==> !(L[q] == "" && Terminated(L, q))
    ensures p < |L| ==> q < |L|
    decreases |L| - p
  {
    if p < |L| && L[p] == "" && Terminated(L, p) then SkipEmpty(L, p + 1) else p
  }

  /** `\n\s*\n---\n` after body line k: at least one whitespace-only line, then the fence at m. */
  predicate ClosesAt(L: seq<string>, k: int, m: int) {
    0 <= k && k + 2 <= m && IsClosing(L, m) && forall r :: k < r < m ==> IsBlank(L[r])
  }

  /** The fence is the first line after k that is not whitespace-only. */
  lemma ClosesAtNext(L: seq<string>, k: nat)
    requires k < |L|
    ensures forall m :: ClosesAt(L, k, m) ==> m == NextNonBlank(L, k + 1)
  {
    forall m | ClosesAt(L, k, m)
      ensures m == NextNonBlank(L, k + 1)
    {
      assert !IsBlank(L[m]) by { assert !IsSpace(L[m][0]); }
    }
  }

  function CloseAfter(L: seq<string>, k: nat): (m: Option<nat>)
    requires k < |L|
    ensures m.Some? ==> ClosesAt(L, k, m.value)
    ensures m.None? ==> forall m' :: !ClosesAt(L, k, m')
  {
    ClosesAtNext(L, k);
    var q := NextNonBlank(L, k + 1);
    if k + 2 <= q < |L| && IsClosing(L, q) then Some(q) else None
  }

  /** `(.(?:.|\n)+?.)` starting at line j may end at line k: L[k] is not empty (the last
      character is not a newline), the body has at least three characters, and the
      closing fence follows. */
  predicate BodyEndsAt(L: seq<string>, j: int, k: int) {
    0 <= j <= k < |L| && |L[k]| > 0 && (k > j || |L[j]| >= 3) && CloseAfter(L, k).Some?
  }

  /** The lazy body stops at the first line that may end it. */
  function FindBodyEnd(L: seq<string>, j: nat, k: nat): (r: Option<nat>)
    requires j <= k <= |L|
    ensures r.Some? ==> k <= r.value && BodyEndsAt(L, j, r.value)
    ensures r.Some? ==> forall k' :: k <= k' < r.value ==> !BodyEndsAt(L, j, k')
    ensures r.None? ==> forall k' :: k <= k' ==> !BodyEndsAt(L, j, k')
    decreases |L| - k
  {
    if k == |L| then None
    else if BodyEndsAt(L, j, k) then Some(k)
    else FindBodyEnd(L, j, k + 1)
  }

  /** `(?:tag)*`: tag lines, each with the empty lines after it. */
  function TagRun(L: seq<string>, p: nat, tagKey: string): (q: nat)
    requires p <= |L|
    ensures p <= q <= |L|
    ensures forall r :: p <= r < q ==> Terminated(L, r) && (L[r] == "" || IsTagLine(L[r], tagKey))
    ensures q < |L| ==> !(Terminated(L, q) && IsTagLine(L[q], tagKey))
    ensures p < |L| ==> q < |L|
    decreases |L| - p
  {
    if p < |L| && Terminated(L, p) && IsTagLine(L[p], tagKey) then TagRun(L, SkipEmpty(L, p + 1), tagKey)
    else p
  }

  /** The shape of a footer between lines f and e: tag lines, at most one id line, and the
      empty lines each of them consumes. */
  predicate IsFooter(L: seq<string>, f: int, e: int, keys: Keys)
    requires 0 <= f <= e <= |L|
  {
    && (forall r :: f <= r < e ==>
          Terminated(L, r) && (L[r] == "" || IsTagLine(L[r], keys.tagKey) || IsGuidLine(L[r], keys.guidKey)))
    && (forall r, r' :: (f <= r < e && f <= r' < e && IsGuidLine(L[r], keys.guidKey)
          && IsGuidLine(L[r'], keys.guidKey)) ==> r == r')
  }

  /** The footer group cannot be extended by the line e after it: no further tag line, no
      further empty line once the group is non-empty, and no id line when the group has none
      yet. */
  predicate FooterGreedy(L: seq<string>, f: int, e: int, keys: Keys)
    requires 0 <= f <= e <= |L|
  {
    e < |L| ==>
      !(Terminated(L, e) && (
        || IsTagLine(L[e], keys.tagKey)
        || (f < e && L[e] == "")
        || (IsGuidLine(L[e], keys.guidKey) && forall r :: f <= r < e ==> !IsGuidLine(L[r], keys.guidKey))))
  }

  /** A non-empty run of tag lines has taken all the empty lines after it. */
  lemma {:induction false} TagRunNotEmpty(L: seq<string>, p: nat, tagKey: string)
    requires p <= |L|
    ensures var q := TagRun(L, p, tagKey); p < q < |L| ==> !(L[q] == "" && Terminated(L, q))
    decreases |L| - p
  {
    if p < |L| && Terminated(L, p) && IsTagLine(L[p], tagKey) {
      var s := SkipEmpty(L, p + 1);
      if s < TagRun(L, s, tagKey) {
        TagRunNotEmpty(L, s, tagKey);
      }
    }
  }

  /** `(tag*uid?tag*)`: the end of the footer that starts at line f. The quantifiers are
      greedy and nothing follows the group, so each one takes all it can. */
  function FooterEnd(L: seq<string>, f: nat, keys: Keys): (e: nat)
    requires f <= |L|
    ensures f <= e <= |L| && (f < |L| ==> e < |L|)
  {
    var t := TagRun(L, f, keys.tagKey);
    var g := if t < |L| && Terminated(L, t) && IsGuidLine(L[t], keys.guidKey) then SkipEmpty(L, t + 1) else t;
    TagRun(L, g, keys.tagKey)
  }

  /** The footer group has the footer's shape and cannot be extended. */
  lemma FooterEndSpec(L: seq<string>, f: nat, keys: Keys)
    requires f <= |L|
    ensures IsFooter(L, f, FooterEnd(L, f, keys), keys) && FooterGreedy(L, f, FooterEnd(L, f, keys), keys)
  {
    FooterEndShape(L, f, keys);
    FooterEndGreedy(L, f, keys);
  }

  lemma FooterEndShape(L: seq<string>, f: nat, keys: Keys)
    requires f <= |L|
    ensures IsFooter(L, f, FooterEnd(L, f, keys), keys)
  {
    var t := TagRun(L, f, keys.tagKey);
    var guid := t < |L| && Terminated(L, t) && IsGuidLine(L[t], keys.guidKey);
    var g := if guid then SkipEmpty(L, t + 1) else t;
    var e := TagRun(L, g, keys.tagKey);
    assert e == FooterEnd(L, f, keys);
    forall r | f <= r < e && IsGuidLine(L[r], keys.guidKey) ensures g > t && r == t {
      if r < t || g <= r { GuidIsNotTag(L[r], keys); }
    }
  }

  lemma FooterEndGreedy(L: seq<string>, f: nat, keys: Keys)
    requires f <= |L|
    ensures FooterGreedy(L, f, FooterEnd(L, f, keys), keys)
  {
    var t := TagRun(L, f, keys.tagKey);
    var guid := t < |L| && Terminated(L, t) && IsGuidLine(L[t], keys.guidKey);
    var g := if guid then SkipEmpty(L, t + 1) else t;
    var e := TagRun(L, g, keys.tagKey);
    assert e == FooterEnd(L, f, keys);
    forall r | f <= r < e && IsGuidLine(L[r], keys.guidKey) ensures g > t && r == t {
      if r < t || g <= r { GuidIsNotTag(L[r], keys); }
    }
    TagRunNotEmpty(L, f, keys.tagKey);
    TagRunNotEmpty(L, g, keys.tagKey);
    assert !guid ==> e == t;
  }

  /** The footer group is determined by where it starts: any end with the footer's shape
      that cannot be extended is the one FooterEnd finds. */
  lemma FooterEndUnique(L: seq<string>, f: nat, e: nat, keys: Keys)
    requires f <= e <= |L| && IsFooter(L, f, e, keys) && FooterGreedy(L, f, e, keys)
    requires f < |L| ==> !(L[f] == "" && Terminated(L, f))
    ensures e == FooterEnd(L, f, keys)
  {
    FooterEndSpec(L, f, keys);
  }

  /** The guid and tag heads differ, so no line is both. */
  lemma GuidIsNotTag(line: string, keys: Keys)
    requires IsGuidLine(line, keys.guidKey)
    ensures !IsTagLine(line, keys.tagKey)
  {
    var g, t := keys.guidKey, keys.tagKey;
    var hg, ht := FootnoteHead(g), FootnoteHead(t);
    assert line[..|hg|] == hg;
    if |line| > |ht| {
      var x: nat;
      if |g| == |t| {
        var y :| 0 <= y < |g| && g[y] != t[y];
        x := 2 + y;
        assert hg[x] == g[y] && ht[x] == t[y];
      } else if |g| < |t| {
        x := 2 + |g|;
        assert hg[x] == ']' && ht[x] == t[|g|];
      } else {
        x := 2 + |t|;
        assert ht[x] == ']' && hg[x] == g[|t|];
      }
      assert line[x] == hg[x] != ht[x];
      assert line[..|ht|][x] != ht[x];
    }
  }

  /** Line indices of one match of the block expression:
      open (ends with ---), bodyStart..bodyEnd (the body group), close (the --- fence),
      footerStart..end (the footer group); the whole match runs from the opening fence to end. */
  datatype Span = Span(open: nat, bodyStart: nat, bodyEnd: nat, close: nat, footerStart: nat, end: nat)

  predicate Ordered(sp: Span, n: nat) {
    sp.open < sp.bodyStart < sp.bodyEnd < sp.close < sp.footerStart <= sp.end < n
  }

  /** What one match of the block expression at line sp.open consists of. */
  predicate IsMatch(L: seq<string>, sp: Span, keys: Keys)
    requires Ordered(sp, |L|)
  {
    && IsOpening(L, sp.open)
    && sp.open + 2 <= sp.bodyStart && (forall q :: sp.open < q < sp.bodyStart ==> IsBlank(L[q]))
    && !IsBlank(L[sp.bodyStart])
    && BodyEndsAt(L, sp.bodyStart, sp.bodyEnd - 1)
    && (forall k :: sp.bodyStart <= k < sp.bodyEnd - 1 ==> !BodyEndsAt(L, sp.bodyStart, k))
    && ClosesAt(L, sp.bodyEnd - 1, sp.close)
    && (forall q :: sp.close < q < sp.footerStart ==> L[q] == "" && Terminated(L, q))
    && !(L[sp.footerStart] == "" && Terminated(L, sp.footerStart))
    && IsFooter(L, sp.footerStart, sp.end, keys)
    && FooterGreedy(L, sp.footerStart, sp.end, keys)
  }

  /** The match of the block expression whose opening fence is line i, if any. */
  function MatchAt(L: seq<string>, i: nat, keys: Keys): (r: Option<Span>)
    requires i < |L|
    ensures r.Some? ==> r.value.open == i && Ordered(r.value, |L|)
  {
    if !IsOpening(L, i) then None
    else
      var j := NextNonBlank(L, i + 1);
      if j < i + 2 || j == |L| then None
      else match FindBodyEnd(L, j, j)
        case None => None
        case Some(k) =>
          var m := CloseAfter(L, k).value;
          var f := SkipEmpty(L, m + 1);
          var e := FooterEnd(L, f, keys);
          Some(Span(i, j, k + 1, m, f, e))
  }

  /** A match found at line i has the shape of the block expression. */
  lemma MatchAtSound(L: seq<string>, i: nat, keys: Keys)
    requires i < |L| && MatchAt(L, i, keys).Some?
    ensures IsMatch(L, MatchAt(L, i, keys).value, keys)
  {
    var sp := MatchAt(L, i, keys).value;
    FooterEndSpec(L, sp.footerStart, keys);
  }

  /** The first line at or after p that is not whitespace-only is q. */
  lemma {:induction false} NextNonBlankIs(L: seq<string>, p: nat, q: nat)
    requires p <= q < |L| && !IsBlank(L[q]) && forall r :: p <= r < q ==> IsBlank(L[r])
    ensures NextNonBlank(L, p) == q
    decreases q - p
  {
    if p < q { NextNonBlankIs(L, p + 1, q); }
  }

  /** The run of empty, terminated lines from p ends at q. */
  lemma {:induction false} SkipEmptyIs(L: seq<string>, p: nat, q: nat)
    requires p <= q < |L| && !(L[q] == "" && Terminated(L, q))
    requires forall r :: p <= r < q ==> L[r] == "" && Terminated(L, r)
    ensures SkipEmpty(L, p) == q
    decreases q - p
  {
    if p < q { SkipEmptyIs(L, p + 1, q); }
  }

  /** Conversely, a span with the shape of the block expression is the match at its
      opening line: the shape determines every boundary. */
  lemma MatchAtUnique(L: seq<string>, sp: Span, keys: Keys)
    requires Ordered(sp, |L|) && IsMatch(L, sp, keys)
    ensures MatchAt(L, sp.open, keys) == Some(sp)
  {
    var i, j, k, m, f := sp.open, sp.bodyStart, sp.bodyEnd - 1, sp.close, sp.footerStart;
    assert NextNonBlank(L, i + 1) == j by { NextNonBlankIs(L, i + 1, j); }
    assert FindBodyEnd(L, j, j) == Some(k) by { BodyEndIs(L, j, k); }
    assert CloseAfter(L, k) == Some(m) by { ClosesAtNext(L, k); }
    assert SkipEmpty(L, m + 1) == f by { SkipEmptyIs(L, m + 1, f); }
    assert FooterEnd(L, f, keys) == sp.end by { FooterEndUnique(L, f, sp.end, keys); }
    MatchAtIs(L, i, j, k, m, f, sp.end, keys);
  }

  /** MatchAt from the boundaries its steps find. */
  lemma MatchAtIs(L: seq<string>, i: nat, j: nat, k: nat, m: nat, f: nat, e: nat, keys: Keys)
    requires i < |L| && IsOpening(L, i) && i + 2 <= j < |L| && NextNonBlank(L, i + 1) == j
    requires FindBodyEnd(L, j, j) == Some(k) && CloseAfter(L, k) == Some(m)
    requires SkipEmpty(L, m + 1) == f && FooterEnd(L, f, keys) == e
    ensures MatchAt(L, i, keys) == Some(Span(i, j, k + 1, m, f, e))
  {
  }

  /** The lazy body ends at the first line that may end it. */
  lemma BodyEndIs(L: seq<string>, j: nat, k: nat)
    requires BodyEndsAt(L, j, k) && forall k' :: j <= k' < k ==> !BodyEndsAt(L, j, k')
    ensures FindBodyEnd(L, j, j) == Some(k)
  {
  }

  /** An opening fence yields no match only when the body cannot start or cannot end. */
  lemma MatchAtComplete(L: seq<string>, i: nat, keys: Keys)
    requires i < |L| && IsOpening(L, i) && MatchAt(L, i, keys).None?
    ensures var j := NextNonBlank(L, i + 1);
      j < i + 2 || j == |L| || forall k :: !BodyEndsAt(L, j, k)
  {
  }

  /** MatchAt as a function of the line index (None past the end). */
  function MatchFn(L: seq<string>, keys: Keys): nat -> Option<Span> {
    (i: nat) => if i < |L| then MatchAt(L, i, keys) else None
  }

  /** MatchAt at every line, computed once. */
  function MatchTable(L: seq<string>, keys: Keys): (t: seq<Option<Span>>)
    ensures |t| == |L|
  {
    Table(MatchFn(L, keys), |L|)
  }

  lemma MatchTableAt(L: seq<string>, keys: Keys, i: nat)
    requires i < |L|
    ensures MatchTable(L, keys)[i] == MatchAt(L, i, keys)
  {
    TableAt(MatchFn(L, keys), |L|, i);
  }

  lemma MatchTableOrdered(L: seq<string>, keys: Keys)
    ensures var t := MatchTable(L, keys);
      forall i :: 0 <= i < |L| ==> t[i].Some? ==> t[i].value.open == i && Ordered(t[i].value, |L|)
  {
    forall i | 0 <= i < |L|
      ensures var t := MatchTable(L, keys); t[i].Some? ==> t[i].value.open == i && Ordered(t[i].value, |L|)
    {
      MatchTableAt(L, keys, i);
    }
  }

  /** The matcher of the block expression over the lines L. */
  function Matcher(L: seq<string>, keys: Keys): (f: nat -> Option<Hit<Span>>)
    ensures IsMatcher(f, |L|)
    ensures forall i :: 0 <= i < |L| && f(i).Some? ==>
      f(i).value.value.open == i && f(i).value.value.end == f(i).value.end && Ordered(f(i).value.value, |L|)
  {
    var t := MatchTable(L, keys);
    MatchTableOrdered(L, keys);
    (i: nat) => if i < |L| && t[i].Some? then Some(Hit(i, t[i].value.end, t[i].value)) else None
  }

  lemma MatcherAt(L: seq<string>, keys: Keys, i: nat)
    requires i < |L|
    ensures Matcher(L, keys)(i).Some? <==> MatchAt(L, i, keys).Some?
    ensures Matcher(L, keys)(i).Some? ==> Matcher(L, keys)(i).value.value == MatchAt(L, i, keys).value
  {
    MatchTableAt(L, keys, i);
  }

  /** The spans of all blocks among the lines L, in document order. */
  function BlockSpans(L: seq<string>, keys: Keys): (spans: seq<Span>)
    ensures forall n :: 0 <= n < |spans| ==> Ordered(spans[n], |L|)
    ensures forall n :: 0 <= n < |spans| - 1 ==> spans[n].end <= spans[n + 1].open
    ensures var hits := FindAll(Matcher(L, keys), |L|, 0);
      |spans| == |hits| && forall n :: 0 <= n < |hits| ==>
        spans[n] == hits[n].value && spans[n].open == hits[n].start && spans[n].end == hits[n].end
  {
    var f := Matcher(L, keys);
    var hits := FindAll(f, |L|, 0);
    seq(|hits|, n requires 0 <= n < |hits| => hits[n].value)
  }

  /** Each reported span is a match of the block expression starting at its opening line. */
  lemma BlockSpansSound(L: seq<string>, keys: Keys, n: nat)
    requires n < |BlockSpans(L, keys)|
    ensures var sp := BlockSpans(L, keys)[n]; MatchAt(L, sp.open, keys) == Some(sp) && IsMatch(L, sp, keys)
  {
    var f := Matcher(L, keys);
    var hits := FindAll(f, |L|, 0);
    var h := hits[n];
    assert f(h.start) == Some(h);
    MatcherAt(L, keys, h.start);
    MatchAtSound(L, h.start, keys);
  }

  /** A line of L lies outside every span of spans and every gap between them holds none. */
  predicate Skipped(spans: seq<Span>, q: nat) {
    || spans == []
    || q < spans[0].open
    || spans[|spans| - 1].end <= q
    || exists n :: 0 <= n < |spans| - 1 && spans[n].end <= q < spans[n + 1].open
  }

  lemma SkippedHasNoHit(L: seq<string>, keys: Keys, q: nat)
    requires q < |L| && Skipped(BlockSpans(L, keys), q)
    ensures Matcher(L, keys)(q).None?
  {
    var f := Matcher(L, keys);
    var spans := BlockSpans(L, keys);
    if spans == [] || q < spans[0].open {
      FindAllFirst(f, |L|, 0);
    } else if spans[|spans| - 1].end <= q {
      FindAllLast(f, |L|, 0);
    } else {
      var n :| 0 <= n < |spans| - 1 && spans[n].end <= q < spans[n + 1].open;
      FindAllGaps(f, |L|, 0, n);
    }
  }

  /** No line where a match starts is passed over: there is none before the first span,
      none between two consecutive spans and none after the last; with no span at all there
      is no match anywhere. */
  lemma BlockSpansComplete(L: seq<string>, keys: Keys, q: nat)
    requires q < |L| && Skipped(BlockSpans(L, keys), q)
    ensures MatchAt(L, q, keys).None?
  {
    SkippedHasNoHit(L, keys, q);
    MatcherAt(L, keys, q);
  }

  /** No line of L opens a match of the block expression. */
  predicate NoMatch(L: seq<string>, keys: Keys) {
    forall q :: 0 <= q < |L| ==> MatchAt(L, q, keys).None?
  }

  /** No block is found exactly when no line opens a match. */
  lemma BlockSpansEmpty(L: seq<string>, keys: Keys)
    ensures BlockSpans(L, keys) == [] <==> NoMatch(L, keys)
  {
    if BlockSpans(L, keys) == [] {
      forall q | 0 <= q < |L|
        ensures MatchAt(L, q, keys).None?
      {
        BlockSpansComplete(L, keys, q);
      }
    } else {
      BlockSpansSound(L, keys, 0);
    }
  }

  /** The three groups findall reports for one match. */
  datatype RawMatch = RawMatch(whole: string, body: string, footer: string)

  function BodyText(L: seq<string>, sp: Span): string
    requires sp.bodyStart < sp.bodyEnd <= |L|
  {
    JoinLines(L[sp.bodyStart..sp.bodyEnd])
  }

  function FooterText(L: seq<string>, sp: Span): string
    requires sp.footerStart <= sp.end <= |L|
  {
    TermConcat(L[sp.footerStart..sp.end])
  }

  function WholeText(L: seq<string>, sp: Span): string
    requires sp.open < sp.end <= |L|
  {
    "---\n" + TermConcat(L[sp.open + 1..sp.end])
  }

  /** The whole match is the opening fence and blank lines, the body group, the closing
      fence and the footer group, in that order. */
  lemma WholeTextParts(L: seq<string>, sp: Span)
    requires Ordered(sp, |L|)
    ensures WholeText(L, sp) ==
      "---\n" + (TermConcat(L[sp.open + 1..sp.bodyStart])
        + ((BodyText(L, sp) + "\n") + (TermConcat(L[sp.bodyEnd..sp.footerStart]) + FooterText(L, sp))))
  {
    var o, bs, be, fs, e := sp.open + 1, sp.bodyStart, sp.bodyEnd, sp.footerStart, sp.end;
    assert L[o..e] == L[o..bs] + L[bs..e];
    assert L[bs..e] == L[bs..be] + L[be..e];
    assert L[be..e] == L[be..fs] + L[fs..e];
    TermConcatAppend(L[o..bs], L[bs..e]);
    TermConcatAppend(L[bs..be], L[be..e]);
    TermConcatAppend(L[be..fs], L[fs..e]);
    TermConcatJoin(L[bs..be]);
  }

  /** The matches of the block expression in a document body, in document order. */
  function FindBlocks(text: string, keys: Keys): (ms: seq<RawMatch>)
    ensures |ms| == |BlockSpans(Lines(text), keys)|
  {
    var L := Lines(text);
    var spans := BlockSpans(L, keys);
    seq(|spans|, n requires 0 <= n < |spans| =>
      RawMatch(WholeText(L, spans[n]), BodyText(L, spans[n]), FooterText(L, spans[n])))
  }

  lemma FindBlocksAt(text: string, keys: Keys, n: nat)
    requires n < |FindBlocks(text, keys)|
    ensures var L := Lines(text); var sp := BlockSpans(L, keys)[n];
      FindBlocks(text, keys)[n] == RawMatch(WholeText(L, sp), BodyText(L, sp), FooterText(L, sp))
  {
  }

  /** The whole match holds the body group and ends with the footer group. */
  lemma FindBlocksWhole(text: string, keys: Keys, n: nat)
    requires n < |FindBlocks(text, keys)|
    ensures var L := Lines(text); var sp := BlockSpans(L, keys)[n]; var m := FindBlocks(text, keys)[n];
      && m.body == BodyText(L, sp) && m.footer == FooterText(L, sp)
      && m.whole == "---\n" + (TermConcat(L[sp.open + 1..sp.bodyStart])
           + ((m.body + "\n") + (TermConcat(L[sp.bodyEnd..sp.footerStart]) + m.footer)))
  {
    var L := Lines(text);
    var sp := BlockSpans(L, keys)[n];
    var m := FindBlocks(text, keys)[n];
    FindBlocksAt(text, keys, n);
    assert m.whole == WholeText(L, sp) && m.body == BodyText(L, sp) && m.footer == FooterText(L, sp);
    WholeTextParts(L, sp);
  }
}
