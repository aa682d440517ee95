/** The note-body patterns, each recognised by hand:
    `(.+):::(.+)` (question and answer), `\{{ *c\d+ *:: *[\s\S]+? *\}}` (a cloze deletion),
    `(.*(?:<cloze>)+.*)` (a body holding cloze deletions) and `.*<img.*src="(.*)".*`
    (an image reference); all are applied with DOTALL, so `.` also matches a newline. */
module Patterns {
  import opened Text
  import opened Results

  /** The literal pat occurs in s at position p. */
  predicate At(s: string, p: int, pat: string) {
    0 <= p && p + |pat| <= |s| && s[p..p + |pat|] == pat
  }

  /** The last occurrence of pat at or before position hi, or -1. */
  function LastAt(s: string, pat: string, hi: int): (r: int)
    ensures -1 <= r && (hi >= -1 ==> r <= hi) && (r >= 0 ==> At(s, r, pat))
    ensures forall q :: r < q <= hi ==> !At(s, q, pat)
    decreases hi + 1
  {
    if hi < 0 then -1 else if At(s, hi, pat) then hi else LastAt(s, pat, hi - 1)
  }

  /** The first occurrence of pat at or after position lo, or -1. */
  function FirstAt(s: string, pat: string, lo: nat): (r: int)
    ensures r == -1 || (lo <= r && At(s, r, pat))
    ensures forall q :: lo <= q && (r == -1 || q < r) ==> !At(s, q, pat)
    decreases |s| - lo
  {
    if lo + |pat| > |s| then
      assert forall q :: lo <= q ==> !At(s, q, pat);
      -1
    else if At(s, lo, pat) then lo
    else FirstAt(s, pat, lo + 1)
  }

  // ---------------------------------------------------------------------------------------
  // `(.+):::(.+)`

  /** A place where the question/answer pattern can split s: at least one character on
      either side of the ":::". */
  predicate IsSeparator(s: string, p: int) {
    1 <= p && p + 3 < |s| && At(s, p, ":::")
  }

  /** findall of `(.+):::(.+)` under DOTALL: at most one match, which starts at 0 and runs
      to the end; the greedy first group makes it split at the last possible ":::". */
  function QaSplit(s: string): (r: Option<(string, string)>)
    ensures r.None? <==> forall p :: !IsSeparator(s, p)
    ensures r.Some? ==> s == r.value.0 + ":::" + r.value.1 && |r.value.0| >= 1 && |r.value.1| >= 1
    ensures r.Some? ==> IsSeparator(s, |r.value.0|) && forall p :: IsSeparator(s, p) ==> p <= |r.value.0|
  {
    var p := LastAt(s, ":::", |s| - 4);
    if p >= 1 then
      assert IsSeparator(s, p);
      assert s == s[..p] + ":::" + s[p + 3..] by {
        assert s[p..p + 3] == ":::";
      }
      Some((s[..p], s[p + 3..]))
    else
      None
  }

  // ---------------------------------------------------------------------------------------
  // `\{{ *c\d+ *:: *[\s\S]+? *\}}`

  /** `\{{ *c\d+ *::` at p: the position after the "::", if the head is there. */
  function ClozeHeadAt(s: string, p: nat): (r: Option<nat>)
    requires p <= |s|
    ensures r.Some? ==> p + 6 <= r.value <= |s| && At(s, p, "{{") && At(s, r.value - 2, "::")
  {
    if At(s, p, "{{") then
      var c := SpaceEnd(s, p + 2);
      if c < |s| && s[c] == 'c' then
        var d := DigitEnd(s, c + 1);
        if c + 1 < d then
          var e := SpaceEnd(s, d);
          if At(s, e, "::") then Some(e + 2) else None
        else None
      else None
    else None
  }

  /** A cloze deletion starts at p: its head, then at least one character, then "}}".
      (The spaces around the content are optional and the content may hold anything.) */
  ghost predicate ClozeAt(s: string, p: nat) {
    p <= |s| && ClozeHeadAt(s, p).Some? && exists t :: ClozeHeadAt(s, p).value + 1 <= t && At(s, t, "}}")
  }

  /** Whether the cloze deletion starting at p can close: the first "}}" after its head. */
  function ClozeClosesAt(s: string, p: nat): (b: bool)
    requires p <= |s|
    ensures b <==> ClozeAt(s, p)
  {
    match ClozeHeadAt(s, p)
    case None => false
    case Some(r) => FirstAt(s, "}}", r + 1) >= 0
  }

  /** Whether a cloze deletion starts anywhere at or after position p. */
  function HasClozeFrom(s: string, p: nat): bool
    requires p <= |s|
    decreases |s| - p
  {
    if ClozeClosesAt(s, p) then true
    else if p == |s| then false
    else HasClozeFrom(s, p + 1)
  }

  lemma {:induction false} HasClozeFromSpec(s: string, p: nat)
    requires p <= |s|
    ensures HasClozeFrom(s, p) <==> exists q :: p <= q <= |s| && ClozeAt(s, q)
    decreases |s| - p
  {
    if ClozeClosesAt(s, p) {
      assert ClozeAt(s, p);
    } else if p == |s| {
      assert !ClozeAt(s, p);
    } else {
      HasClozeFromSpec(s, p + 1);
      assert !ClozeAt(s, p);
    }
  }

  /** findall of the cloze pattern is non-empty: some cloze deletion occurs in s. */
  function HasCloze(s: string): bool {
    HasClozeFrom(s, 0)
  }

  /** Some cloze deletion occurs in s exactly when HasCloze says so. */
  lemma HasClozeSpec(s: string)
    ensures HasCloze(s) <==> exists q :: 0 <= q <= |s| && ClozeAt(s, q)
  {
    HasClozeFromSpec(s, 0);
  }

  /** The two capturing-group shapes findall reports: a tuple of groups for a pattern with
      several groups, the group's string for a pattern with one. */
  datatype Found = Groups(groups: seq<string>) | Whole(text: string)

  /** findall of `(.+):::(.+)` under DOTALL. */
  function FindQa(s: string): (r: seq<Found>)
    ensures |r| <= 1
    ensures r != [] <==> QaSplit(s).Some?
    ensures r != [] ==> r[0] == Groups([QaSplit(s).value.0, QaSplit(s).value.1])
  {
    match QaSplit(s)
    case None => []
    case Some((q, a)) => [Groups([q, a])]
  }

  /** findall of `(.*(?:<cloze>)+.*)` under DOTALL: when a cloze deletion occurs anywhere, the
      leading `.*` reaches it from position 0 and the trailing `.*` runs to the end, so the one
      match is the whole text; no match can start after it. */
  function FindClozeBody(s: string): (r: seq<Found>)
    ensures HasCloze(s) ==> r == [Whole(s)]
    ensures !HasCloze(s) ==> r == []
  {
    if HasCloze(s) then [Whole(s)] else []
  }

  // ---------------------------------------------------------------------------------------
  // `.*<img.*src="(.*)".*`

  /** `<img` at a, `src="` at b, and the path running from b + 5 to a quote. */
  predicate IsImgMatch(s: string, a: int, b: int, path: string) {
    && At(s, a, "<img") && a + 4 <= b && At(s, b, "src=\"")
    && b + 5 + |path| < |s| && path == s[b + 5..b + 5 + |path|] && s[b + 5 + |path|] == '"'
  }

  /** The greedy match: the last quote closes the path, the last `src="` before it opens it,
      and some `<img` must come before that. */
  function ImgSrc(s: string): (r: Option<string>)
    ensures r.Some? ==> exists a, b :: (
      && IsImgMatch(s, a, b, r.value)
      && (forall c :: b + 5 + |r.value| < c < |s| ==> s[c] != '"')
      && (forall b' :: b < b' && b' + 5 <= b + 5 + |r.value| ==> !At(s, b', "src=\"")))
  {
    var c := LastAt(s, "\"", |s| - 1);
    var b := LastAt(s, "src=\"", c - 5);
    var a := LastAt(s, "<img", b - 4);
    if c >= 0 && b >= 0 && a >= 0 then
      assert forall c' :: c < c' < |s| ==> s[c'] != '"' by {
        forall c' | c < c' < |s| ensures s[c'] != '"' {
          assert !At(s, c', "\"");
          assert s[c'..c' + 1] == [s[c']];
        }
      }
      assert s[c..c + 1] == "\"";
      assert IsImgMatch(s, a, b, s[b + 5..c]);
      Some(s[b + 5..c])
    else
      None
  }

  /** The pattern matches whenever `<img`, then `src="`, then a quote occur in that order. */
  lemma ImgSrcComplete(s: string, a: int, b: int, c: int)
    requires At(s, a, "<img") && a + 4 <= b && At(s, b, "src=\"") && b + 5 <= c && At(s, c, "\"")
    ensures ImgSrc(s).Some?
  {
    var c0 := LastAt(s, "\"", |s| - 1);
    assert c <= c0;
    var b0 := LastAt(s, "src=\"", c0 - 5);
    assert b <= b0;
    var a0 := LastAt(s, "<img", b0 - 4);
    assert a <= a0;
  }

  /** findall of the image pattern: at most the one path. */
  function FindImg(s: string): (r: seq<string>)
    ensures |r| <= 1 && (r != [] <==> ImgSrc(s).Some?)
  {
    match ImgSrc(s)
    case None => []
    case Some(path) => [path]
  }
}
