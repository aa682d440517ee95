/** Character classes, str.strip(), splitting into lines and order-preserving de-duplication. */
module Text {

  /** Python's str.isspace(); the `\s` class of a str pattern matches the same characters. */
  predicate IsSpace(c: char) {
    var n := c as int;
    n == 0x20 || 0x09 <= n <= 0x0d || 0x1c <= n <= 0x1f || n == 0x85 || n == 0xa0
    || n == 0x1680 || 0x2000 <= n <= 0x200a || n == 0x2028 || n == 0x2029
    || n == 0x202f || n == 0x205f || n == 0x3000
  }

  predicate IsBlank(s: string) {
    forall k :: 0 <= k < |s| ==> IsSpace(s[k])
  }

  predicate IsAsciiDigit(c: char) { '0' <= c <= '9' }

  predicate IsAsciiLetter(c: char) { 'a' <= c <= 'z' || 'A' <= c <= 'Z' }

  predicate IsAsciiAlnum(c: char) { IsAsciiLetter(c) || IsAsciiDigit(c) }

  /** `\w`, restricted to ASCII. */
  predicate IsWordChar(c: char) { IsAsciiAlnum(c) || c == '_' }

  /** What str.strip() returns: no leading and no trailing whitespace. */
  predicate IsStripped(s: string) {
    s == [] || (!IsSpace(s[0]) && !IsSpace(s[|s| - 1]))
  }

  /** str.strip(): whitespace is removed from both ends. */
  function Strip(s: string): (r: string)
    ensures IsStripped(r) && |r| <= |s|
  {
    if s != [] && IsSpace(s[0]) then Strip(s[1..])
    else if s != [] && IsSpace(s[|s| - 1]) then Strip(s[..|s| - 1])
    else s
  }

  /** r sits at position i of s with only whitespace around it. */
  predicate Surrounded(s: string, i: int, r: string) {
    0 <= i <= |s| - |r| && r == s[i..i + |r|] && IsBlank(s[..i]) && IsBlank(s[i + |r|..])
  }

  lemma SurroundedCons(s: string, i: int, r: string)
    requires s != [] && IsSpace(s[0]) && Surrounded(s[1..], i, r)
    ensures Surrounded(s, i + 1, r)
  {
    assert s[..i + 1] == [s[0]] + s[1..][..i];
    assert s[i + 1 + |r|..] == s[1..][i + |r|..];
    assert s[i + 1..i + 1 + |r|] == s[1..][i..i + |r|];
  }

  lemma SurroundedSnoc(s: string, i: int, r: string)
    requires s != [] && IsSpace(s[|s| - 1]) && Surrounded(s[..|s| - 1], i, r)
    ensures Surrounded(s, i, r)
  {
    var s' := s[..|s| - 1];
    assert s[..i] == s'[..i];
    assert s[i + |r|..] == s'[i + |r|..] + [s[|s| - 1]];
    assert s[i..i + |r|] == s'[i..i + |r|];
  }

  /** What str.strip() keeps: the text between whitespace-only ends of s. */
  lemma {:induction false} StripSpec(s: string)
    ensures exists i :: Surrounded(s, i, Strip(s))
    decreases |s|
  {
    var r := Strip(s);
    if s != [] && IsSpace(s[0]) {
      StripSpec(s[1..]);
      var i :| Surrounded(s[1..], i, r);
      SurroundedCons(s, i, r);
    } else if s != [] && IsSpace(s[|s| - 1]) {
      StripSpec(s[..|s| - 1]);
      var i :| Surrounded(s[..|s| - 1], i, r);
      SurroundedSnoc(s, i, r);
    } else {
      assert s[..0] == [] && s[|s|..] == [] && s[0..|s|] == s;
      assert Surrounded(s, 0, r);
    }
  }

  /** Greedy runs from position p: where a run of word characters, of spaces, of digits
      and of non-newline characters (`.` without DOTALL) ends. */
  function WordEnd(s: string, p: nat): (q: nat)
    requires p <= |s|
    ensures p <= q <= |s| && (forall k :: p <= k < q ==> IsWordChar(s[k]))
    ensures q == |s| || !IsWordChar(s[q])
    decreases |s| - p
  {
    if p < |s| && IsWordChar(s[p]) then WordEnd(s, p + 1) else p
  }

  function SpaceEnd(s: string, p: nat): (q: nat)
    requires p <= |s|
    ensures p <= q <= |s| && (forall k :: p <= k < q ==> s[k] == ' ')
    ensures q == |s| || s[q] != ' '
    decreases |s| - p
  {
    if p < |s| && s[p] == ' ' then SpaceEnd(s, p + 1) else p
  }

  function DigitEnd(s: string, p: nat): (q: nat)
    requires p <= |s|
    ensures p <= q <= |s| && (forall k :: p <= k < q ==> IsAsciiDigit(s[k]))
    ensures q == |s| || !IsAsciiDigit(s[q])
    decreases |s| - p
  {
    if p < |s| && IsAsciiDigit(s[p]) then DigitEnd(s, p + 1) else p
  }

  function LineEnd(s: string, p: nat): (q: nat)
    requires p <= |s|
    ensures p <= q <= |s| && (forall k :: p <= k < q ==> s[k] != '\n')
    ensures q == |s| || s[q] == '\n'
    decreases |s| - p
  {
    if p < |s| && s[p] != '\n' then LineEnd(s, p + 1) else p
  }

  lemma {:induction false} LineEndRun(s: string, p: nat)
    requires p <= |s| && forall k :: p <= k < |s| ==> s[k] != '\n'
    ensures LineEnd(s, p) == |s|
    decreases |s| - p
  {
    if p < |s| { LineEndRun(s, p + 1); }
  }

  lemma {:induction false} WordEndRun(s: string, p: nat)
    requires p <= |s| && forall k :: p <= k < |s| ==> IsWordChar(s[k])
    ensures WordEnd(s, p) == |s|
    decreases |s| - p
  {
    if p < |s| { WordEndRun(s, p + 1); }
  }

  /** Each run is the longest one: any q that closes a run from p is where it ends. */
  lemma {:induction false} WordEndIs(s: string, p: nat, q: nat)
    requires p <= q <= |s| && (forall k :: p <= k < q ==> IsWordChar(s[k]))
    requires q == |s| || !IsWordChar(s[q])
    ensures WordEnd(s, p) == q
    decreases q - p
  {
    if p < q { WordEndIs(s, p + 1, q); }
  }

  lemma {:induction false} SpaceEndIs(s: string, p: nat, q: nat)
    requires p <= q <= |s| && (forall k :: p <= k < q ==> s[k] == ' ')
    requires q == |s| || s[q] != ' '
    ensures SpaceEnd(s, p) == q
    decreases q - p
  {
    if p < q { SpaceEndIs(s, p + 1, q); }
  }

  lemma {:induction false} LineEndIs(s: string, p: nat, q: nat)
    requires p <= q <= |s| && (forall k :: p <= k < q ==> s[k] != '\n')
    requires q == |s| || s[q] == '\n'
    ensures LineEnd(s, p) == q
    decreases q - p
  {
    if p < q { LineEndIs(s, p + 1, q); }
  }

  /** Splitting at every '\n', as the regular expressions of the pipeline see a text:
      the pieces hold no newline and joining them back gives the text. */
  function Lines(s: string): (ls: seq<string>)
    ensures |ls| >= 1
    ensures forall k :: 0 <= k < |ls| ==> '\n' !in ls[k]
    ensures JoinLines(ls) == s
  {
    if s == [] then [""]
    else
      var rest := Lines(s[1..]);
      if s[0] == '\n' then
        assert ([""] + rest)[1..] == rest;
        [""] + rest
      else
        var ls := [[s[0]] + rest[0]] + rest[1..];
        assert ls[1..] == rest[1..];
        ls
  }

  function JoinLines(ls: seq<string>): string
    requires |ls| >= 1
  {
    if |ls| == 1 then ls[0] else ls[0] + "\n" + JoinLines(ls[1..])
  }

  /** Every line followed by its newline. */
  function TermConcat(ls: seq<string>): string {
    if ls == [] then "" else ls[0] + "\n" + TermConcat(ls[1..])
  }

  lemma {:induction false} TermConcatAppend(a: seq<string>, b: seq<string>)
    ensures TermConcat(a + b) == TermConcat(a) + TermConcat(b)
  {
    if a != [] {
      assert (a + b)[1..] == a[1..] + b;
      TermConcatAppend(a[1..], b);
    } else {
      assert a + b == b;
    }
  }

  /** Terminating every line is joining them and terminating the last. */
  lemma {:induction false} TermConcatJoin(ls: seq<string>)
    requires |ls| >= 1
    ensures TermConcat(ls) == JoinLines(ls) + "\n"
  {
    if |ls| > 1 {
      TermConcatJoin(ls[1..]);
    }
  }

  predicate NoDuplicates<T(==)>(s: seq<T>) {
    forall i, j :: 0 <= i < j < |s| ==> s[i] != s[j]
  }

  /** The position of the first occurrence of x in s. */
  function FirstIndex<T(==)>(s: seq<T>, x: T): (i: nat)
    requires x in s
    ensures i < |s| && s[i] == x && x !in s[..i]
  {
    if s[0] == x then 0 else FirstIndex(s[1..], x) + 1
  }

  lemma FirstIndexExtend<T>(s: seq<T>, x: T, y: T)
    requires y in s
    ensures FirstIndex(s + [x], y) == FirstIndex(s, y)
  {
    var i := FirstIndex(s, y);
    assert (s + [x])[i] == y;
    assert (s + [x])[..i] == s[..i];
  }

  /** list(dict.fromkeys(s)): the distinct elements of s, each at its first occurrence. */
  function Dedup(s: seq<string>): (r: seq<string>)
    ensures NoDuplicates(r)
    ensures forall x :: x in r <==> x in s
    ensures forall i, j :: 0 <= i < j < |r| ==> FirstIndex(s, r[i]) < FirstIndex(s, r[j])
  {
    if s == [] then []
    else
      var p := s[..|s| - 1];
      var x := s[|s| - 1];
      assert s == p + [x];
      var d := Dedup(p);
      forall y | y in p ensures FirstIndex(s, y) == FirstIndex(p, y) { FirstIndexExtend(p, x, y); }
      if x in d then d
      else
        assert FirstIndex(s, x) == |p| by {
          assert s[..|p|] == p;
        }
        d + [x]
  }

  /** Appending never reorders what was already collected: the de-duplicated prefix comes first. */
  lemma {:induction false} DedupPrefix(a: seq<string>, b: seq<string>)
    ensures |Dedup(a)| <= |Dedup(a + b)| && Dedup(a + b)[..|Dedup(a)|] == Dedup(a)
  {
    if b != [] {
      var c := a + b[..|b| - 1];
      assert a + b == c + [b[|b| - 1]];
      assert c[..|c|] == c;
      assert b[..|b| - 1] + [b[|b| - 1]] == b;
      DedupPrefix(a, b[..|b| - 1]);
      assert (a + b)[..|a + b| - 1] == c;
    } else {
      assert a + b == a;
    }
  }

  /** A list without repeated elements is left as it is. */
  lemma {:induction false} DedupOfDistinct(s: seq<string>)
    requires NoDuplicates(s)
    ensures Dedup(s) == s
  {
    if s != [] {
      var p := s[..|s| - 1];
      assert NoDuplicates(p);
      DedupOfDistinct(p);
      assert s[|s| - 1] !in p;
      assert p + [s[|s| - 1]] == s;
    }
  }

  /** The results of f over xs, concatenated in order. */
  function FlatMap<T, U>(f: T -> seq<U>, xs: seq<T>): seq<U> {
    if xs == [] then [] else FlatMap(f, xs[..|xs| - 1]) + f(xs[|xs| - 1])
  }

  lemma {:induction false} FlatMapAppend<T, U>(f: T -> seq<U>, a: seq<T>, b: seq<T>)
    ensures FlatMap(f, a + b) == FlatMap(f, a) + FlatMap(f, b)
  {
    if b == [] {
      assert a + b == a;
    } else {
      var q := b[..|b| - 1];
      assert (a + b)[..|a + b| - 1] == a + q;
      FlatMapAppend(f, a, q);
    }
  }

  /** Every element of the result comes from the result of some element of xs. */
  lemma {:induction false} FlatMapFrom<T, U>(f: T -> seq<U>, xs: seq<T>, y: U)
    requires y in FlatMap(f, xs)
    ensures exists i :: 0 <= i < |xs| && y in f(xs[i])
  {
    var p := xs[..|xs| - 1];
    if y in FlatMap(f, p) {
      FlatMapFrom(f, p, y);
      var i :| 0 <= i < |p| && y in f(p[i]);
      assert p[i] == xs[i];
    } else {
      assert y in f(xs[|xs| - 1]);
    }
  }
}
