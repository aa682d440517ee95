/** The scanning discipline of Python's re.findall: try the pattern at each position from
    left to right; after a match, resume where it ended; after a failure, move on by one. */
module Scanning {
  import opened Results

  /** A match of some pattern: where it starts and ends, and what it captured. */
  datatype Hit<+V> = Hit(start: nat, end: nat, value: V)

  /** A matcher reports, for each position below n, the match starting there, if any;
      every match is non-empty and stays within the input. */
  predicate IsMatcher<V>(f: nat -> Option<Hit<V>>, n: nat) {
    forall i :: 0 <= i < n ==> f(i).Some? ==> f(i).value.start == i < f(i).value.end <= n
  }

  /** f at 0, ..., n - 1, computed once, so that f is not re-evaluated at every use. */
  function Table<T>(f: nat -> T, n: nat): (t: seq<T>)
    ensures |t| == n
  {
    if n == 0 then [] else Table(f, n - 1) + [f(n - 1)]
  }

  lemma {:induction false} TableAt<T>(f: nat -> T, n: nat, i: nat)
    requires i < n
    ensures Table(f, n)[i] == f(i)
  {
    if i < n - 1 {
      TableAt(f, n - 1, i);
    }
  }

  /** No match starts at any position in [a, b). */
  predicate NoMatchIn<V>(f: nat -> Option<Hit<V>>, a: nat, b: nat) {
    forall q :: a <= q < b ==> f(q).None?
  }

  /** All non-overlapping matches from position p on, in order. */
  function FindAll<V>(f: nat -> Option<Hit<V>>, n: nat, p: nat): (r: seq<Hit<V>>)
    requires IsMatcher(f, n) && p <= n
    ensures forall k :: 0 <= k < |r| ==> p <= r[k].start && f(r[k].start) == Some(r[k])
    ensures forall k :: 0 <= k < |r| - 1 ==> r[k].end <= r[k + 1].start
    decreases n - p
  {
    if p == n then []
    else match f(p)
      case Some(h) => [h] + FindAll(f, n, h.end)
      case None => FindAll(f, n, p + 1)
  }

  /** No match is skipped before the first one; in particular an empty result means
      there is no match at all. */
  lemma {:induction false} FindAllFirst<V>(f: nat -> Option<Hit<V>>, n: nat, p: nat)
    requires IsMatcher(f, n) && p <= n
    ensures var r := FindAll(f, n, p); NoMatchIn(f, p, if r == [] then n else r[0].start)
    decreases n - p
  {
    if p < n && f(p).None? {
      FindAllFirst(f, n, p + 1);
    }
  }

  /** No match is skipped after the last one. */
  lemma {:induction false} FindAllLast<V>(f: nat -> Option<Hit<V>>, n: nat, p: nat)
    requires IsMatcher(f, n) && p <= n && FindAll(f, n, p) != []
    ensures var r := FindAll(f, n, p); NoMatchIn(f, r[|r| - 1].end, n)
    decreases n - p
  {
    if f(p).None? {
      FindAllLast(f, n, p + 1);
    } else {
      var h := f(p).value;
      var rest := FindAll(f, n, h.end);
      if rest != [] {
        FindAllLast(f, n, h.end);
      } else {
        FindAllFirst(f, n, h.end);
      }
    }
  }

  /** No match is skipped between two consecutive ones. */
  lemma {:induction false} FindAllGaps<V>(f: nat -> Option<Hit<V>>, n: nat, p: nat, k: nat)
    requires IsMatcher(f, n) && p <= n && k + 1 < |FindAll(f, n, p)|
    ensures NoMatchIn(f, FindAll(f, n, p)[k].end, FindAll(f, n, p)[k + 1].start)
    decreases n - p
  {
    var r := FindAll(f, n, p);
    if f(p).None? {
      assert r == FindAll(f, n, p + 1);
      FindAllGaps(f, n, p + 1, k);
    } else {
      var h := f(p).value;
      var rest := FindAll(f, n, h.end);
      assert r == [h] + rest;
      if k == 0 {
        FindAllFirst(f, n, h.end);
        assert r[1] == rest[0];
      } else {
        FindAllGaps(f, n, h.end, k - 1);
        assert r[k] == rest[k - 1] && r[k + 1] == rest[k];
      }
    }
  }

  /** Every match from p on is reported or starts inside a reported one, which findall
      resumes after. */
  lemma {:induction false} FindAllCovers<V>(f: nat -> Option<Hit<V>>, n: nat, p: nat, q: nat)
    requires IsMatcher(f, n) && p <= q < n && f(q).Some?
    ensures exists k :: 0 <= k < |FindAll(f, n, p)| && FindAll(f, n, p)[k].start <= q < FindAll(f, n, p)[k].end
    decreases n - p
  {
    var r := FindAll(f, n, p);
    if f(p).None? {
      assert r == FindAll(f, n, p + 1);
      FindAllCovers(f, n, p + 1, q);
    } else {
      var h := f(p).value;
      var rest := FindAll(f, n, h.end);
      assert r == [h] + rest;
      assert h.start == p;
      if q < h.end {
        assert r[0] == h;
      } else {
        FindAllCovers(f, n, h.end, q);
        var k :| 0 <= k < |rest| && rest[k].start <= q < rest[k].end;
        assert r[k + 1] == rest[k];
      }
    }
  }
}
