/** Option and Result wrappers, and the exceptions the extraction pipeline raises. */
module Results {

  datatype Option<+T> = None | Some(value: T)

  /** One constructor per raise site of the pipeline: ValueError, except TagNotString (the
      AttributeError of calling strip() on a non-string tag) and UnhashableDeckName (the
      TypeError of adding a list or a mapping to a set). */
  datatype Error =
    | MissingGuid        // "No guid found in note meta block" / "... chunk"
    | InvalidNoteType    // function-style classifier: no pattern matched
    | NoNoteType         // class-style classifier: no catalog entry matched
    | AmbiguousNoteType  // class-style classifier: more than one catalog entry matched
    | FieldExtraction    // the chosen pattern did not match exactly once
    | TagNotString       // a frontmatter tag list holds an item that is not a string
    | UnhashableDeckName // a frontmatter deck name is a list or a mapping (TypeError)

  datatype Result<+T> = Ok(value: T) | Err(error: Error) {
    predicate IsFailure() { Err? }

    function PropagateFailure<U>(): Result<U>
      requires Err?
    {
      Err(error)
    }

    function Extract(): T
      requires Ok?
    {
      value
    }
  }

  /** The results of f over xs, in order, as a loop that appends each result and raises at
      the first failure would produce them. */
  function Collect<T, U>(f: T -> Result<U>, xs: seq<T>): Result<seq<U>> {
    if xs == [] then Ok([])
    else
      match Collect(f, xs[..|xs| - 1])
      case Err(e) => Err(e)
      case Ok(ys) =>
        match f(xs[|xs| - 1])
        case Err(e) => Err(e)
        case Ok(y) => Ok(ys + [y])
  }

  /** One result per element, in order, when f succeeds everywhere; otherwise the error of
      the first element on which f fails. */
  lemma {:induction false} CollectSpec<T, U>(f: T -> Result<U>, xs: seq<T>)
    ensures var r := Collect(f, xs);
      && (r.Ok? <==> forall i :: 0 <= i < |xs| ==> f(xs[i]).Ok?)
      && (r.Ok? ==> |r.value| == |xs| && forall i :: 0 <= i < |xs| ==> r.value[i] == f(xs[i]).value)
      && (r.Err? ==> exists i :: 0 <= i < |xs| && f(xs[i]) == Err(r.error)
                                 && forall j :: 0 <= j < i ==> f(xs[j]).Ok?)
  {
    if xs != [] {
      var p := xs[..|xs| - 1];
      CollectSpec(f, p);
      assert forall i :: 0 <= i < |p| ==> p[i] == xs[i];
    }
  }

  /** A failing prefix decides the error of the whole sequence. */
  lemma {:induction false} CollectErrPrefix<T, U>(f: T -> Result<U>, xs: seq<T>, n: nat)
    requires n <= |xs| && Collect(f, xs[..n]).Err?
    ensures Collect(f, xs) == Collect(f, xs[..n])
    decreases |xs| - n
  {
    if n < |xs| {
      assert xs[..n + 1][..n] == xs[..n];
      CollectErrPrefix(f, xs, n + 1);
    } else {
      assert xs[..n] == xs;
    }
  }

  /** The concatenated results of f over xs, in order, as a loop that extends a list with
      each result and raises at the first failure would produce them. */
  function Gather<T, U>(f: T -> Result<seq<U>>, xs: seq<T>): Result<seq<U>> {
    if xs == [] then Ok([])
    else
      match Gather(f, xs[..|xs| - 1])
      case Err(e) => Err(e)
      case Ok(ys) =>
        match f(xs[|xs| - 1])
        case Err(e) => Err(e)
        case Ok(more) => Ok(ys + more)
  }

  lemma {:induction false} GatherErrPrefix<T, U>(f: T -> Result<seq<U>>, xs: seq<T>, n: nat)
    requires n <= |xs| && Gather(f, xs[..n]).Err?
    ensures Gather(f, xs) == Gather(f, xs[..n])
    decreases |xs| - n
  {
    if n < |xs| {
      assert xs[..n + 1][..n] == xs[..n];
      GatherErrPrefix(f, xs, n + 1);
    } else {
      assert xs[..n] == xs;
    }
  }

  /** Gathering over two runs gives the results of the first run followed by those of the
      second, and fails exactly when one of the runs does. */
  lemma {:induction false} GatherAppend<T, U>(f: T -> Result<seq<U>>, a: seq<T>, b: seq<T>)
    ensures Gather(f, a + b).Ok? <==> Gather(f, a).Ok? && Gather(f, b).Ok?
    ensures Gather(f, a + b).Ok? ==> Gather(f, a + b).value == Gather(f, a).value + Gather(f, b).value
  {
    if b == [] {
      assert a + b == a;
    } else {
      var q := b[..|b| - 1];
      assert (a + b)[..|a + b| - 1] == a + q;
      GatherAppend(f, a, q);
      var ra, rq, rl := Gather(f, a), Gather(f, q), f(b[|b| - 1]);
      if ra.Ok? && rq.Ok? && rl.Ok? {
        assert ra.value + rq.value + rl.value == ra.value + (rq.value + rl.value);
      }
    }
  }
}
