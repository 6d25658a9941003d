/** Shared vocabulary: the Python exceptions the core can raise, result
    wrappers, and sums and concatenations over sequences. */
module Common {

  /** A class label: an artist, genre or style name. */
  type Class = string

  /** The exceptions of the modelled Python code that end an operation. */
  datatype Error =
    | AssertionError     // a failed `assert`
    | IndexError         // an index outside an array
    | ValueError         // `min` of an empty collection, a reshape of the wrong size
    | ZeroDivisionError  // `x / 0` on Python numbers

  /** The outcome of an operation that may raise. */
  datatype Result<T> = Ok(value: T) | Err(error: Error)

  datatype Option<T> = None | Some(value: T)

  /** The sum of a sequence of reals (`np.sum`, `sum`). */
  function Sum(s: seq<real>): real
  {
    if |s| == 0 then 0.0 else Sum(s[..|s| - 1]) + s[|s| - 1]
  }

  lemma {:induction false} SumAppend(a: seq<real>, b: seq<real>)
    ensures Sum(a + b) == Sum(a) + Sum(b)
  {
    if |b| == 0 {
      assert a + b == a;
    } else {
      assert (a + b)[..|a + b| - 1] == a + b[..|b| - 1];
      SumAppend(a, b[..|b| - 1]);
    }
  }

  /** The second components of a sequence of pairs, in order: the values of
      an ordered dict given as its items, or the counts of `np.unique`. */
  function Seconds<A, B>(pairs: seq<(A, B)>): (s: seq<B>)
    ensures |s| == |pairs| && forall k :: 0 <= k < |pairs| ==> s[k] == pairs[k].1
  {
    seq(|pairs|, k requires 0 <= k < |pairs| => pairs[k].1)
  }

  /** The concatenation of a sequence of sequences (`itertools.chain.from_iterable`). */
  function Concat<T>(s: seq<seq<T>>): seq<T>
  {
    if |s| == 0 then [] else Concat(s[..|s| - 1]) + s[|s| - 1]
  }

  lemma {:induction false} ConcatAppend<T>(a: seq<seq<T>>, b: seq<seq<T>>)
    ensures Concat(a + b) == Concat(a) + Concat(b)
  {
    if |b| == 0 {
      assert a + b == a;
    } else {
      assert (a + b)[..|a + b| - 1] == a + b[..|b| - 1];
      ConcatAppend(a, b[..|b| - 1]);
    }
  }

  /** Extending a prefix by one element extends the concatenation by that element. */
  lemma ConcatPrefix<T>(s: seq<seq<T>>, k: nat)
    requires k < |s|
    ensures Concat(s[..k + 1]) == Concat(s[..k]) + s[k]
  {
    assert s[..k + 1][..k] == s[..k];
  }
}
