/** Shared vocabulary of the model: a numeric cell that may be NaN, optional
    values, error results, sums over sequences of reals, and the sorted list
    of distinct dates that pandas produces with `sort_values().unique()` and
    with `groupby`. */
module Common {

  /** A floating-point cell as pandas holds it: a real number, or NaN. */
  datatype Num = Undef | Val(v: real)

  datatype Option<T> = None | Some(value: T)

  /** The exceptions the Python code would raise, as values. */
  datatype Error =
    | IndexError      // positional access into an empty frame or index
    | ZeroDivision    // Python division of two ints by zero
    | AttributeError  // attribute looked up on a value that lacks it
    | KeyError        // merge or lookup on a column that is not there

  datatype Result<T> = Ok(value: T) | Err(error: Error)

  type Date = int
  type Code = string

  /** `x > y` as NumPy evaluates it: a comparison with NaN is false. */
  predicate Gt(x: Num, y: real) { x.Val? && x.v > y }

  predicate Lt(x: Num, y: real) { x.Val? && x.v < y }

  predicate Ge(x: Num, y: real) { x.Val? && x.v >= y }

  predicate Le(x: Num, y: real) { x.Val? && x.v <= y }

  /** Sum of a sequence of reals, left to right. */
  function SeqSum(s: seq<real>): real
  {
    if s == [] then 0.0 else SeqSum(s[..|s| - 1]) + s[|s| - 1]
  }

  lemma {:induction false} SeqSumAppend(s: seq<real>, t: seq<real>)
    ensures SeqSum(s + t) == SeqSum(s) + SeqSum(t)
    decreases |t|
  {
    if t == [] {
      assert s + t == s;
    } else {
      assert (s + t)[..|s + t| - 1] == s + t[..|t| - 1];
      SeqSumAppend(s, t[..|t| - 1]);
    }
  }

  /** A sum of non-negative terms is non-negative; of terms at most 1, at most the length. */
  lemma {:induction false} SeqSumBounds(s: seq<real>, lo: real, hi: real)
    requires forall i :: 0 <= i < |s| ==> lo <= s[i] <= hi
    ensures lo * |s| as real <= SeqSum(s) <= hi * |s| as real
    decreases |s|
  {
    if s != [] {
      SeqSumBounds(s[..|s| - 1], lo, hi);
    }
  }

  function Mean(s: seq<real>): real
    requires |s| > 0
  {
    SeqSum(s) / |s| as real
  }

  /** A mean lies between any bounds of its terms. */
  lemma MeanWithin(s: seq<real>, lo: real, hi: real)
    requires |s| > 0 && forall i :: 0 <= i < |s| ==> lo <= s[i] <= hi
    ensures lo <= Mean(s) <= hi
  {
    SeqSumBounds(s, lo, hi);
    QuotientWithin(SeqSum(s), |s| as real, lo, hi);
  }

  lemma QuotientWithin(x: real, n: real, lo: real, hi: real)
    requires n > 0.0 && lo * n <= x <= hi * n
    ensures lo <= x / n <= hi
  {
  }

  /** The defined cells of a column, in order: what a pandas reduction with
      `skipna` sees. */
  function Present(xs: seq<Num>): (r: seq<real>)
    ensures |r| <= |xs|
  {
    if xs == [] then []
    else Present(xs[..|xs| - 1]) + (if xs[|xs| - 1].Val? then [xs[|xs| - 1].v] else [])
  }

  /** The defined cells are the values of the column that are not NaN. */
  lemma {:induction false} PresentMembers(xs: seq<Num>)
    ensures forall y :: y in Present(xs) <==> Val(y) in xs
    decreases |xs|
  {
    if xs != [] {
      PresentMembers(xs[..|xs| - 1]);
      assert xs == xs[..|xs| - 1] + [xs[|xs| - 1]];
    }
  }

  /** `Series.mean()`: the mean of the defined cells, NaN when there are none. */
  function MeanSkipNa(xs: seq<Num>): Num
  {
    var p := Present(xs);
    if p == [] then Undef else Val(Mean(p))
  }

  predicate StrictlyIncreasing(s: seq<int>)
  {
    forall i, j :: 0 <= i < j < |s| ==> s[i] < s[j]
  }

  /** Inserts x into a strictly increasing sequence unless it is already there. */
  function InsertSorted(s: seq<int>, x: int): (r: seq<int>)
    requires StrictlyIncreasing(s)
    ensures StrictlyIncreasing(r)
    ensures forall y :: y in r <==> y in s || y == x
  {
    if s == [] then [x]
    else if x < s[0] then [x] + s
    else if x == s[0] then s
    else
      var t := InsertSorted(s[1..], x);
      assert forall y :: y in s[1..] ==> s[0] < y;
      assert forall j :: 0 <= j < |t| ==> s[0] < t[j] by {
        forall j | 0 <= j < |t| ensures s[0] < t[j] {
          assert t[j] in t;
        }
      }
      [s[0]] + t
  }

  /** The distinct values of `ds` in increasing order: `Series.sort_values().unique()`,
      and the order in which `groupby` visits its keys. */
  function SortedUnique(ds: seq<int>): (r: seq<int>)
    ensures StrictlyIncreasing(r)
    ensures forall d :: d in r <==> d in ds
    ensures |r| == 0 <==> ds == []
  {
    if ds == [] then [] else InsertSorted(SortedUnique(ds[..|ds| - 1]), ds[|ds| - 1])
  }
}
