/**
 * numpy's median and mean of a list of numbers, on exact reals: an empty list gives NaN (None), a
 * median is the middle element of the sorted list or the mean of the two middle ones.
 */
module Summary {
  import opened Wire

  predicate Sorted(s: seq<real>)
  {
    forall i, j | 0 <= i < j < |s| :: s[i] <= s[j]
  }

  /** x put into a sorted list before the first element larger than it. */
  function Insert(x: real, s: seq<real>): (r: seq<real>)
    requires Sorted(s)
    ensures Sorted(r) && multiset(r) == multiset(s) + multiset{x}
  {
    if s == [] then [x]
    else if x <= s[0] then [x] + s
    else
      var rest := Insert(x, s[1..]);
      assert s == [s[0]] + s[1..];
      assert forall i | 0 <= i < |rest| :: s[0] <= rest[i] by {
        forall i | 0 <= i < |rest|
          ensures s[0] <= rest[i]
        {
          assert rest[i] in multiset(rest);
        }
      }
      [s[0]] + rest
  }

  /** The list in ascending order. */
  function Sort(xs: seq<real>): (r: seq<real>)
    ensures Sorted(r) && multiset(r) == multiset(xs)
  {
    if xs == [] then []
    else
      assert xs == [xs[0]] + xs[1..];
      Insert(xs[0], Sort(xs[1..]))
  }

  /** Two ascending lists holding the same numbers are the same list. */
  lemma {:induction false} SortedUnique(a: seq<real>, b: seq<real>)
    requires Sorted(a) && Sorted(b) && multiset(a) == multiset(b)
    ensures a == b
    decreases |a|
  {
    if a != [] {
      assert |b| == |multiset(b)| == |a|;
      HeadIsLeast(a, b[0]);
      HeadIsLeast(b, a[0]);
      SameTails(a, b);
      SortedTail(a);
      SortedTail(b);
      SortedUnique(a[1..], b[1..]);
      assert a == [a[0]] + a[1..] && b == [b[0]] + b[1..];
    }
  }

  lemma SortedTail(s: seq<real>)
    requires Sorted(s) && s != []
    ensures Sorted(s[1..])
  {
  }

  /** Lists with the same head and the same numbers have tails with the same numbers. */
  lemma SameTails(a: seq<real>, b: seq<real>)
    requires a != [] && b != [] && a[0] == b[0] && multiset(a) == multiset(b)
    ensures multiset(a[1..]) == multiset(b[1..])
  {
    DropHead(a);
    DropHead(b);
  }

  /** The head of an ascending list is at most anything in it. */
  lemma HeadIsLeast(s: seq<real>, x: real)
    requires Sorted(s) && x in multiset(s)
    ensures s[0] <= x
  {
    var i :| 0 <= i < |s| && s[i] == x;
  }

  lemma DropHead(s: seq<real>)
    requires s != []
    ensures multiset(s[1..]) == multiset(s) - multiset{s[0]}
  {
    assert s == [s[0]] + s[1..];
  }

  function SumOf(xs: seq<real>): real
  {
    if xs == [] then 0.0 else SumOf(xs[..|xs| - 1]) + xs[|xs| - 1]
  }

  /** numpy.mean: the sum over the count, NaN (None) for an empty list. */
  function Mean(xs: seq<real>): (r: Option<real>)
    ensures r.None? <==> xs == []
    ensures r.Some? ==> r.value * (|xs| as real) == SumOf(xs)
  {
    if xs == [] then None else Some(SumOf(xs) / (|xs| as real))
  }

  /** numpy.median: the middle of the sorted list, or the mean of its two middle elements; NaN (None) for an empty list. */
  function Median(xs: seq<real>): (r: Option<real>)
    ensures r.None? <==> xs == []
  {
    if xs == [] then None else Some(Middle(Sort(xs)))
  }

  /** The middle element of a list, or the mean of its two middle elements. */
  function Middle(s: seq<real>): real
    requires s != []
  {
    var n := |s|;
    if n % 2 == 1 then s[n / 2] else (s[n / 2 - 1] + s[n / 2]) / 2.0
  }

  /** The median does not depend on the order of the list. */
  lemma MedianOrderFree(xs: seq<real>, ys: seq<real>)
    requires multiset(xs) == multiset(ys)
    ensures Median(xs) == Median(ys)
  {
    SortedUnique(Sort(xs), Sort(ys));
  }

  /** On a list already in order, the median is its middle element, or the mean of the two middle ones. */
  lemma MedianOfSorted(xs: seq<real>)
    requires Sorted(xs) && |xs| > 0
    ensures Median(xs) == Some(Middle(xs))
  {
    var s := Sort(xs);
    SortedUnique(s, xs);
  }

  /** An odd-length list's median is one of its elements. */
  lemma MedianIsElement(xs: seq<real>)
    requires |xs| % 2 == 1
    ensures Median(xs).value in xs
  {
    MiddleIn(Sort(xs), xs);
  }

  lemma MiddleIn(s: seq<real>, xs: seq<real>)
    requires |s| % 2 == 1 && multiset(s) == multiset(xs)
    ensures Middle(s) in xs
  {
    assert s[|s| / 2] in multiset(s);
  }

  /** Bounds on every element bound the median. */
  lemma MedianBounds(xs: seq<real>, lo: real, hi: real)
    requires xs != [] && forall i | 0 <= i < |xs| :: lo <= xs[i] <= hi
    ensures lo <= Median(xs).value <= hi
  {
    MiddleBounds(Sort(xs), xs, lo, hi);
  }

  lemma MiddleBounds(s: seq<real>, xs: seq<real>, lo: real, hi: real)
    requires s != [] && multiset(s) == multiset(xs) && forall i | 0 <= i < |xs| :: lo <= xs[i] <= hi
    ensures lo <= Middle(s) <= hi
  {
    var n := |s|;
    assert s[n / 2] in multiset(xs);
    if n % 2 == 0 {
      assert s[n / 2 - 1] in multiset(xs);
    }
  }

  /** Bounds on every element bound the sum, count times over. */
  lemma {:induction false} SumBounds(xs: seq<real>, lo: real, hi: real)
    requires forall i | 0 <= i < |xs| :: lo <= xs[i] <= hi
    ensures lo * (|xs| as real) <= SumOf(xs) <= hi * (|xs| as real)
    decreases |xs|
  {
    if xs != [] {
      SumBounds(xs[..|xs| - 1], lo, hi);
    }
  }

  /** Bounds on every element bound the mean. */
  lemma MeanBounds(xs: seq<real>, lo: real, hi: real)
    requires xs != [] && forall i | 0 <= i < |xs| :: lo <= xs[i] <= hi
    ensures lo <= Mean(xs).value <= hi
  {
    SumBounds(xs, lo, hi);
    var n := |xs| as real;
    var m := Mean(xs).value;
    CancelCount(lo, m, n);
    CancelCount(m, hi, n);
  }

  lemma CancelCount(a: real, b: real, n: real)
    requires n > 0.0 && a * n <= b * n
    ensures a <= b
  {
    assert (b - a) * n >= 0.0;
  }

  /** A list of integers as reals, as numpy reads it. */
  function Reals(xs: seq<int>): (r: seq<real>)
    ensures |r| == |xs| && forall i | 0 <= i < |xs| :: r[i] == xs[i] as real
  {
    seq(|xs|, i requires 0 <= i < |xs| => xs[i] as real)
  }
}
