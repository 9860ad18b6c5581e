/** Python list idioms the source relies on: batching with `range(0, n, size)`
    and slicing with possibly negative bounds. */
module Seqs {
  import opened Common

  /** Concatenation of a list of lists, in order. */
  function Flatten<T>(xss: seq<seq<T>>): seq<T>
  {
    if |xss| == 0 then [] else xss[0] + Flatten(xss[1..])
  }

  /** `[xs[i:i + size] for i in range(0, len(xs), size)]`: consecutive batches that
      partition `xs`, every one full except possibly the last. */
  function Batches<T>(xs: seq<T>, size: int): (r: seq<seq<T>>)
    requires size > 0
    ensures Flatten(r) == xs
    ensures forall j | 0 <= j < |r| :: 0 < |r[j]| <= size
    ensures forall j | 0 <= j < |r| - 1 :: |r[j]| == size
    ensures |xs| == 0 <==> |r| == 0
    decreases |xs|
  {
    if |xs| == 0 then []
    else
      var n := Min(size, |xs|);
      var rest := Batches(xs[n..], size);
      assert ([xs[..n]] + rest)[1..] == rest;
      [xs[..n]] + rest
  }

  /** Python's `xs[k:]`: a negative `k` counts from the end; both are clamped to the list. */
  function SliceFrom<T>(xs: seq<T>, k: int): (r: seq<T>)
    ensures |r| <= |xs| && r == xs[|xs| - |r|..]
    ensures k == 0 ==> r == xs
    ensures k > 0 ==> |r| == Max(0, |xs| - k)
    ensures k < 0 ==> |r| == Min(-k, |xs|)
  {
    var start := if k < 0 then Max(0, |xs| + k) else Min(k, |xs|);
    xs[start..]
  }

  /** No element occurs twice. */
  predicate Distinct<T(==)>(xs: seq<T>)
  {
    forall i, j | 0 <= i < j < |xs| :: xs[i] != xs[j]
  }

  /** Every element is smaller than the ones after it. */
  predicate Increasing(xs: seq<int>)
  {
    forall i, j | 0 <= i < j < |xs| :: xs[i] < xs[j]
  }

  /** The same property checked one element at a time, as a scan that compares each
      element with the ones after it. */
  predicate NoRepeats<T(==)>(xs: seq<T>)
    decreases |xs|
  {
    |xs| == 0 || (xs[0] !in xs[1..] && NoRepeats(xs[1..]))
  }

  /** The scan accepts exactly the lists without repeats. */
  lemma {:induction false} NoRepeatsIffDistinct<T>(xs: seq<T>)
    ensures NoRepeats(xs) <==> Distinct(xs)
    decreases |xs|
  {
    if |xs| > 0 {
      NoRepeatsIffDistinct(xs[1..]);
      assert [xs[0]] + xs[1..] == xs;
      DistinctConsIff(xs[0], xs[1..]);
    }
  }

  /** A list with a head is free of repeats exactly when its tail is and does not hold
      the head. */
  lemma DistinctConsIff<T>(x: T, xs: seq<T>)
    ensures Distinct([x] + xs) <==> x !in xs && Distinct(xs)
  {
    if x !in xs && Distinct(xs) {
      DistinctCons(x, xs);
    }
    if Distinct([x] + xs) {
      DistinctTail([x] + xs);
      assert ([x] + xs)[1..] == xs;
    }
  }

  /** Putting an absent element in front keeps a list free of repeats. */
  lemma DistinctCons<T>(x: T, xs: seq<T>)
    requires Distinct(xs) && x !in xs
    ensures Distinct([x] + xs)
  {
    var ys := [x] + xs;
    forall i, j | 0 <= i < j < |ys| ensures ys[i] != ys[j] {
      assert ys[j] == xs[j - 1];
      if i > 0 {
        assert ys[i] == xs[i - 1];
      }
    }
  }

  /** The tail of a list without repeats has none either, and lacks the head. */
  lemma DistinctTail<T>(xs: seq<T>)
    requires |xs| > 0 && Distinct(xs)
    ensures Distinct(xs[1..]) && xs[0] !in xs[1..]
  {
    forall k | 0 <= k < |xs| - 1 ensures xs[1..][k] != xs[0] {
      assert xs[1..][k] == xs[k + 1];
    }
  }

  /** Joining two lists without repeats and without a common element gives a list
      without repeats. */
  lemma DistinctConcat<T>(a: seq<T>, b: seq<T>)
    requires Distinct(a) && Distinct(b)
    requires forall i, j | 0 <= i < |a| && 0 <= j < |b| :: a[i] != b[j]
    ensures Distinct(a + b)
  {
    var c := a + b;
    forall i, j | 0 <= i < j < |c| ensures c[i] != c[j] {
      if j < |a| {
        assert c[i] == a[i] && c[j] == a[j];
      } else if i >= |a| {
        assert c[i] == b[i - |a|] && c[j] == b[j - |a|];
      } else {
        assert c[i] == a[i] && c[j] == b[j - |a|];
      }
    }
  }
}
