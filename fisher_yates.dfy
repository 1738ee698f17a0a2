/** The Fisher–Yates shuffle of getRandomTestimonials, with the calls to
    `Math.random` replaced by a supplied sequence of draws. */
module FisherYates {

  /** The draws one shuffle of a list of length `n` consumes: one value in
      [0, 1) per iteration of the loop, `n - 1` of them, in call order. */
  predicate ValidDraws(randoms: seq<real>, n: nat)
  {
    |randoms| >= n - 1 && forall k :: 0 <= k < |randoms| ==> 0.0 <= randoms[k] < 1.0
  }

  /** `Math.floor(r * (i + 1))`: the swap partner chosen for index `i`. */
  function DrawIndex(r: real, i: nat): (j: int)
    requires 0.0 <= r < 1.0
    ensures 0 <= j <= i
  {
    var n := (i + 1) as real;
    ScaleBounds(r, n);
    (r * n).Floor
  }

  /** A fraction in [0, 1) of a positive `n` lies in [0, n). */
  lemma ScaleBounds(r: real, n: real)
    requires 0.0 <= r < 1.0 && 0.0 < n
    ensures 0.0 <= r * n < n
  {
    assert n - r * n == (1.0 - r) * n;
  }

  /** `[s[i], s[j]] = [s[j], s[i]]`. */
  function Swap<T>(s: seq<T>, i: nat, j: nat): (r: seq<T>)
    requires i < |s| && j < |s|
    ensures |r| == |s|
    ensures r[i] == s[j] && r[j] == s[i]
    ensures forall k :: 0 <= k < |s| && k != i && k != j ==> r[k] == s[k]
  {
    seq(|s|, k requires 0 <= k < |s| => if k == i then s[j] else if k == j then s[i] else s[k])
  }

  /** Swap is the two sequential writes of the destructuring assignment. */
  lemma SwapIsTwoWrites<T>(s: seq<T>, i: nat, j: nat)
    requires i < |s| && j < |s|
    ensures Swap(s, i, j) == s[i := s[j]][j := s[i]]
  {
  }

  /** Exchanging two entries keeps the multiset of entries. */
  lemma SwapIsPermutation<T>(s: seq<T>, i: nat, j: nat)
    requires i < |s| && j < |s|
    ensures multiset(Swap(s, i, j)) == multiset(s)
  {
    SwapIsTwoWrites(s, i, j);
  }

  /** Swap partners for a list of length `n`, in loop order: the k-th
      iteration handles index `n - 1 - k` and swaps it with `js[k]`. */
  predicate ValidChoices(js: seq<int>, n: nat)
  {
    |js| >= n - 1 && forall k :: 0 <= k < n - 1 ==> 0 <= js[k] <= n - 1 - k
  }

  /** The swap partners the draws select. */
  function Choices(randoms: seq<real>, n: nat): (js: seq<int>)
    requires ValidDraws(randoms, n)
    ensures ValidChoices(js, n)
  {
    seq(if n == 0 then 0 else n - 1, k requires 0 <= k < n - 1 => DrawIndex(randoms[k], n - 1 - k))
  }

  /** The list after the first `m` iterations of the loop
      `for (let i = n - 1; i > 0; i--)`, where iteration `k` swaps index
      `n - 1 - k` with `js[k]`. */
  function ShuffleSteps<T>(s: seq<T>, js: seq<int>, m: nat): (r: seq<T>)
    requires m < |s| || m == 0
    requires ValidChoices(js, |s|)
    ensures |r| == |s|
  {
    if m == 0 then s
    else Swap(ShuffleSteps(s, js, m - 1), |s| - m, js[m - 1])
  }

  /** The whole loop: `n - 1` iterations, none for an empty list. */
  function Shuffle<T>(s: seq<T>, js: seq<int>): (r: seq<T>)
    requires ValidChoices(js, |s|)
    ensures |r| == |s|
  {
    ShuffleSteps(s, js, if |s| == 0 then 0 else |s| - 1)
  }

  /** Every iteration only swaps, so any number of them permutes the list. */
  lemma {:induction false} ShuffleStepsIsPermutation<T>(s: seq<T>, js: seq<int>, m: nat)
    requires m < |s| || m == 0
    requires ValidChoices(js, |s|)
    ensures multiset(ShuffleSteps(s, js, m)) == multiset(s)
  {
    if m > 0 {
      var before := ShuffleSteps(s, js, m - 1);
      var after := Swap(before, |s| - m, js[m - 1]);
      assert ShuffleSteps(s, js, m) == after;
      ShuffleStepsIsPermutation(s, js, m - 1);
      SwapIsPermutation(before, |s| - m, js[m - 1]);
      assert multiset(after) == multiset(before);
    }
  }

  /** The shuffle is a permutation of its input, whatever the swap partners. */
  lemma ShuffleIsPermutation<T>(s: seq<T>, js: seq<int>)
    requires ValidChoices(js, |s|)
    ensures |Shuffle(s, js)| == |s|
    ensures multiset(Shuffle(s, js)) == multiset(s)
  {
    ShuffleStepsIsPermutation(s, js, if |s| == 0 then 0 else |s| - 1);
  }

  /** No value occurs twice. */
  predicate Distinct<T(==)>(s: seq<T>)
  {
    forall i, j :: 0 <= i < j < |s| ==> s[i] != s[j]
  }

  lemma {:induction false} DistinctOccursAtMostOnce<T>(s: seq<T>, x: T)
    requires Distinct(s)
    ensures multiset(s)[x] <= 1
  {
    if s != [] {
      assert s == [s[0]] + s[1..];
      assert Distinct(s[1..]);
      DistinctOccursAtMostOnce(s[1..], x);
      if s[0] == x {
        assert x !in s[1..];
      }
    }
  }

  /** A permutation of a list without repetitions has none either. */
  lemma PermutationKeepsDistinct<T>(a: seq<T>, b: seq<T>)
    requires multiset(a) == multiset(b) && Distinct(a)
    ensures Distinct(b)
  {
    forall i, j | 0 <= i < j < |b|
      ensures b[i] != b[j]
    {
      if b[i] == b[j] {
        var x := b[i];
        assert b == b[..j] + b[j..];
        assert b[..j][i] == x;
        assert b[j..][0] == x;
        assert multiset(b)[x] == multiset(b[..j])[x] + multiset(b[j..])[x];
        DistinctOccursAtMostOnce(a, x);
        assert false;
      }
    }
  }

  /** A prefix of a permutation of a list without repetitions has no
      repetitions, and each of its entries comes from the list. */
  lemma PrefixOfPermutation<T>(s: seq<T>, p: seq<T>, end: nat)
    requires multiset(p) == multiset(s) && Distinct(s) && end <= |p|
    ensures Distinct(p[..end])
    ensures forall x :: x in p[..end] ==> x in s
  {
    PermutationKeepsDistinct(s, p);
    forall x | x in p[..end]
      ensures x in s
    {
      assert x in multiset(p);
    }
  }

  /** One iteration of the loop, as the array writes perform it. */
  lemma LoopStep<T>(start: seq<T>, js: seq<int>, m: nat, before: seq<T>, i: nat, j: nat)
    requires m + 1 < |start| && ValidChoices(js, |start|)
    requires before == ShuffleSteps(start, js, m)
    requires i == |start| - 1 - m && j == js[m]
    ensures j <= i
    ensures before[i := before[j]][j := before[i]] == ShuffleSteps(start, js, m + 1)
  {
    SwapIsTwoWrites(before, i, j);
  }

  /** The in-place loop of getRandomTestimonials on the array `a`, drawing
      each swap partner from the next value of `randoms`. */
  method ShuffleInPlace<T>(a: array<T>, randoms: seq<real>)
    requires ValidDraws(randoms, a.Length)
    modifies a
    ensures a[..] == Shuffle(old(a[..]), Choices(randoms, a.Length))
  {
    ghost var js := Choices(randoms, a.Length);
    ghost var start := a[..];
    var i := a.Length - 1;
    while i > 0
      invariant -1 <= i < a.Length == |start|
      invariant a.Length > 0 ==> 0 <= i
      invariant a[..] == ShuffleSteps(start, js, a.Length - 1 - i)
    {
      var j := DrawIndex(randoms[a.Length - 1 - i], i);
      assert j == js[a.Length - 1 - i];
      LoopStep(start, js, a.Length - 1 - i, a[..], i, j);
      a[i], a[j] := a[j], a[i];
      i := i - 1;
    }
  }
}
