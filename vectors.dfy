/** Integer and real vectors as the solvers use them: sums, one-hot vectors,
    numpy's argmin/argmax (first index on ties) and min/max. */
module Vectors {

  /** Sum of the first k entries of x. */
  function SumTo(x: seq<int>, k: nat): int
    requires k <= |x|
  {
    if k == 0 then 0 else SumTo(x, k - 1) + x[k - 1]
  }

  /** np.sum(x). */
  function Sum(x: seq<int>): int {
    SumTo(x, |x|)
  }

  predicate IsBinary(x: seq<int>) {
    forall i :: 0 <= i < |x| ==> x[i] == 0 || x[i] == 1
  }

  predicate NonNegative(x: seq<int>) {
    forall i :: 0 <= i < |x| ==> x[i] >= 0
  }

  /** x has a 1 at index i and 0 everywhere else. */
  predicate IsOneHotAt(x: seq<int>, i: int) {
    0 <= i < |x| && x[i] == 1 && forall j :: 0 <= j < |x| && j != i ==> x[j] == 0
  }

  /** The vector of length n with a single 1 at index i. */
  function OneHotSeq(n: nat, i: nat): (x: seq<int>)
    requires i < n
    ensures |x| == n && IsOneHotAt(x, i) && IsBinary(x)
  {
    seq(n, k => if k == i then 1 else 0)
  }

  lemma {:induction false} OneHotPrefixSum(x: seq<int>, i: nat, k: nat)
    requires IsOneHotAt(x, i) && k <= |x|
    ensures SumTo(x, k) == if i < k then 1 else 0
  {
    if k > 0 {
      OneHotPrefixSum(x, i, k - 1);
    }
  }

  /** A one-hot vector sums to 1. */
  lemma {:induction false} OneHotSum(x: seq<int>, i: nat)
    requires IsOneHotAt(x, i)
    ensures Sum(x) == 1
  {
    OneHotPrefixSum(x, i, |x|);
  }

  lemma {:induction false} NonNegativePrefix(x: seq<int>, k: nat)
    requires NonNegative(x) && k <= |x|
    ensures SumTo(x, k) >= 0
    ensures SumTo(x, k) == 0 ==> forall j :: 0 <= j < k ==> x[j] == 0
    ensures SumTo(x, k) == 1 ==> exists i :: 0 <= i < k && x[i] == 1 && forall j :: 0 <= j < k && j != i ==> x[j] == 0
  {
    if k > 0 {
      NonNegativePrefix(x, k - 1);
      if SumTo(x, k) == 1 && x[k - 1] == 1 {
        assert forall j :: 0 <= j < k && j != k - 1 ==> x[j] == 0;
      }
    }
  }

  /** A vector of non-negative integers that sums to 1 is one-hot
      (this is why `np.sum(x) != 1` is a sufficient feasibility test). */
  lemma {:induction false} SumOneIsOneHot(x: seq<int>)
    requires NonNegative(x) && Sum(x) == 1
    ensures exists i :: IsOneHotAt(x, i)
  {
    NonNegativePrefix(x, |x|);
    var i :| 0 <= i < |x| && x[i] == 1 && forall j :: 0 <= j < |x| && j != i ==> x[j] == 0;
    assert IsOneHotAt(x, i);
  }

  /** np.argmin: the first index holding the minimum. */
  function FirstArgMin(s: seq<real>): (r: nat)
    requires |s| > 0
    ensures r < |s|
    ensures forall j :: 0 <= j < |s| ==> s[r] <= s[j]
    ensures forall j :: 0 <= j < r ==> s[r] < s[j]
  {
    if |s| == 1 then 0
    else
      var k := FirstArgMin(s[..|s| - 1]);
      if s[|s| - 1] < s[k] then |s| - 1 else k
  }

  /** np.argmax: the first index holding the maximum. */
  function FirstArgMax(s: seq<real>): (r: nat)
    requires |s| > 0
    ensures r < |s|
    ensures forall j :: 0 <= j < |s| ==> s[j] <= s[r]
    ensures forall j :: 0 <= j < r ==> s[j] < s[r]
  {
    if |s| == 1 then 0
    else
      var k := FirstArgMax(s[..|s| - 1]);
      if s[|s| - 1] > s[k] then |s| - 1 else k
  }

  /** arr.min() */
  function SeqMin(s: seq<real>): (m: real)
    requires |s| > 0
    ensures m in s && forall j :: 0 <= j < |s| ==> m <= s[j]
  {
    s[FirstArgMin(s)]
  }

  /** arr.max() */
  function SeqMax(s: seq<real>): (m: real)
    requires |s| > 0
    ensures m in s && forall j :: 0 <= j < |s| ==> s[j] <= m
  {
    s[FirstArgMax(s)]
  }

  /** `x = np.zeros(n, dtype=int); x[i] = 1`: the vector is built in place. */
  method MakeOneHot(n: nat, i: nat) returns (x: seq<int>)
    requires i < n
    ensures |x| == n && IsOneHotAt(x, i)
    ensures x == OneHotSeq(n, i)
  {
    var a := new int[n](_ => 0);
    a[i] := 1;
    x := a[..];
  }
}
