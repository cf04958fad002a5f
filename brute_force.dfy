/** `BruteForceSolver.solve` of quantum_aegis/solvers/classical/brute_force.py:
    the exhaustive search of the problem, tagged "brute_force". */
module BruteForce {
  import opened Vectors
  import opened Bits
  import opened Qubo
  import opened SolverResult

  /** `solve`: the pair returned by `get_optimal_solution`, in a dictionary
      with the method tag. */
  method Solve(p: Problem) returns (s: Solution)
    requires Valid(p)
    ensures s.methodName == "brute_force"
    ensures |s.bitstring| == p.n && IsBinary(s.bitstring) && s.energy == Energy(p, s.bitstring)
    ensures forall y :: |y| == p.n && IsBinary(y) ==> s.energy <= Energy(p, y)
    ensures exists idx :: IsFirstMinimiser(p, idx) && s.bitstring == BitsOf(idx, p.n)
  {
    var x, e := OptimalSolution(p);
    s := Solution(x, e, "brute_force");
  }

  /** With non-negative weights and a penalty larger than α + β, every
      minimiser over the 0/1 vectors of length N (in particular the one
      `solve` returns) selects exactly one target. */
  lemma {:induction false} PenaltyForcesOneHot(p: Problem, x: seq<int>)
    requires Valid(p) && p.alpha >= 0.0 && p.beta >= 0.0 && p.penalty > p.alpha + p.beta
    requires |x| == p.n && IsBinary(x)
    requires forall y :: |y| == p.n && IsBinary(y) ==> Energy(p, x) <= Energy(p, y)
    ensures exists i :: IsOneHotAt(x, i)
  {
    if Sum(x) != 1 {
      NotOneHotCostsMore(p, x);
      assert false;
    }
    SumOneIsOneHot(x);
  }

  /** A 0/1 vector whose sum is not 1 has energy at least P, more than the
      energy of selecting target 0 alone. */
  lemma {:induction false} NotOneHotCostsMore(p: Problem, x: seq<int>)
    requires Valid(p) && p.alpha >= 0.0 && p.beta >= 0.0 && p.penalty > p.alpha + p.beta
    requires |x| == p.n && IsBinary(x) && Sum(x) != 1
    ensures Energy(p, x) > Energy(p, OneHotSeq(p.n, 0))
  {
    CostsNonNegative(p);
    DotNonNegative(Costs(p), x, p.n);
    NonNegativePrefix(x, p.n);
    PenaltyAwayFromOne(p.penalty, Sum(x));
    CostAtMostWeights(p, 0);
    OneHotEnergy(p, 0);
  }

  /** 0 <= αR_i + βD_i <= α + β for normalised costs and non-negative weights. */
  lemma {:induction false} CostAtMostWeights(p: Problem, i: nat)
    requires Shaped(p) && InUnit(p.r) && InUnit(p.d) && i < p.n && p.alpha >= 0.0 && p.beta >= 0.0
    ensures 0.0 <= Cost(p, i) <= p.alpha + p.beta
  {
    var u := WeightedUnit(p.alpha, p.r[i]);
    var v := WeightedUnit(p.beta, p.d[i]);
    assert Cost(p, i) == u + v;
  }

  lemma {:induction false} WeightedUnit(w: real, v: real) returns (wv: real)
    requires w >= 0.0 && 0.0 <= v <= 1.0
    ensures wv == w * v && 0.0 <= wv <= w
  {
    wv := w * v;
    assert w * v <= w * 1.0;
  }

  lemma {:induction false} CostsNonNegative(p: Problem)
    requires Valid(p) && p.alpha >= 0.0 && p.beta >= 0.0
    ensures forall i :: 0 <= i < p.n ==> Costs(p)[i] >= 0.0
  {
    forall i | 0 <= i < p.n ensures Costs(p)[i] >= 0.0 {
      CostAtMostWeights(p, i);
    }
  }

  lemma {:induction false} DotNonNegative(c: seq<real>, x: seq<int>, k: nat)
    requires k <= |c| && k <= |x| && IsBinary(x)
    requires forall i :: 0 <= i < |c| ==> c[i] >= 0.0
    ensures Dot(c, x, k) >= 0.0
  {
    if k > 0 {
      DotNonNegative(c, x, k - 1);
      DotBinaryStep(c, x, k);
    }
  }

  /** P(s - 1)² >= P whenever s ones is not exactly one. */
  lemma {:induction false} PenaltyAwayFromOne(pen: real, s: int)
    requires pen >= 0.0 && s >= 0 && s != 1
    ensures Penalty(pen, s) >= pen
  {
    var u := PenaltyValue(pen, s);
    assert u * u >= 1.0;
    assert pen * (u * u) >= pen * 1.0;
  }

  /** Tie-breaking of the search: bits are most significant first, so the
      one-hot vector of a later target is a smaller integer. When two one-hot
      vectors i < j tie, the search never returns the one at i (unlike
      `np.argmin` in the greedy solver, which keeps the lower index). */
  lemma {:induction false} TiedOneHotsKeepHigherIndex(p: Problem, idx: nat, i: nat, j: nat)
    requires Shaped(p) && p.n >= 1 && IsFirstMinimiser(p, idx)
    requires i < j < p.n && Energy(p, OneHotSeq(p.n, i)) == Energy(p, OneHotSeq(p.n, j))
    ensures BitsOf(idx, p.n) != OneHotSeq(p.n, i)
  {
    var n := p.n;
    var xi, xj := OneHotSeq(n, i), OneHotSeq(n, j);
    if BitsOf(idx, n) == xi {
      BitsOfRoundTrip(idx, n);
      ValueRoundTrip(xj);
      OneHotValue(n, i);
      OneHotValue(n, j);
      Pow2Increasing(n - 1 - j, n - 1 - i);
      EarlierIndexCostsMore(p, idx, Value(xj));
      assert false;
    }
  }

  lemma {:induction false} EarlierIndexCostsMore(p: Problem, idx: nat, k: nat)
    requires Shaped(p) && p.n >= 1 && IsFirstMinimiser(p, idx) && k < idx
    ensures EnergyOfIndex(p, idx) < EnergyOfIndex(p, k)
  {
  }

  /** The one-hot vector at i, read most significant bit first, is 2^(n-1-i). */
  lemma {:induction false} OneHotValue(n: nat, i: nat)
    requires i < n
    ensures Value(OneHotSeq(n, i)) == Pow2(n - 1 - i)
  {
    var x := OneHotSeq(n, i);
    var front := x[..n - 1];
    if i == n - 1 {
      assert front == Zeros(n - 1);
      ZerosValue(n - 1);
    } else {
      assert front == OneHotSeq(n - 1, i);
      OneHotValue(n - 1, i);
    }
  }

  lemma {:induction false} Pow2Increasing(a: nat, b: nat)
    requires a < b
    ensures Pow2(a) < Pow2(b)
    decreases b
  {
    if a < b - 1 {
      Pow2Increasing(a, b - 1);
    }
  }
}
