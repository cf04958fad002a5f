/** The QUBO problem of quantum_aegis/problem/qubo.py: normalised costs, the
    coefficient matrix Q, the objective H(x) = Σ(αR_i+βD_i)x_i + P(Σx_i-1)²
    and the exhaustive search over all 2^N bit strings. */
module Qubo {
  import opened Wrappers
  import opened Vectors
  import opened Bits

  /** The ValueErrors the constructor and `evaluate` raise. */
  datatype Error =
    | ShapeMismatch  // the cost arrays, or a bit string and N, differ in length
    | EmptyCosts     // N = 0: numpy's max() of an empty array raises

  /** A QUBOProblem; its fields are set once, in the constructor. */
  datatype Problem = Problem(
    n: nat,
    r: seq<real>,      // normalised risk costs
    d: seq<real>,      // normalised distance costs
    alpha: real,
    beta: real,
    penalty: real,
    q: seq<seq<real>>  // the N×N coefficient matrix
  )

  /** The constructor's default weights. */
  const DefaultAlpha: real := 1.0
  const DefaultBeta: real := 1.0
  const DefaultPenalty: real := 10.0

  predicate Shaped(p: Problem) {
    |p.r| == p.n && |p.d| == p.n
  }

  predicate InUnit(s: seq<real>) {
    forall i :: 0 <= i < |s| ==> 0.0 <= s[i] <= 1.0
  }

  predicate Square(q: seq<seq<real>>, n: nat) {
    |q| == n && forall i :: 0 <= i < n ==> |q[i]| == n
  }

  /** αR_i + βD_i */
  function Cost(p: Problem, i: nat): real
    requires Shaped(p) && i < p.n
  {
    p.alpha * p.r[i] + p.beta * p.d[i]
  }

  /** `alpha * R + beta * D` */
  function Costs(p: Problem): (c: seq<real>)
    requires Shaped(p)
    ensures |c| == p.n && forall i :: 0 <= i < p.n ==> c[i] == Cost(p, i)
  {
    seq(p.n, i requires 0 <= i < p.n => Cost(p, i))
  }

  /** The closed form of Q: αR_i+βD_i-P on the diagonal, 2P elsewhere. */
  function QEntry(p: Problem, i: nat, j: nat): real
    requires Shaped(p) && i < p.n && j < p.n
  {
    if i == j then Cost(p, i) - p.penalty else 2.0 * p.penalty
  }

  /** What the constructor establishes and every later use relies on. */
  predicate Valid(p: Problem) {
    && p.n >= 1
    && Shaped(p)
    && InUnit(p.r) && InUnit(p.d)
    && Square(p.q, p.n)
    && forall i, j :: 0 <= i < p.n && 0 <= j < p.n ==> p.q[i][j] == QEntry(p, i, j)
  }

  // ---------------------------------------------------------------------
  // _normalize

  /** `_normalize`: min-max scaling, or 1/len everywhere when max == min. */
  function Normalize(a: seq<real>): (r: seq<real>)
    requires |a| > 0
    ensures |r| == |a|
  {
    var lo, hi := SeqMin(a), SeqMax(a);
    assert lo <= a[0] <= hi;
    if hi == lo then seq(|a|, _ => 1.0 / (|a| as real))
    else seq(|a|, i requires 0 <= i < |a| => Scale(a[i], lo, hi))
  }

  predicate AllEqual(a: seq<real>) {
    forall i, j :: 0 <= i < |a| && 0 <= j < |a| ==> a[i] == a[j]
  }

  /** An all-equal array becomes the uniform 1/len array (no division by zero). */
  lemma {:induction false} NormalizeUniform(a: seq<real>)
    requires |a| > 0 && AllEqual(a)
    ensures forall i :: 0 <= i < |a| ==> Normalize(a)[i] == 1.0 / (|a| as real)
  {
    var lo, hi := SeqMin(a), SeqMax(a);
    assert hi == lo by {
      var k :| 0 <= k < |a| && a[k] == lo;
      var m :| 0 <= m < |a| && a[m] == hi;
    }
  }

  /** Otherwise the minimum maps to 0, the maximum to 1, and the order of
      the entries is kept in both directions. */
  lemma {:induction false} NormalizeScales(a: seq<real>)
    requires |a| > 0 && !AllEqual(a)
    ensures var r := Normalize(a);
      && (forall i :: 0 <= i < |a| && a[i] == SeqMin(a) ==> r[i] == 0.0)
      && (forall i :: 0 <= i < |a| && a[i] == SeqMax(a) ==> r[i] == 1.0)
      && (forall i, j :: 0 <= i < |a| && 0 <= j < |a| ==> (a[i] <= a[j] <==> r[i] <= r[j]))
  {
    var lo, hi := SeqMin(a), SeqMax(a);
    assert hi != lo by {
      var i, j :| 0 <= i < |a| && 0 <= j < |a| && a[i] != a[j];
    }
    var r := Normalize(a);
    assert forall i :: 0 <= i < |a| ==> r[i] == Scale(a[i], lo, hi);
    forall i, j | 0 <= i < |a| && 0 <= j < |a|
      ensures a[i] <= a[j] <==> r[i] <= r[j]
    {
      ScaleMonotone(a[i], a[j], lo, hi);
    }
    forall i | 0 <= i < |a| && a[i] == hi ensures r[i] == 1.0 {
      ScaleEnds(lo, hi);
    }
    forall i | 0 <= i < |a| && a[i] == lo ensures r[i] == 0.0 {
      ScaleEnds(lo, hi);
    }
  }

  /** (v - lo) / (hi - lo) */
  function Scale(v: real, lo: real, hi: real): real
    requires lo < hi
  {
    (v - lo) / (hi - lo)
  }

  lemma {:induction false} ScaleEnds(lo: real, hi: real)
    requires lo < hi
    ensures Scale(lo, lo, hi) == 0.0 && Scale(hi, lo, hi) == 1.0
  {
    SelfDivision(hi - lo);
  }

  lemma {:induction false} SelfDivision(w: real)
    requires w > 0.0
    ensures w / w == 1.0
  {
  }

  lemma {:induction false} ScaleMonotone(x: real, y: real, lo: real, hi: real)
    requires lo < hi
    ensures x <= y <==> Scale(x, lo, hi) <= Scale(y, lo, hi)
  {
    var w := hi - lo;
    var sx, sy := Scale(x, lo, hi), Scale(y, lo, hi);
    assert x - lo == sx * w && y - lo == sy * w;
    if sx <= sy {
      MulMonotone(sx, sy, w);
    } else {
      MulMonotone(sy, sx, w);
    }
  }

  lemma {:induction false} MulMonotone(u: real, v: real, w: real)
    requires u <= v && w > 0.0
    ensures u * w <= v * w && (u < v ==> u * w < v * w)
  {
  }

  lemma {:induction false} ReciprocalInUnit(k: nat)
    requires k >= 1
    ensures 0.0 < 1.0 / (k as real) <= 1.0
  {
  }

  /** Every normalised entry lies in [0, 1]. */
  lemma {:induction false} NormalizeInUnit(a: seq<real>)
    requires |a| > 0
    ensures InUnit(Normalize(a))
  {
    var lo, hi := SeqMin(a), SeqMax(a);
    var r := Normalize(a);
    if hi != lo {
      assert lo < hi by {
        assert a[0] >= lo && a[0] <= hi;
      }
      forall i | 0 <= i < |a| ensures 0.0 <= r[i] <= 1.0 {
        assert r[i] == Scale(a[i], lo, hi);
        ScaleMonotone(lo, a[i], lo, hi);
        ScaleMonotone(a[i], hi, lo, hi);
        ScaleEnds(lo, hi);
      }
    } else {
      ReciprocalInUnit(|a|);
    }
  }

  // ---------------------------------------------------------------------
  // _build_qubo_matrix and __init__

  /** Q[a, b] after the diagonal pass and the off-diagonal pass has written
      rows 0..i-1 completely and row i up to column j-1 (and their mirrors). */
  ghost function PartialQ(p: Problem, a: nat, b: nat, i: nat, j: nat): real
    requires Shaped(p) && a < p.n && b < p.n
  {
    if a == b then QEntry(p, a, a)
    else if (a < b && (a < i || (a == i && b < j))) || (b < a && (b < i || (b == i && a < j)))
    then 2.0 * p.penalty
    else 0.0
  }

  /** `_build_qubo_matrix`: fills a zero matrix in place, first the diagonal,
      then each pair i < j in both mirror positions. It reads every field of
      the problem except q, which the constructor sets from its result. */
  method BuildQuboMatrix(p: Problem) returns (q: seq<seq<real>>)
    requires Shaped(p)
    ensures Square(q, p.n)
    ensures forall i, j :: 0 <= i < p.n && 0 <= j < p.n ==> q[i][j] == QEntry(p, i, j)
    ensures forall i, j :: 0 <= i < p.n && 0 <= j < p.n ==> q[i][j] == q[j][i]
  {
    var n := p.n;
    var m := new real[n, n]((_, _) => 0.0);
    for i := 0 to n
      invariant forall a, b :: 0 <= a < n && 0 <= b < n ==>
        m[a, b] == (if a == b && a < i then QEntry(p, a, a) else 0.0)
    {
      m[i, i] := p.alpha * p.r[i] + p.beta * p.d[i] - p.penalty;
    }
    for i := 0 to n
      invariant forall a, b :: 0 <= a < n && 0 <= b < n ==> m[a, b] == PartialQ(p, a, b, i, i + 1)
    {
      for j := i + 1 to n
        invariant forall a, b :: 0 <= a < n && 0 <= b < n ==> m[a, b] == PartialQ(p, a, b, i, j)
      {
        m[i, j] := 2.0 * p.penalty;
        m[j, i] := 2.0 * p.penalty;
      }
    }
    q := seq(n, a requires 0 <= a < n reads m => seq(n, b requires 0 <= b < n reads m => m[a, b]));
  }

  /** `QUBOProblem(risk_costs, distance_costs, alpha, beta, penalty)`. */
  method Create(risk: seq<real>, distance: seq<real>,
                alpha: real := DefaultAlpha, beta: real := DefaultBeta, penalty: real := DefaultPenalty)
    returns (res: Result<Problem, Error>)
    ensures res == Err(ShapeMismatch) <==> |distance| != |risk|
    ensures res == Err(EmptyCosts) <==> |distance| == |risk| == 0
    ensures res.Ok? ==> var p := res.value;
      && Valid(p) && p.n == |risk|
      && p.r == Normalize(risk) && p.d == Normalize(distance)
      && p.alpha == alpha && p.beta == beta && p.penalty == penalty
  {
    var n := |risk|;
    if |distance| != n {
      return Err(ShapeMismatch);
    }
    if n == 0 {
      return Err(EmptyCosts);
    }
    var r := Normalize(risk);
    var d := Normalize(distance);
    NormalizeInUnit(risk);
    NormalizeInUnit(distance);
    var p := Problem(n, r, d, alpha, beta, penalty, []);
    var q := BuildQuboMatrix(p);
    WithMatrix(p, q);
    res := Ok(p.(q := q));
  }

  lemma {:induction false} WithMatrix(p: Problem, q: seq<seq<real>>)
    requires p.n >= 1 && Shaped(p) && InUnit(p.r) && InUnit(p.d) && Square(q, p.n)
    requires forall i, j :: 0 <= i < p.n && 0 <= j < p.n ==> q[i][j] == QEntry(p, i, j)
    ensures Valid(p.(q := q))
  {
    var p' := p.(q := q);
    assert forall i, j :: 0 <= i < p.n && 0 <= j < p.n ==> QEntry(p', i, j) == QEntry(p, i, j);
  }

  /** Building twice from the same inputs gives the same Q: the matrix of a
      valid problem is fixed by its costs, weights and penalty. */
  lemma {:induction false} QDetermined(p1: Problem, p2: Problem)
    requires Valid(p1) && Valid(p2)
    requires p1.(q := []) == p2.(q := [])
    ensures p1.q == p2.q
  {
    forall i | 0 <= i < p1.n ensures p1.q[i] == p2.q[i] {
      assert forall j :: 0 <= j < p1.n ==> p1.q[i][j] == p2.q[i][j];
    }
  }

  /** Q_ii = c_i - P and Q_ij = 2P for i ≠ j: the constructor's shape for an
      arbitrary cost vector c. */
  predicate QForm(q: seq<seq<real>>, n: nat, c: seq<real>, pen: real) {
    && Square(q, n) && |c| == n
    && forall i, j :: 0 <= i < n && 0 <= j < n ==> q[i][j] == if i == j then c[i] - pen else 2.0 * pen
  }

  lemma {:induction false} ValidQForm(p: Problem)
    requires Valid(p)
    ensures QForm(p.q, p.n, Costs(p), p.penalty)
  {
  }

  // ---------------------------------------------------------------------
  // evaluate

  /** Σ_{i<k} c_i x_i */
  function Dot(c: seq<real>, x: seq<int>, k: nat): real
    requires k <= |c| && k <= |x|
  {
    if k == 0 then 0.0 else Dot(c, x, k - 1) + c[k - 1] * (x[k - 1] as real)
  }

  /** P(s - 1)², the one-hot penalty for a bit string with s ones. */
  function Penalty(pen: real, s: int): real {
    var u := (s - 1) as real;
    pen * (u * u)
  }

  lemma {:induction false} PenaltyValue(pen: real, s: int) returns (u: real)
    ensures u == (s - 1) as real && Penalty(pen, s) == pen * (u * u)
  {
    u := (s - 1) as real;
  }

  /** H(x) = Σ(αR_i+βD_i)x_i + P(Σx_i - 1)²; the penalty vanishes on a
      bit string with exactly one 1. */
  function Energy(p: Problem, x: seq<int>): (r: real)
    requires Shaped(p) && |x| == p.n
    ensures Sum(x) == 1 ==> r == Dot(Costs(p), x, p.n)
  {
    Dot(Costs(p), x, p.n) + Penalty(p.penalty, Sum(x))
  }

  /** `evaluate`: raises when the bit string does not have length N. */
  function Evaluate(p: Problem, x: seq<int>): (r: Result<real, Error>)
    requires Shaped(p)
    ensures r.Err? <==> |x| != p.n
    ensures r.Err? ==> r.error == ShapeMismatch
    ensures r.Ok? ==> r.value == Energy(p, x)
  {
    if |x| != p.n then Err(ShapeMismatch) else Ok(Energy(p, x))
  }

  lemma {:induction false} DotOneHot(c: seq<real>, x: seq<int>, i: nat, k: nat)
    requires |c| == |x| && IsOneHotAt(x, i) && k <= |x|
    ensures Dot(c, x, k) == if i < k then c[i] else 0.0
  {
    if k > 0 {
      DotOneHot(c, x, i, k - 1);
    }
  }

  /** For a one-hot x the penalty vanishes and H(x) is the combined cost of
      the chosen item. */
  lemma {:induction false} OneHotEnergy(p: Problem, i: nat)
    requires Shaped(p) && i < p.n
    ensures Energy(p, OneHotSeq(p.n, i)) == Cost(p, i)
  {
    var x := OneHotSeq(p.n, i);
    OneHotSum(x, i);
    DotOneHot(Costs(p), x, i, p.n);
  }

  // ---------------------------------------------------------------------
  // What Q encodes

  /** Σ_{j<m, x_j = 1} Q_ji: the couplings of item i with the chosen items
      before m (for a 0/1 string, x_j x_i Q_ji summed over j < m). */
  function Above(q: seq<seq<real>>, x: seq<int>, i: nat, m: nat): real
    requires Square(q, |x|) && i < |x| && m <= |x|
  {
    if m == 0 then 0.0
    else Above(q, x, i, m - 1) + (if x[m - 1] == 1 then q[m - 1][i] else 0.0)
  }

  /** The QUBO value of a 0/1 string read from the upper triangle of Q:
      Σ_{i<k} Q_ii x_i + Σ_{j<i<k} Q_ji x_j x_i, each pair counted once. */
  function UpperForm(q: seq<seq<real>>, x: seq<int>, k: nat): real
    requires Square(q, |x|) && k <= |x|
  {
    if k == 0 then 0.0
    else UpperForm(q, x, k - 1) + (if x[k - 1] == 1 then q[k - 1][k - 1] + Above(q, x, k - 1, k - 1) else 0.0)
  }

  /** n·v, written as n-fold addition. */
  function Times(n: int, v: real): real {
    if n <= 0 then 0.0 else Times(n - 1, v) + v
  }

  lemma {:induction false} TimesIsProduct(n: int, v: real)
    requires n >= 0
    ensures Times(n, v) == (n as real) * v
  {
    if n > 0 {
      TimesIsProduct(n - 1, v);
    }
  }

  /** The penalty's share of the upper-triangular form over the first k
      items: each chosen item adds its diagonal -P and 2P per chosen item
      before it. */
  function PenaltyShare(pen: real, x: seq<int>, k: nat): real
    requires k <= |x|
  {
    if k == 0 then 0.0
    else PenaltyShare(pen, x, k - 1) + (if x[k - 1] == 1 then Times(SumTo(x, k - 1), 2.0 * pen) - pen else 0.0)
  }

  /** Dot over a 0/1 entry adds the cost or nothing. */
  lemma {:induction false} DotBinaryStep(c: seq<real>, x: seq<int>, k: nat)
    requires 0 < k <= |c| && k <= |x| && (x[k - 1] == 0 || x[k - 1] == 1)
    ensures Dot(c, x, k) == Dot(c, x, k - 1) + (if x[k - 1] == 1 then c[k - 1] else 0.0)
  {
  }

  lemma {:induction false} AboveOfForm(q: seq<seq<real>>, c: seq<real>, pen: real, x: seq<int>, i: nat, m: nat)
    requires QForm(q, |x|, c, pen) && IsBinary(x) && m <= i < |x|
    ensures Above(q, x, i, m) == Times(SumTo(x, m), 2.0 * pen)
  {
    if m > 0 {
      AboveOfForm(q, c, pen, x, i, m - 1);
      if x[m - 1] == 1 {
        assert q[m - 1][i] == 2.0 * pen;
        NonNegativePrefix(x, m - 1);
      }
    }
  }

  /** On a matrix of the constructor's shape the QUBO value of a 0/1 string
      is its cost Σ c_i x_i plus the penalty's share. */
  lemma {:induction false} UpperFormOfForm(q: seq<seq<real>>, c: seq<real>, pen: real, x: seq<int>, k: nat)
    requires QForm(q, |x|, c, pen) && IsBinary(x) && k <= |x|
    ensures UpperForm(q, x, k) == Dot(c, x, k) + PenaltyShare(pen, x, k)
  {
    if k > 0 {
      UpperFormOfForm(q, c, pen, x, k - 1);
      DotBinaryStep(c, x, k);
      if x[k - 1] == 1 {
        AboveOfForm(q, c, pen, x, k - 1, k - 1);
      }
    }
  }

  /** The penalty's share over all chosen items is P(s - 1)² - P, s the
      number of ones. */
  lemma {:induction false} PenaltyShareClosed(pen: real, x: seq<int>, k: nat)
    requires IsBinary(x) && k <= |x|
    ensures PenaltyShare(pen, x, k) == Penalty(pen, SumTo(x, k)) - pen
  {
    if k > 0 {
      PenaltyShareClosed(pen, x, k - 1);
      if x[k - 1] == 1 {
        NonNegativePrefix(x, k - 1);
        PenaltyGrows(pen, SumTo(x, k - 1));
      }
    }
  }

  /** P·s² = P(s - 1)² + 2P·s - P. */
  lemma {:induction false} PenaltyGrows(pen: real, s: int)
    requires s >= 0
    ensures Penalty(pen, s + 1) == Penalty(pen, s) + Times(s, 2.0 * pen) - pen
  {
    TimesIsProduct(s, 2.0 * pen);
    var u := PenaltyValue(pen, s);
    var u' := PenaltyValue(pen, s + 1);
    assert u' * u' == u * u + 2.0 * (s as real) - 1.0;
    assert pen * (u' * u') == pen * (u * u) + (s as real) * (2.0 * pen) - pen;
  }

  /** What Q actually encodes: Σ_i Q_ii x_i + Σ_{i<j} Q_ij x_i x_j = H(x) - P
      for every 0/1 vector. (The full quadratic form xᵀQx counts each pair
      twice, so it is not H(x).) */
  lemma {:induction false} QuboFormIsEnergyLessPenalty(p: Problem, x: seq<int>)
    requires Valid(p) && |x| == p.n && IsBinary(x)
    ensures UpperForm(p.q, x, p.n) == Energy(p, x) - p.penalty
  {
    ValidQForm(p);
    UpperFormOfForm(p.q, Costs(p), p.penalty, x, p.n);
    PenaltyShareClosed(p.penalty, x, p.n);
  }

  /** Σ_{j<m, x_j = 1} Q_ij: row i of Q restricted to the chosen items
      before m. */
  function RowSelected(q: seq<seq<real>>, x: seq<int>, i: nat, m: nat): real
    requires Square(q, |x|) && i < |x| && m <= |x|
  {
    if m == 0 then 0.0
    else RowSelected(q, x, i, m - 1) + (if x[m - 1] == 1 then q[i][m - 1] else 0.0)
  }

  /** The full quadratic form xᵀQx of a 0/1 string over its first k rows:
      Σ_{i<k, x_i = 1} Σ_{j, x_j = 1} Q_ij, every pair i ≠ j met twice. */
  function FullForm(q: seq<seq<real>>, x: seq<int>, k: nat): real
    requires Square(q, |x|) && k <= |x|
  {
    if k == 0 then 0.0
    else FullForm(q, x, k - 1) + (if x[k - 1] == 1 then RowSelected(q, x, k - 1, |x|) else 0.0)
  }

  /** On the constructor's shape, row i meets 2P per chosen item, and its
      own diagonal c_i - P in place of 2P once item i is reached. */
  lemma {:induction false} RowSelectedOfForm(q: seq<seq<real>>, c: seq<real>, pen: real, x: seq<int>, i: nat, m: nat)
    requires QForm(q, |x|, c, pen) && IsBinary(x) && i < |x| && m <= |x|
    ensures RowSelected(q, x, i, m) ==
      Times(SumTo(x, m), 2.0 * pen) + (if i < m && x[i] == 1 then c[i] - pen - 2.0 * pen else 0.0)
  {
    if m > 0 {
      RowSelectedOfForm(q, c, pen, x, i, m - 1);
      NonNegativePrefix(x, m - 1);
      if x[m - 1] == 1 {
        assert q[i][m - 1] == if i == m - 1 then c[i] - pen else 2.0 * pen;
      }
    }
  }

  /** On the constructor's shape every chosen row adds its cost, -P for the
      diagonal and 2P for each other chosen item. */
  lemma {:induction false} FullFormOfForm(q: seq<seq<real>>, c: seq<real>, pen: real, x: seq<int>, k: nat)
    requires QForm(q, |x|, c, pen) && IsBinary(x) && k <= |x|
    ensures FullForm(q, x, k) == Dot(c, x, k) + Times(SumTo(x, k), Times(Sum(x), 2.0 * pen) - 3.0 * pen)
  {
    if k > 0 {
      FullFormOfForm(q, c, pen, x, k - 1);
      DotBinaryStep(c, x, k);
      NonNegativePrefix(x, k - 1);
      if x[k - 1] == 1 {
        RowSelectedOfForm(q, c, pen, x, k - 1, |x|);
      }
    }
  }

  /** xᵀQx is not H(x): it equals H(x) - P + P·s(s - 1) for a 0/1 string with
      s ones, because Q holds 2P on both sides of the diagonal. */
  lemma {:induction false} FullFormCountsPairsTwice(p: Problem, x: seq<int>) returns (s: int)
    requires Valid(p) && |x| == p.n && IsBinary(x)
    ensures s == Sum(x)
    ensures FullForm(p.q, x, p.n) == Energy(p, x) - p.penalty + (s as real) * ((s - 1) as real) * p.penalty
  {
    s := Sum(x);
    var pen := p.penalty;
    ValidQForm(p);
    FullFormOfForm(p.q, Costs(p), pen, x, p.n);
    NonNegativePrefix(x, p.n);
    TimesIsProduct(s, 2.0 * pen);
    var w := (s as real) * (2.0 * pen) - 3.0 * pen;
    TimesIsProduct(s, w);
    var u := PenaltyValue(pen, s);
    var sr := s as real;
    var d := Dot(Costs(p), x, p.n);
    assert SumTo(x, p.n) == s;
    assert Times(s, 2.0 * pen) - 3.0 * pen == w;
    assert Times(s, w) == sr * w;
    assert FullForm(p.q, x, p.n) == d + Times(s, w);
    assert FullForm(p.q, x, p.n) == d + sr * w;
    assert Energy(p, x) == d + pen * (u * u);
    assert u == sr - 1.0 && (s - 1) as real == sr - 1.0;
    assert sr * w == pen * (2.0 * sr * sr - 3.0 * sr);
    assert pen * (u * u) - pen + sr * (sr - 1.0) * pen == pen * (2.0 * sr * sr - 3.0 * sr);
  }

  /** Whenever P ≠ 0, xᵀQx differs from H(x) on every 0/1 string: the
      difference P(s(s - 1) - 1) never vanishes for a whole number s. */
  lemma {:induction false} FullFormNeverEnergy(p: Problem, x: seq<int>)
    requires Valid(p) && |x| == p.n && IsBinary(x) && p.penalty != 0.0
    ensures FullForm(p.q, x, p.n) != Energy(p, x)
  {
    var s := FullFormCountsPairsTwice(p, x);
    NonNegativePrefix(x, p.n);
    var k := s * (s - 1);
    if s >= 2 {
      assert k >= 2 by {
        assert s - 1 >= 1;
        assert s * (s - 1) >= s * 1;
      }
    } else {
      assert k == 0;
    }
    assert (s as real) * ((s - 1) as real) == k as real;
  }

  // ---------------------------------------------------------------------
  // get_optimal_solution

  /** H of `format(k, '0Nb')`, the k-th bit string of the search. */
  function EnergyOfIndex(p: Problem, k: nat): real
    requires Shaped(p) && p.n >= 1 && k < Pow2(p.n)
  {
    BitsOfRoundTrip(k, p.n);
    Energy(p, BitsOf(k, p.n))
  }

  /** idx is where a scan of range(2**N) with a strict `<` ends up: a global
      minimum, and strictly better than every earlier index. */
  ghost predicate IsFirstMinimiser(p: Problem, idx: nat)
    requires Shaped(p) && p.n >= 1
  {
    && idx < Pow2(p.n)
    && (forall k :: 0 <= k < Pow2(p.n) ==> EnergyOfIndex(p, idx) <= EnergyOfIndex(p, k))
    && (forall k :: 0 <= k < idx ==> EnergyOfIndex(p, idx) < EnergyOfIndex(p, k))
  }

  /** At most one index is the first minimiser, so a solver that states it
      returns the first minimiser returns exactly the same bit string. */
  lemma {:induction false} FirstMinimiserUnique(p: Problem, i1: nat, i2: nat)
    requires Shaped(p) && p.n >= 1
    requires IsFirstMinimiser(p, i1) && IsFirstMinimiser(p, i2)
    ensures i1 == i2
  {
    assert EnergyOfIndex(p, i1) <= EnergyOfIndex(p, i2) && EnergyOfIndex(p, i2) <= EnergyOfIndex(p, i1);
  }

  /** One iteration of the search: `format(i, '0Nb')`, parsed digit by
      digit, then `evaluate`. */
  method EvaluateIndex(p: Problem, i: nat) returns (bits: seq<int>, energy: real)
    requires Shaped(p) && p.n >= 1 && i < Pow2(p.n)
    ensures bits == BitsOf(i, p.n) && energy == EnergyOfIndex(p, i)
  {
    FormatParses(i, p.n);
    BitsOfRoundTrip(i, p.n);
    bits := ParseDigits(Format(i, p.n)).value;
    energy := Evaluate(p, bits).value;
  }

  /** `get_optimal_solution`: evaluates every bit string in ascending integer
      order (bits most significant first) and keeps the first strict minimum. */
  method OptimalSolution(p: Problem) returns (x: seq<int>, e: real)
    requires Shaped(p) && p.n >= 1
    ensures |x| == p.n && IsBinary(x) && e == Energy(p, x)
    ensures forall y :: |y| == p.n && IsBinary(y) ==> e <= Energy(p, y)
    ensures exists idx :: IsFirstMinimiser(p, idx) && x == BitsOf(idx, p.n)
  {
    var found := false;  // best_energy = inf
    ghost var bestIdx: nat := 0;
    x, e := [], 0.0;
    var i := 0;
    while i < Pow2(p.n)
      invariant 0 <= i <= Pow2(p.n)
      invariant found <==> i > 0
      invariant found ==> bestIdx < i && x == BitsOf(bestIdx, p.n) && e == EnergyOfIndex(p, bestIdx)
      invariant found ==> forall k :: 0 <= k < i ==> e <= EnergyOfIndex(p, k)
      invariant found ==> forall k :: 0 <= k < bestIdx ==> e < EnergyOfIndex(p, k)
    {
      var bits, energy := EvaluateIndex(p, i);
      if !found || energy < e {
        found, x, e, bestIdx := true, bits, energy, i;
      }
      i := i + 1;
    }
    assert IsFirstMinimiser(p, bestIdx);
    FirstMinimiserIsOptimal(p, bestIdx);
  }

  /** The index search covers every bit string of length N: the first
      minimiser's bit string is a 0/1 vector of length N whose energy is
      below that of every 0/1 vector of length N. */
  lemma {:induction false} FirstMinimiserIsOptimal(p: Problem, idx: nat)
    requires Shaped(p) && p.n >= 1 && IsFirstMinimiser(p, idx)
    ensures |BitsOf(idx, p.n)| == p.n && IsBinary(BitsOf(idx, p.n))
    ensures EnergyOfIndex(p, idx) == Energy(p, BitsOf(idx, p.n))
    ensures forall y :: |y| == p.n && IsBinary(y) ==> EnergyOfIndex(p, idx) <= Energy(p, y)
  {
    BitsOfRoundTrip(idx, p.n);
    forall y | |y| == p.n && IsBinary(y) ensures EnergyOfIndex(p, idx) <= Energy(p, y) {
      ValueRoundTrip(y);
      assert Energy(p, y) == EnergyOfIndex(p, Value(y));
    }
  }
}
