/** What the operator `build_hamiltonian` returns is worth on a basis state.
    Z = diag(1, -1), so a Pauli-Z string acts on |x⟩ as the product of
    1 - 2x_k over its 'Z' positions (ZEig). Label position k and bit-string
    position k name the same qubit, because Qiskit reads both right to left.
    So the term list is a function of those eigenvalues, and when no
    coefficient is dropped by the 1e-10 threshold it is the Ising energy of
    h and J without its offset. Those h and J were derived for s = 2x - 1,
    the opposite sign, so on |x⟩ the operator is worth H of the complement
    of x: its ground state is the complement of the minimiser of H.
    CorrectedTerms negates the fields, which puts the ground state back on
    the minimiser. */
module Operator {
  import opened Vectors
  import opened Qubo
  import opened Hamiltonian
  import opened Ising

  /** z_k when label position k holds 'Z', 1 otherwise. */
  function Factor(l: string, z: seq<real>, k: nat): real
    requires k < |l|
  {
    if k < |z| && l[k] == 'Z' then z[k] else 1.0
  }

  /** Π_{k<m} Factor(l, z, k): the diagonal value of the first m positions
      of the Pauli string l on the spins z. */
  function LabelValue(l: string, z: seq<real>, m: nat): real
    requires m <= |l|
  {
    if m == 0 then 1.0 else LabelValue(l, z, m - 1) * Factor(l, z, m - 1)
  }

  /** The coefficient of a term times its label's value. */
  function TermValue(t: Term, z: seq<real>): real {
    t.1 * LabelValue(t.0, z, |t.0|)
  }

  /** Σ_{a<k} TermValue(ts[a]): the first k terms of a list. */
  function TermsValueTo(ts: seq<Term>, z: seq<real>, k: nat): real
    requires k <= |ts|
  {
    if k == 0 then 0.0 else TermsValueTo(ts, z, k - 1) + TermValue(ts[k - 1], z)
  }

  /** The value of a whole term list. */
  function TermsValue(ts: seq<Term>, z: seq<real>): real {
    TermsValueTo(ts, z, |ts|)
  }

  /** Σ_{i<j<m} J_ij s_i s_j: the couplings of row i. */
  function RowCoupling(q: seq<seq<real>>, n: nat, z: seq<real>, i: nat, m: nat): real
    requires Square(q, n) && |z| == n && i < n && m <= n
  {
    if m <= i + 1 then 0.0
    else RowCoupling(q, n, z, i, m - 1) + JCoef(q, n, i, m - 1) * z[i] * z[m - 1]
  }

  /** Σ_{i<k} Σ_{i<j<m} J_ij s_i s_j: the couplings of rows below k. */
  function RowsCoupling(q: seq<seq<real>>, n: nat, z: seq<real>, k: nat, m: nat): real
    requires Square(q, n) && |z| == n && k <= n && m <= n
  {
    if k == 0 then 0.0 else RowsCoupling(q, n, z, k - 1, m) + RowCoupling(q, n, z, k - 1, m)
  }

  /** No coefficient is dropped by the threshold. */
  predicate AllSurvive(q: seq<seq<real>>, n: nat)
    requires Square(q, n)
  {
    && (forall i :: 0 <= i < n ==> SingleSurvives(q, n, i))
    && (forall i, j :: 0 <= i < j < n ==> PairSurvives(q, n, i, j))
  }

  // ---------------------------------------------------------------------
  // labels

  /** A label with a single 'Z', at i, is worth z_i (1 over a prefix before i). */
  lemma {:induction false} OneZValue(l: string, z: seq<real>, i: nat, m: nat)
    requires |l| <= |z| && i < |l| && m <= |l|
    requires forall k :: 0 <= k < |l| ==> (l[k] == 'Z' <==> k == i)
    ensures LabelValue(l, z, m) == if i < m then z[i] else 1.0
  {
    if m > 0 {
      OneZValue(l, z, i, m - 1);
    }
  }

  /** A label with 'Z' exactly at i < j is worth z_i z_j. */
  lemma {:induction false} TwoZValue(l: string, z: seq<real>, i: nat, j: nat, m: nat)
    requires |l| <= |z| && i < j < |l| && m <= |l|
    requires forall k :: 0 <= k < |l| ==> (l[k] == 'Z' <==> k == i || k == j)
    ensures LabelValue(l, z, m) == (if i < m then z[i] else 1.0) * (if j < m then z[j] else 1.0)
  {
    if m > 0 {
      TwoZValue(l, z, i, j, m - 1);
    }
  }

  /** The single label of qubit i is worth s_i. */
  lemma {:induction false} SingleLabelValue(n: nat, i: nat, z: seq<real>)
    requires i < n && |z| == n
    ensures LabelValue(SingleLabel(n, i), z, n) == z[i]
  {
    SingleLabelShape(n, i);
    OneZValue(SingleLabel(n, i), z, i, n);
  }

  /** The pair label of (i, j) is worth s_i s_j. */
  lemma {:induction false} PairLabelValue(n: nat, i: nat, j: nat, z: seq<real>)
    requires i < j < n && |z| == n
    ensures LabelValue(PairLabel(n, i, j), z, n) == z[i] * z[j]
  {
    TwoZValue(PairLabel(n, i, j), z, i, j, n);
  }

  // ---------------------------------------------------------------------
  // term lists

  /** A prefix of b behind a is worth a's value plus that prefix's. */
  lemma {:induction false} TermsValueToConcat(a: seq<Term>, b: seq<Term>, z: seq<real>, k: nat)
    requires k <= |b|
    ensures TermsValueTo(a + b, z, |a| + k) == TermsValue(a, z) + TermsValueTo(b, z, k)
  {
    if k > 0 {
      TermsValueToConcat(a, b, z, k - 1);
      assert (a + b)[|a| + k - 1] == b[k - 1];
    } else {
      TermsValueToPrefix(a, b, z, |a|);
    }
  }

  /** The first k terms of a + b, k <= |a|, are those of a. */
  lemma {:induction false} TermsValueToPrefix(a: seq<Term>, b: seq<Term>, z: seq<real>, k: nat)
    requires k <= |a|
    ensures TermsValueTo(a + b, z, k) == TermsValueTo(a, z, k)
  {
    if k > 0 {
      TermsValueToPrefix(a, b, z, k - 1);
      assert (a + b)[k - 1] == a[k - 1];
    }
  }

  /** The value of a concatenation is the sum of the values. */
  lemma {:induction false} TermsValueConcat(a: seq<Term>, b: seq<Term>, z: seq<real>)
    ensures TermsValue(a + b, z) == TermsValue(a, z) + TermsValue(b, z)
  {
    TermsValueToConcat(a, b, z, |b|);
  }

  /** Appending one term adds its value. */
  lemma {:induction false} TermsValueAppend(ts: seq<Term>, t: Term, z: seq<real>)
    ensures TermsValue(ts + [t], z) == TermsValue(ts, z) + TermValue(t, z)
  {
    TermsValueToPrefix(ts, [t], z, |ts|);
  }

  /** Appending qubit i's single term adds h_i s_i. */
  lemma {:induction false} SingleAppendValue(ts: seq<Term>, q: seq<seq<real>>, n: nat, z: seq<real>, i: nat)
    requires Square(q, n) && |z| == n && i < n
    ensures TermsValue(ts + [(SingleLabel(n, i), Field(q, n, i))], z) == TermsValue(ts, z) + Field(q, n, i) * z[i]
  {
    SingleLabelShape(n, i);
    SingleLabelValue(n, i, z);
    TermsValueAppend(ts, (SingleLabel(n, i), Field(q, n, i)), z);
  }

  /** Appending the pair term of (i, j) adds J_ij s_i s_j. */
  lemma {:induction false} PairAppendValue(ts: seq<Term>, q: seq<seq<real>>, n: nat, z: seq<real>, i: nat, j: nat)
    requires Square(q, n) && |z| == n && i < j < n
    ensures TermsValue(ts + [(PairLabel(n, i, j), JCoef(q, n, i, j))], z) == TermsValue(ts, z) + JCoef(q, n, i, j) * z[i] * z[j]
  {
    PairLabelValue(n, i, j, z);
    TermsValueAppend(ts, (PairLabel(n, i, j), JCoef(q, n, i, j)), z);
  }

  /** With nothing dropped, qubit k - 1 appends its term to the single terms. */
  lemma {:induction false} SingleTermsGrow(q: seq<seq<real>>, n: nat, k: nat)
    requires Square(q, n) && 0 < k <= n && AllSurvive(q, n)
    ensures SingleTerms(q, n, k) == SingleTerms(q, n, k - 1) + [(SingleLabel(n, k - 1), Field(q, n, k - 1))]
  {
    assert SingleSurvives(q, n, k - 1);
  }

  /** With nothing dropped, the pair (i, m - 1) appends its term to row i. */
  lemma {:induction false} RowTermsGrow(q: seq<seq<real>>, n: nat, i: nat, m: nat)
    requires Square(q, n) && i + 1 < m <= n && AllSurvive(q, n)
    ensures RowTerms(q, n, i, m) == RowTerms(q, n, i, m - 1) + [(PairLabel(n, i, m - 1), JCoef(q, n, i, m - 1))]
  {
    assert PairSurvives(q, n, i, m - 1);
  }

  /** With nothing dropped, qubit k - 1 adds h_{k-1} s_{k-1} to the single terms' value. */
  lemma {:induction false} SingleValueStep(q: seq<seq<real>>, n: nat, z: seq<real>, k: nat)
    requires Square(q, n) && |z| == n && 0 < k <= n && AllSurvive(q, n)
    ensures TermsValue(SingleTerms(q, n, k), z) == TermsValue(SingleTerms(q, n, k - 1), z) + Field(q, n, k - 1) * z[k - 1]
  {
    SingleTermsGrow(q, n, k);
    SingleAppendValue(SingleTerms(q, n, k - 1), q, n, z, k - 1);
  }

  /** With nothing dropped, column m - 1 adds J_{i,m-1} s_i s_{m-1} to row i's value. */
  lemma {:induction false} RowValueStep(q: seq<seq<real>>, n: nat, z: seq<real>, i: nat, m: nat)
    requires Square(q, n) && |z| == n && i + 1 < m <= n && AllSurvive(q, n)
    ensures TermsValue(RowTerms(q, n, i, m), z) == TermsValue(RowTerms(q, n, i, m - 1), z) + JCoef(q, n, i, m - 1) * z[i] * z[m - 1]
  {
    RowTermsGrow(q, n, i, m);
    PairAppendValue(RowTerms(q, n, i, m - 1), q, n, z, i, m - 1);
  }

  /** One qubit more adds h_k s_k to Σ h_i s_i. */
  lemma {:induction false} FieldsDotStep(q: seq<seq<real>>, n: nat, z: seq<real>, k: nat)
    requires Square(q, n) && |z| == n && 0 < k <= n
    ensures RDot(Fields(q, n), z, k) == RDot(Fields(q, n), z, k - 1) + Field(q, n, k - 1) * z[k - 1]
  {
  }

  /** The single terms of qubits below k are worth Σ_{i<k} h_i s_i. */
  lemma {:induction false} SingleTermsValue(q: seq<seq<real>>, n: nat, z: seq<real>, k: nat)
    requires Square(q, n) && |z| == n && k <= n && AllSurvive(q, n)
    ensures TermsValue(SingleTerms(q, n, k), z) == RDot(Fields(q, n), z, k)
  {
    if k > 0 {
      SingleTermsValue(q, n, z, k - 1);
      SingleValueStep(q, n, z, k);
      FieldsDotStep(q, n, z, k);
    }
  }

  /** The pair terms of row i below column m are worth Σ_{i<j<m} J_ij s_i s_j. */
  lemma {:induction false} RowTermsValue(q: seq<seq<real>>, n: nat, z: seq<real>, i: nat, m: nat)
    requires Square(q, n) && |z| == n && i < n && m <= n && AllSurvive(q, n)
    ensures TermsValue(RowTerms(q, n, i, m), z) == RowCoupling(q, n, z, i, m)
  {
    if m > i + 1 {
      RowTermsValue(q, n, z, i, m - 1);
      RowValueStep(q, n, z, i, m);
    }
  }

  /** If the pair terms of rows below k - 1 are worth their couplings, so
      are the pair terms of rows below k. */
  lemma {:induction false} PairValueStep(q: seq<seq<real>>, n: nat, z: seq<real>, k: nat)
    requires Square(q, n) && |z| == n && 0 < k <= n && AllSurvive(q, n)
    requires TermsValue(PairTerms(q, n, k - 1), z) == RowsCoupling(q, n, z, k - 1, n)
    ensures TermsValue(PairTerms(q, n, k), z) == RowsCoupling(q, n, z, k, n)
  {
    RowTermsValue(q, n, z, k - 1, n);
    TermsValueConcat(PairTerms(q, n, k - 1), RowTerms(q, n, k - 1, n), z);
  }

  /** The pair terms of rows below k are worth their rows' couplings. */
  lemma {:induction false} PairTermsValue(q: seq<seq<real>>, n: nat, z: seq<real>, k: nat)
    requires Square(q, n) && |z| == n && k <= n && AllSurvive(q, n)
    ensures TermsValue(PairTerms(q, n, k), z) == RowsCoupling(q, n, z, k, n)
  {
    if k > 0 {
      PairTermsValue(q, n, z, k - 1);
      PairValueStep(q, n, z, k);
    }
  }

  // ---------------------------------------------------------------------
  // rows against columns

  /** One column more adds column m's couplings with the rows below k. */
  lemma {:induction false} RowsCouplingColumn(q: seq<seq<real>>, n: nat, z: seq<real>, k: nat, m: nat)
    requires Square(q, n) && |z| == n && k <= m < n
    ensures RowsCoupling(q, n, z, k, m + 1) == RowsCoupling(q, n, z, k, m) + CouplingColumn(q, n, z, m, k)
  {
    if k > 0 {
      RowsCouplingColumn(q, n, z, k - 1, m);
    }
  }

  /** Summing the upper triangle row by row or column by column agrees. */
  lemma {:induction false} RowsAreColumns(q: seq<seq<real>>, n: nat, z: seq<real>, m: nat)
    requires Square(q, n) && |z| == n && m <= n
    ensures RowsCoupling(q, n, z, m, m) == CouplingSpin(q, n, z, m)
  {
    if m > 0 {
      RowsAreColumns(q, n, z, m - 1);
      RowsCouplingColumn(q, n, z, m - 1, m - 1);
    }
  }

  // ---------------------------------------------------------------------
  // the operator

  /** With no coefficient dropped, the operator is worth Σ h_i s_i +
      Σ_{i<j} J_ij s_i s_j on every spin assignment: the Ising energy less
      its offset. */
  lemma {:induction false} OperatorIsIsingEnergy(q: seq<seq<real>>, n: nat, z: seq<real>)
    requires Square(q, n) && |z| == n && n >= 1 && AllSurvive(q, n)
    ensures TermsValue(Terms(q, n), z) == IsingEnergy(q, n, z) - IsingOffset(q, n)
  {
    assert SingleSurvives(q, n, 0);
    SingleTermsSpec(q, n, n);
    assert (SingleLabel(n, 0), Field(q, n, 0)) in SingleTerms(q, n, n);
    assert Terms(q, n) == SingleTerms(q, n, n) + PairTerms(q, n, n);
    TermsValueConcat(SingleTerms(q, n, n), PairTerms(q, n, n), z);
    SingleTermsValue(q, n, z, n);
    PairTermsValue(q, n, z, n);
    RowsAreColumns(q, n, z, n);
  }

  /** For a problem whose coefficients all survive, the operator at the
      spin vector s = 2x - 1 of a 0/1 string x is H(x) - P less the Ising
      offset. That vector holds the Z eigenvalues of the complement |¬x⟩,
      not of |x⟩. */
  lemma {:induction false} OperatorMatchesEnergy(p: Problem, x: seq<int>)
    requires Valid(p) && |x| == p.n && IsBinary(x) && AllSurvive(p.q, p.n)
    ensures TermsValue(Terms(p.q, p.n), Spins(x)) == Energy(p, x) - p.penalty - IsingOffset(p.q, p.n)
  {
    OperatorIsIsingEnergy(p.q, p.n, Spins(x));
    SpinIdentity(p, x);
  }

  /** On the basis state |x⟩ of a 0/1 string, with nothing dropped, the
      operator is worth H(¬x) - P less the Ising offset: the energy of the
      complement of x. */
  lemma {:induction false} OperatorOnBasisState(p: Problem, x: seq<int>)
    requires Valid(p) && |x| == p.n && IsBinary(x) && AllSurvive(p.q, p.n)
    ensures TermsValue(Terms(p.q, p.n), ZEig(x)) == Energy(p, Flip(x)) - p.penalty - IsingOffset(p.q, p.n)
  {
    ZEigIsFlippedSpins(x);
    OperatorMatchesEnergy(p, Flip(x));
  }

  /** For two targets, the operator is lower on the one-hot state of target
      0 exactly when target 1 is the cheaper one: its lower one-hot state is
      the costlier target. */
  lemma {:induction false} OperatorPrefersCostlierPair(p: Problem)
    requires Valid(p) && p.n == 2 && AllSurvive(p.q, p.n)
    ensures TermsValue(Terms(p.q, p.n), ZEig([1, 0])) < TermsValue(Terms(p.q, p.n), ZEig([0, 1]))
            <==> Cost(p, 1) < Cost(p, 0)
  {
    OperatorOnBasisState(p, [1, 0]);
    OperatorOnBasisState(p, [0, 1]);
    assert Flip([1, 0]) == OneHotSeq(2, 1);
    assert Flip([0, 1]) == OneHotSeq(2, 0);
    OneHotEnergy(p, 1);
    OneHotEnergy(p, 0);
  }

  // ---------------------------------------------------------------------
  // the corrected operator

  /** The same terms with every coefficient negated. */
  function Negated(ts: seq<Term>): (r: seq<Term>)
    ensures |r| == |ts| && forall a :: 0 <= a < |ts| ==> r[a] == (ts[a].0, -ts[a].1)
  {
    seq(|ts|, a requires 0 <= a < |ts| => (ts[a].0, -ts[a].1))
  }

  /** `build_hamiltonian` with the sign of the fields matched to Z = 1 - 2x:
      the single terms carry -h_i, the pair terms J_ij as before. */
  function CorrectedTerms(q: seq<seq<real>>, n: nat): seq<Term>
    requires Square(q, n)
  {
    var terms := Negated(SingleTerms(q, n, n)) + PairTerms(q, n, n);
    if terms == [] then [(Repeat('I', n), CodeConstant(q, n))] else terms
  }

  lemma {:induction false} NegatedValueTo(ts: seq<Term>, z: seq<real>, k: nat)
    requires k <= |ts|
    ensures TermsValueTo(Negated(ts), z, k) == -TermsValueTo(ts, z, k)
  {
    if k > 0 {
      NegatedValueTo(ts, z, k - 1);
      var t := ts[k - 1];
      assert Negated(ts)[k - 1] == (t.0, -t.1);
      assert TermValue((t.0, -t.1), z) == -TermValue(t, z);
    }
  }

  /** Negating every coefficient negates the value. */
  lemma {:induction false} NegatedValue(ts: seq<Term>, z: seq<real>)
    ensures TermsValue(Negated(ts), z) == -TermsValue(ts, z)
  {
    NegatedValueTo(ts, z, |ts|);
  }

  /** Σ w_i z_i = -Σ w_i s_i when z = -s. */
  lemma {:induction false} RDotOpposite(w: seq<real>, s: seq<real>, z: seq<real>, k: nat)
    requires k <= |w| && k <= |s| && k <= |z|
    requires forall i :: 0 <= i < k ==> z[i] == -s[i]
    ensures RDot(w, z, k) == -RDot(w, s, k)
  {
    if k > 0 {
      RDotOpposite(w, s, z, k - 1);
      assert w[k - 1] * z[k - 1] == -(w[k - 1] * s[k - 1]);
    }
  }

  /** The couplings of row i do not change when every spin is reversed. */
  lemma {:induction false} RowCouplingOpposite(q: seq<seq<real>>, n: nat, s: seq<real>, z: seq<real>, i: nat, m: nat)
    requires Square(q, n) && |s| == n && |z| == n && i < n && m <= n
    requires forall k :: 0 <= k < n ==> z[k] == -s[k]
    ensures RowCoupling(q, n, z, i, m) == RowCoupling(q, n, s, i, m)
  {
    if m > i + 1 {
      RowCouplingOpposite(q, n, s, z, i, m - 1);
      var c := JCoef(q, n, i, m - 1);
      assert z[i] * z[m - 1] == s[i] * s[m - 1];
      assert c * z[i] * z[m - 1] == c * s[i] * s[m - 1];
    }
  }

  /** Nor do the couplings of the rows below k. */
  lemma {:induction false} RowsCouplingOpposite(q: seq<seq<real>>, n: nat, s: seq<real>, z: seq<real>, k: nat)
    requires Square(q, n) && |s| == n && |z| == n && k <= n
    requires forall i :: 0 <= i < n ==> z[i] == -s[i]
    ensures RowsCoupling(q, n, z, k, n) == RowsCoupling(q, n, s, k, n)
  {
    if k > 0 {
      RowsCouplingOpposite(q, n, s, z, k - 1);
      RowCouplingOpposite(q, n, s, z, k - 1, n);
    }
  }

  /** With nothing dropped, the corrected operator on |z⟩ with z = -s is
      worth Σ h_i s_i + Σ_{i<j} J_ij s_i s_j. */
  lemma {:induction false} CorrectedIsIsingEnergy(q: seq<seq<real>>, n: nat, s: seq<real>, z: seq<real>)
    requires Square(q, n) && |s| == n && |z| == n && n >= 1 && AllSurvive(q, n)
    requires forall i :: 0 <= i < n ==> z[i] == -s[i]
    ensures TermsValue(CorrectedTerms(q, n), z) == IsingEnergy(q, n, s) - IsingOffset(q, n)
  {
    var singles, pairs := SingleTerms(q, n, n), PairTerms(q, n, n);
    assert |Negated(singles)| > 0 by {
      assert SingleSurvives(q, n, 0);
      SingleTermsSpec(q, n, n);
      assert (SingleLabel(n, 0), Field(q, n, 0)) in singles;
    }
    assert CorrectedTerms(q, n) == Negated(singles) + pairs;
    TermsValueConcat(Negated(singles), pairs, z);
    NegatedValue(singles, z);
    SingleTermsValue(q, n, z, n);
    RDotOpposite(Fields(q, n), s, z, n);
    PairTermsValue(q, n, z, n);
    RowsCouplingOpposite(q, n, s, z, n);
    RowsAreColumns(q, n, s, n);
  }

  /** With nothing dropped, the corrected operator on the basis state |x⟩
      of a 0/1 string is worth H(x) - P less the Ising offset. */
  lemma {:induction false} CorrectedOnBasisState(p: Problem, x: seq<int>)
    requires Valid(p) && |x| == p.n && IsBinary(x) && AllSurvive(p.q, p.n)
    ensures TermsValue(CorrectedTerms(p.q, p.n), ZEig(x)) == Energy(p, x) - p.penalty - IsingOffset(p.q, p.n)
  {
    CorrectedIsIsingEnergy(p.q, p.n, Spins(x), ZEig(x));
    SpinIdentity(p, x);
  }

  /** So the corrected operator orders the basis states of 0/1 strings as H
      does: its ground states are the minimisers of H. */
  lemma {:induction false} CorrectedOrdersAsEnergy(p: Problem, x: seq<int>, y: seq<int>)
    requires Valid(p) && |x| == p.n && IsBinary(x) && |y| == p.n && IsBinary(y) && AllSurvive(p.q, p.n)
    ensures TermsValue(CorrectedTerms(p.q, p.n), ZEig(x)) <= TermsValue(CorrectedTerms(p.q, p.n), ZEig(y))
            <==> Energy(p, x) <= Energy(p, y)
  {
    CorrectedOnBasisState(p, x);
    CorrectedOnBasisState(p, y);
  }
}
