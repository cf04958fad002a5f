/** `build_hamiltonian` of quantum_aegis/problem/qubo.py: the Ising
    coefficients h and J computed from Q, the 1e-10 noise floor, the Pauli
    labels, and the identity term returned when no term survives. The Pauli
    operator is modelled as its list of (label, coefficient) pairs. */
module Hamiltonian {
  import opened Vectors
  import opened Qubo

  type Term = (string, real)

  /** Terms whose magnitude is not above 1e-10 are dropped. */
  const Threshold: real := 0.0000000001

  function Abs(v: real): real {
    if v < 0.0 then -v else v
  }

  /** Σ_{j<m, j≠i} Q_ij / 4, the sum the inner loop adds to h_i. */
  function OffRow(q: seq<seq<real>>, n: nat, i: nat, m: nat): real
    requires Square(q, n) && i < n && m <= n
  {
    if m == 0 then 0.0
    else OffRow(q, n, i, m - 1) + (if m - 1 != i then q[i][m - 1] / 4.0 else 0.0)
  }

  /** h_i = Q_ii/2 + Σ_{j≠i} Q_ij/4 */
  function Field(q: seq<seq<real>>, n: nat, i: nat): real
    requires Square(q, n) && i < n
  {
    q[i][i] / 2.0 + OffRow(q, n, i, n)
  }

  /** J_ij = Q_ij/4 */
  function JCoef(q: seq<seq<real>>, n: nat, i: nat, j: nat): real
    requires Square(q, n) && i < n && j < n
  {
    q[i][j] / 4.0
  }

  function Repeat(c: char, k: nat): (s: string)
    ensures |s| == k && forall j :: 0 <= j < k ==> s[j] == c
  {
    seq(k, _ => c)
  }

  /** 'I' * i + 'Z' + 'I' * (N - i - 1) */
  function SingleLabel(n: nat, i: nat): string
    requires i < n
  {
    Repeat('I', i) + ['Z'] + Repeat('I', n - i - 1)
  }

  /** ['I'] * N with 'Z' written at i and at j. */
  function PairLabel(n: nat, i: nat, j: nat): string
    requires i < j < n
  {
    seq(n, k => if k == i || k == j then 'Z' else 'I')
  }

  /** A single label has length N, 'Z' at i and 'I' everywhere else. */
  lemma {:induction false} SingleLabelShape(n: nat, i: nat)
    requires i < n
    ensures |SingleLabel(n, i)| == n
    ensures forall k :: 0 <= k < n ==> SingleLabel(n, i)[k] == if k == i then 'Z' else 'I'
  {
    var l := SingleLabel(n, i);
    forall k | 0 <= k < n ensures l[k] == if k == i then 'Z' else 'I' {
      if k < i {
        assert l[k] == Repeat('I', i)[k];
      } else if k > i {
        assert l[k] == Repeat('I', n - i - 1)[k - i - 1];
      }
    }
  }

  /** The term h_i Z_i, or nothing when |h_i| <= 1e-10. */
  function SingleAt(q: seq<seq<real>>, n: nat, i: nat): seq<Term>
    requires Square(q, n) && i < n
  {
    if SingleSurvives(q, n, i) then [(SingleLabel(n, i), Field(q, n, i))] else []
  }

  /** The term J_ij Z_i Z_j, or nothing when |J_ij| <= 1e-10. */
  function PairAt(q: seq<seq<real>>, n: nat, i: nat, j: nat): seq<Term>
    requires Square(q, n) && i < j < n
  {
    if PairSurvives(q, n, i, j) then [(PairLabel(n, i, j), JCoef(q, n, i, j))] else []
  }

  /** The single terms for i < k that survive the threshold, in index order. */
  function SingleTerms(q: seq<seq<real>>, n: nat, k: nat): seq<Term>
    requires Square(q, n) && k <= n
  {
    if k == 0 then [] else SingleTerms(q, n, k - 1) + SingleAt(q, n, k - 1)
  }

  /** The surviving pair terms (i, j) of row i with i < j < m, in column order. */
  function RowTerms(q: seq<seq<real>>, n: nat, i: nat, m: nat): seq<Term>
    requires Square(q, n) && i < n && m <= n
  {
    if m <= i + 1 then [] else RowTerms(q, n, i, m - 1) + PairAt(q, n, i, m - 1)
  }

  /** The surviving pair terms of rows 0..k-1, in lexicographic (i, j) order. */
  function PairTerms(q: seq<seq<real>>, n: nat, k: nat): seq<Term>
    requires Square(q, n) && k <= n
  {
    if k == 0 then [] else PairTerms(q, n, k - 1) + RowTerms(q, n, k - 1, n)
  }

  /** Σ_{j<m} Q_ij */
  function RowSum(q: seq<seq<real>>, n: nat, i: nat, m: nat): real
    requires Square(q, n) && i < n && m <= n
  {
    if m == 0 then 0.0 else RowSum(q, n, i, m - 1) + q[i][m - 1]
  }

  /** Σ of all entries of rows 0..k-1 (np.sum(Q) for k = N). */
  function Total(q: seq<seq<real>>, n: nat, k: nat): real
    requires Square(q, n) && k <= n
  {
    if k == 0 then 0.0 else Total(q, n, k - 1) + RowSum(q, n, k - 1, n)
  }

  /** Σ_{i<k} Q_ii */
  function Trace(q: seq<seq<real>>, n: nat, k: nat): real
    requires Square(q, n) && k <= n
  {
    if k == 0 then 0.0 else Trace(q, n, k - 1) + q[k - 1][k - 1]
  }

  /** The code's `constant`: np.sum(Q)/4 + np.sum(np.diag(Q))/4. */
  function CodeConstant(q: seq<seq<real>>, n: nat): real
    requires Square(q, n)
  {
    Total(q, n, n) / 4.0 + Trace(q, n, n) / 4.0
  }

  /** The operator `build_hamiltonian` returns, as its list of terms. */
  function Terms(q: seq<seq<real>>, n: nat): seq<Term>
    requires Square(q, n)
  {
    var terms := SingleTerms(q, n, n) + PairTerms(q, n, n);
    if terms == [] then [(Repeat('I', n), CodeConstant(q, n))] else terms
  }

  /** The first loop of `build_hamiltonian`: h_i = Q_ii/2, then += Q_ij/4 for j ≠ i. */
  method ComputeFields(q: seq<seq<real>>, n: nat) returns (h: array<real>)
    requires Square(q, n)
    ensures fresh(h) && h.Length == n
    ensures forall a :: 0 <= a < n ==> h[a] == Field(q, n, a)
  {
    h := new real[n](_ => 0.0);
    for i := 0 to n
      invariant forall a :: 0 <= a < i ==> h[a] == Field(q, n, a)
    {
      h[i] := q[i][i] / 2.0;
      for j := 0 to n
        invariant forall a :: 0 <= a < i ==> h[a] == Field(q, n, a)
        invariant h[i] == q[i][i] / 2.0 + OffRow(q, n, i, j)
      {
        if j != i {
          h[i] := h[i] + q[i][j] / 4.0;
        }
      }
    }
  }

  /** The second loop: J_ij = Q_ij/4 for i < j. */
  method ComputeCouplings(q: seq<seq<real>>, n: nat) returns (J: array2<real>)
    requires Square(q, n)
    ensures fresh(J) && J.Length0 == n && J.Length1 == n
    ensures forall a, b :: 0 <= a < b < n ==> J[a, b] == JCoef(q, n, a, b)
  {
    J := new real[n, n]((_, _) => 0.0);
    for i := 0 to n
      invariant forall a, b :: 0 <= a < b < n && a < i ==> J[a, b] == JCoef(q, n, a, b)
    {
      for j := i + 1 to n
        invariant forall a, b :: 0 <= a < b < n && (a < i || (a == i && b < j)) ==> J[a, b] == JCoef(q, n, a, b)
      {
        J[i, j] := q[i][j] / 4.0;
      }
    }
  }

  /** `pauli_str = ['I'] * N; pauli_str[i] = 'Z'; pauli_str[j] = 'Z'`. */
  method MakePairLabel(n: nat, i: nat, j: nat) returns (l: string)
    requires i < j < n
    ensures l == PairLabel(n, i, j)
  {
    var chars := new char[n](_ => 'I');
    chars[i] := 'Z';
    chars[j] := 'Z';
    l := chars[..];
  }

  /** The loop appending h_i Z_i for every i whose |h_i| exceeds 1e-10. */
  method CollectSingles(q: seq<seq<real>>, n: nat, h: array<real>) returns (terms: seq<Term>)
    requires Square(q, n) && h.Length == n
    requires forall a :: 0 <= a < n ==> h[a] == Field(q, n, a)
    ensures terms == SingleTerms(q, n, n)
  {
    terms := [];
    for i := 0 to n
      invariant terms == SingleTerms(q, n, i)
    {
      if Abs(h[i]) > Threshold {
        terms := terms + [(SingleLabel(n, i), h[i])];
      }
    }
  }

  /** The inner loop over j > i appending J_ij Z_i Z_j when |J_ij| exceeds 1e-10. */
  method CollectRow(q: seq<seq<real>>, n: nat, J: array2<real>, i: nat, done: seq<Term>) returns (terms: seq<Term>)
    requires Square(q, n) && i < n && J.Length0 == n && J.Length1 == n
    requires forall a, b :: 0 <= a < b < n ==> J[a, b] == JCoef(q, n, a, b)
    ensures terms == done + RowTerms(q, n, i, n)
  {
    terms := done;
    for j := i + 1 to n
      invariant terms == done + RowTerms(q, n, i, j)
    {
      var c := J[i, j];
      RowTermsStep(q, n, i, j, done);
      if Abs(c) > Threshold {
        var l := MakePairLabel(n, i, j);
        terms := terms + [(l, c)];
      }
    }
  }

  /** One column more in row i appends the pair term (i, j) when it survives. */
  lemma {:induction false} RowTermsStep(q: seq<seq<real>>, n: nat, i: nat, j: nat, done: seq<Term>)
    requires Square(q, n) && i < j < n
    ensures PairSurvives(q, n, i, j) ==>
      done + RowTerms(q, n, i, j + 1) == done + RowTerms(q, n, i, j) + [(PairLabel(n, i, j), JCoef(q, n, i, j))]
    ensures !PairSurvives(q, n, i, j) ==> RowTerms(q, n, i, j + 1) == RowTerms(q, n, i, j)
  {
    var r := RowTerms(q, n, i, j);
    if PairSurvives(q, n, i, j) {
      assert done + (r + [(PairLabel(n, i, j), JCoef(q, n, i, j))]) == done + r + [(PairLabel(n, i, j), JCoef(q, n, i, j))];
    }
  }

  /** The outer loop over the rows, appending each row's surviving pairs. */
  method CollectPairs(q: seq<seq<real>>, n: nat, J: array2<real>) returns (terms: seq<Term>)
    requires Square(q, n) && J.Length0 == n && J.Length1 == n
    requires forall a, b :: 0 <= a < b < n ==> J[a, b] == JCoef(q, n, a, b)
    ensures terms == PairTerms(q, n, n)
  {
    terms := [];
    for i := 0 to n
      invariant terms == PairTerms(q, n, i)
    {
      terms := CollectRow(q, n, J, i, terms);
    }
  }

  /** `build_hamiltonian`: fills h and J in loops, then appends the surviving
      single terms and pair terms to the Pauli list; an empty list becomes the
      identity term carrying the code's constant. */
  method BuildHamiltonian(q: seq<seq<real>>, n: nat) returns (terms: seq<Term>)
    requires Square(q, n)
    ensures terms == Terms(q, n)
  {
    var h := ComputeFields(q, n);
    var J := ComputeCouplings(q, n);
    var singles := CollectSingles(q, n, h);
    var pairs := CollectPairs(q, n, J);
    terms := singles + pairs;
    if |terms| == 0 {
      terms := [(Repeat('I', n), CodeConstant(q, n))];
    }
  }

  // ---------------------------------------------------------------------
  // Which terms the operator holds

  /** A single term (h_i Z_i) survives the 1e-10 floor. */
  predicate SingleSurvives(q: seq<seq<real>>, n: nat, i: nat)
    requires Square(q, n) && i < n
  {
    Abs(Field(q, n, i)) > Threshold
  }

  /** A pair term (J_ij Z_i Z_j) survives the 1e-10 floor. */
  predicate PairSurvives(q: seq<seq<real>>, n: nat, i: nat, j: nat)
    requires Square(q, n) && i < j < n
  {
    Abs(JCoef(q, n, i, j)) > Threshold
  }

  /** Every coefficient is within 1e-10 of zero. */
  predicate NoneSurvive(q: seq<seq<real>>, n: nat)
    requires Square(q, n)
  {
    && (forall i :: 0 <= i < n ==> !SingleSurvives(q, n, i))
    && (forall i, j :: 0 <= i < j < n ==> !PairSurvives(q, n, i, j))
  }

  /** The single terms are exactly (label of i, h_i) for the i < k whose
      h_i survives. */
  lemma {:induction false} SingleTermsSpec(q: seq<seq<real>>, n: nat, k: nat)
    requires Square(q, n) && k <= n
    ensures forall t :: t in SingleTerms(q, n, k) <==>
      exists i :: 0 <= i < k && SingleSurvives(q, n, i) && t == (SingleLabel(n, i), Field(q, n, i))
  {
    if k > 0 {
      SingleTermsSpec(q, n, k - 1);
    }
  }

  /** The pair terms of row i below column m are exactly (label of i, j, J_ij)
      for the i < j < m whose J_ij survives. */
  lemma {:induction false} RowTermsSpec(q: seq<seq<real>>, n: nat, i: nat, m: nat)
    requires Square(q, n) && i < n && m <= n
    ensures forall t :: t in RowTerms(q, n, i, m) <==>
      exists j :: i < j < m && PairSurvives(q, n, i, j) && t == (PairLabel(n, i, j), JCoef(q, n, i, j))
  {
    if m > i + 1 {
      RowTermsSpec(q, n, i, m - 1);
    }
  }

  /** The pair terms of rows below k are exactly (label of i, j, J_ij) for
      the i < k, i < j < N whose J_ij survives. */
  lemma {:induction false} PairTermsSpec(q: seq<seq<real>>, n: nat, k: nat)
    requires Square(q, n) && k <= n
    ensures forall t :: t in PairTerms(q, n, k) <==>
      exists i, j :: 0 <= i < k && i < j < n && PairSurvives(q, n, i, j) && t == (PairLabel(n, i, j), JCoef(q, n, i, j))
  {
    if k > 0 {
      PairTermsSpec(q, n, k - 1);
      RowTermsSpec(q, n, k - 1, n);
      var s', r := PairTerms(q, n, k - 1), RowTerms(q, n, k - 1, n);
      assert PairTerms(q, n, k) == s' + r;
      forall t | t in s' + r
        ensures exists i, j :: 0 <= i < k && i < j < n && PairSurvives(q, n, i, j) && t == (PairLabel(n, i, j), JCoef(q, n, i, j))
      {
        if t in r {
          var j :| k - 1 < j < n && PairSurvives(q, n, k - 1, j) && t == (PairLabel(n, k - 1, j), JCoef(q, n, k - 1, j));
          assert 0 <= k - 1 < k;
        } else {
          var i, j :| 0 <= i < k - 1 && i < j < n && PairSurvives(q, n, i, j) && t == (PairLabel(n, i, j), JCoef(q, n, i, j));
          assert 0 <= i < k;
        }
      }
      forall i, j | 0 <= i < k && i < j < n && PairSurvives(q, n, i, j)
        ensures (PairLabel(n, i, j), JCoef(q, n, i, j)) in s' + r
      {
        if i < k - 1 {
          assert (PairLabel(n, i, j), JCoef(q, n, i, j)) in s';
        } else {
          assert (PairLabel(n, i, j), JCoef(q, n, i, j)) in r;
        }
      }
    }
  }

  /** The label of a single term holds a 'Z', the identity label does not. */
  lemma {:induction false} SingleLabelNotIdentity(n: nat, i: nat)
    requires i < n
    ensures SingleLabel(n, i) != Repeat('I', n)
  {
    SingleLabelShape(n, i);
    assert SingleLabel(n, i)[i] != Repeat('I', n)[i];
  }

  /** The label of a pair term holds a 'Z', the identity label does not. */
  lemma {:induction false} PairLabelNotIdentity(n: nat, i: nat, j: nat)
    requires i < j < n
    ensures PairLabel(n, i, j) != Repeat('I', n)
  {
    assert PairLabel(n, i, j)[i] != Repeat('I', n)[i];
  }

  /** The operator is the lone identity term carrying the code's constant
      exactly when no coefficient survives; otherwise it holds exactly the
      surviving single and pair terms. */
  lemma {:induction false} TermsSpec(q: seq<seq<real>>, n: nat)
    requires Square(q, n)
    ensures Terms(q, n) == [(Repeat('I', n), CodeConstant(q, n))] <==> NoneSurvive(q, n)
    ensures !NoneSurvive(q, n) ==> forall t :: t in Terms(q, n) <==>
      || (exists i :: 0 <= i < n && SingleSurvives(q, n, i) && t == (SingleLabel(n, i), Field(q, n, i)))
      || (exists i, j :: 0 <= i < j < n && PairSurvives(q, n, i, j) && t == (PairLabel(n, i, j), JCoef(q, n, i, j)))
  {
    SingleTermsSpec(q, n, n);
    PairTermsSpec(q, n, n);
    var terms := SingleTerms(q, n, n) + PairTerms(q, n, n);
    var id := (Repeat('I', n), CodeConstant(q, n));
    if !NoneSurvive(q, n) {
      if i :| 0 <= i < n && SingleSurvives(q, n, i) {
        assert (SingleLabel(n, i), Field(q, n, i)) in terms;
      } else {
        var i, j :| 0 <= i < j < n && PairSurvives(q, n, i, j);
        assert (PairLabel(n, i, j), JCoef(q, n, i, j)) in terms;
      }
      assert Terms(q, n) == terms;
      if terms == [id] {
        assert id in terms;
        if id in SingleTerms(q, n, n) {
          var i :| 0 <= i < n && SingleSurvives(q, n, i) && id == (SingleLabel(n, i), Field(q, n, i));
          SingleLabelNotIdentity(n, i);
        } else {
          var i, j :| 0 <= i < j < n && PairSurvives(q, n, i, j) && id == (PairLabel(n, i, j), JCoef(q, n, i, j));
          PairLabelNotIdentity(n, i, j);
        }
      }
    } else if terms != [] {
      assert terms[0] in terms;
    }
  }

  // ---------------------------------------------------------------------
  // In which order the operator lists its terms

  /** The position of the first 'Z' of a label (its length when there is none). */
  function FirstZ(l: string): nat {
    if |l| == 0 then 0 else if l[0] == 'Z' then 0 else 1 + FirstZ(l[1..])
  }

  /** The position of the last 'Z' of a label (0 when there is none). */
  function LastZ(l: string): nat {
    if |l| == 0 then 0 else if l[|l| - 1] == 'Z' then |l| - 1 else LastZ(l[..|l| - 1])
  }

  lemma {:induction false} FirstZAt(l: string, i: nat)
    requires i < |l| && l[i] == 'Z' && forall k :: 0 <= k < i ==> l[k] != 'Z'
    ensures FirstZ(l) == i
  {
    if i > 0 {
      FirstZAt(l[1..], i - 1);
    }
  }

  lemma {:induction false} LastZAt(l: string, j: nat)
    requires j < |l| && l[j] == 'Z' && forall k :: j < k < |l| ==> l[k] != 'Z'
    ensures LastZ(l) == j
    decreases |l|
  {
    if j < |l| - 1 {
      LastZAt(l[..|l| - 1], j);
    }
  }

  /** The Z of the single label of qubit i is at i. */
  lemma {:induction false} SingleLabelZ(n: nat, i: nat)
    requires i < n
    ensures FirstZ(SingleLabel(n, i)) == i
  {
    SingleLabelShape(n, i);
    FirstZAt(SingleLabel(n, i), i);
  }

  /** The Zs of the pair label of (i, j) are at i and at j. */
  lemma {:induction false} PairLabelZ(n: nat, i: nat, j: nat)
    requires i < j < n
    ensures FirstZ(PairLabel(n, i, j)) == i && LastZ(PairLabel(n, i, j)) == j
  {
    FirstZAt(PairLabel(n, i, j), i);
    LastZAt(PairLabel(n, i, j), j);
  }

  /** The single terms appear in increasing qubit index, each qubit below k. */
  lemma {:induction false} SingleTermsAscending(q: seq<seq<real>>, n: nat, k: nat)
    requires Square(q, n) && k <= n
    ensures forall a :: 0 <= a < |SingleTerms(q, n, k)| ==> FirstZ(SingleTerms(q, n, k)[a].0) < k
    ensures forall a, b :: 0 <= a < b < |SingleTerms(q, n, k)| ==>
      FirstZ(SingleTerms(q, n, k)[a].0) < FirstZ(SingleTerms(q, n, k)[b].0)
  {
    if k > 0 {
      SingleTermsAscending(q, n, k - 1);
      SingleLabelZ(n, k - 1);
    }
  }

  /** (i1, j1) comes before (i2, j2) in lexicographic order. */
  predicate LexBefore(i1: nat, j1: nat, i2: nat, j2: nat) {
    i1 < i2 || (i1 == i2 && j1 < j2)
  }

  /** Within row i, the pair terms have their first Z at i and their second
      Z in increasing columns below m. */
  lemma {:induction false} RowTermsAscending(q: seq<seq<real>>, n: nat, i: nat, m: nat)
    requires Square(q, n) && i < n && m <= n
    ensures forall a :: 0 <= a < |RowTerms(q, n, i, m)| ==>
      FirstZ(RowTerms(q, n, i, m)[a].0) == i && LastZ(RowTerms(q, n, i, m)[a].0) < m
    ensures forall a, b :: 0 <= a < b < |RowTerms(q, n, i, m)| ==>
      LastZ(RowTerms(q, n, i, m)[a].0) < LastZ(RowTerms(q, n, i, m)[b].0)
  {
    if m > i + 1 {
      RowTermsAscending(q, n, i, m - 1);
      PairLabelZ(n, i, m - 1);
    }
  }

  /** Every term of s has its first Z below k. */
  predicate RowsBelow(s: seq<Term>, k: nat) {
    forall a :: 0 <= a < |s| ==> FirstZ(s[a].0) < k
  }

  /** The terms of s are in strictly increasing lexicographic order of their
      (first Z, last Z) positions. */
  predicate LexSorted(s: seq<Term>) {
    forall a, b :: 0 <= a < b < |s| ==>
      LexBefore(FirstZ(s[a].0), LastZ(s[a].0), FirstZ(s[b].0), LastZ(s[b].0))
  }

  /** Appending the terms of row i, in increasing last Z, to sorted terms of
      the rows below i keeps them sorted. */
  lemma {:induction false} AppendRowSorted(s: seq<Term>, r: seq<Term>, i: nat)
    requires LexSorted(s) && RowsBelow(s, i)
    requires forall a :: 0 <= a < |r| ==> FirstZ(r[a].0) == i
    requires forall a, b :: 0 <= a < b < |r| ==> LastZ(r[a].0) < LastZ(r[b].0)
    ensures LexSorted(s + r) && RowsBelow(s + r, i + 1)
  {
    var t := s + r;
    forall a, b | 0 <= a < b < |t|
      ensures LexBefore(FirstZ(t[a].0), LastZ(t[a].0), FirstZ(t[b].0), LastZ(t[b].0))
    {
      if b < |s| {
        assert t[a] == s[a] && t[b] == s[b];
      } else if a < |s| {
        assert t[a] == s[a] && t[b] == r[b - |s|];
      } else {
        assert t[a] == r[a - |s|] && t[b] == r[b - |s|];
      }
    }
    forall a | 0 <= a < |t|
      ensures FirstZ(t[a].0) < i + 1
    {
      if a < |s| {
        assert t[a] == s[a];
      } else {
        assert t[a] == r[a - |s|];
      }
    }
  }

  /** The pair terms appear in lexicographic (i, j) order, each row below k. */
  lemma {:induction false} PairTermsAscending(q: seq<seq<real>>, n: nat, k: nat)
    requires Square(q, n) && k <= n
    ensures RowsBelow(PairTerms(q, n, k), k) && LexSorted(PairTerms(q, n, k))
  {
    if k > 0 {
      PairTermsAscending(q, n, k - 1);
      RowTermsAscending(q, n, k - 1, n);
      AppendRowSorted(PairTerms(q, n, k - 1), RowTerms(q, n, k - 1, n), k - 1);
    }
  }

  /** Unless nothing survives, the operator lists the single terms first and
      the pair terms after them. */
  lemma {:induction false} SinglesBeforePairs(q: seq<seq<real>>, n: nat)
    requires Square(q, n) && !NoneSurvive(q, n)
    ensures Terms(q, n) == SingleTerms(q, n, n) + PairTerms(q, n, n)
  {
    TermsSpec(q, n);
  }
}
