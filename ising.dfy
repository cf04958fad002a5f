/** What the coefficients `build_hamiltonian` computes mean: with
    s_i = 2x_i - 1 (x_i = (1 + s_i)/2), the Ising energy
    Σ h_i s_i + Σ_{i<j} J_ij s_i s_j plus an offset equals the QUBO form
    Σ Q_ii x_i + Σ_{i<j} Q_ij x_i x_j = H(x) - P of quantum_aegis/problem/qubo.py.
    The offset that makes this hold is Σ Q_ii/2 + Σ_{i<j} Q_ij/4, which is
    not the constant the code attaches to its identity term. At the Z
    eigenvalues 1 - 2x of the basis state |x⟩, the substitution its comment
    names, the same coefficients give the energy of the complement of x.

    The proofs work on any matrix of the constructor's shape, c_i - P on the
    diagonal and 2P elsewhere, for an arbitrary cost vector c; SpinIdentity
    instantiates c with αR + βD. */
module Ising {
  import opened Vectors
  import opened Qubo
  import opened Hamiltonian

  /** s_i = 2x_i - 1: 0 ↦ -1, 1 ↦ +1. */
  function Spins(x: seq<int>): (z: seq<real>)
    ensures |z| == |x| && forall i :: 0 <= i < |x| ==> z[i] == 2.0 * (x[i] as real) - 1.0
  {
    seq(|x|, i requires 0 <= i < |x| => 2.0 * (x[i] as real) - 1.0)
  }

  /** The eigenvalues of Z on the basis state |x⟩: Z = diag(1, -1), so a
      qubit in state x_i contributes 1 - 2x_i. This is the docstring's
      x_i = (1 - Z_i)/2 read backwards. */
  function ZEig(x: seq<int>): (z: seq<real>)
    ensures |z| == |x| && forall i :: 0 <= i < |x| ==> z[i] == 1.0 - 2.0 * (x[i] as real)
  {
    seq(|x|, i requires 0 <= i < |x| => 1.0 - 2.0 * (x[i] as real))
  }

  /** The complement of a bit string: every 0 becomes 1 and every 1 becomes 0. */
  function Flip(x: seq<int>): (y: seq<int>)
    ensures |y| == |x| && forall i :: 0 <= i < |x| ==> y[i] == 1 - x[i]
  {
    seq(|x|, i requires 0 <= i < |x| => 1 - x[i])
  }

  /** The Z eigenvalues of |x⟩ are the spins 2y - 1 of the complement y of
      x, and the complement of a 0/1 string is a 0/1 string. */
  lemma {:induction false} ZEigIsFlippedSpins(x: seq<int>)
    ensures ZEig(x) == Spins(Flip(x))
    ensures IsBinary(x) ==> IsBinary(Flip(x))
  {
    assert forall i :: 0 <= i < |x| ==> ZEig(x)[i] == Spins(Flip(x))[i];
  }

  predicate IsSpin(z: seq<real>) {
    forall i :: 0 <= i < |z| ==> z[i] == -1.0 || z[i] == 1.0
  }

  /** Σ_{i<k} w_i z_i over reals. */
  function RDot(w: seq<real>, z: seq<real>, k: nat): real
    requires k <= |w| && k <= |z|
  {
    if k == 0 then 0.0 else RDot(w, z, k - 1) + w[k - 1] * z[k - 1]
  }

  /** Σ_{i<k} z_i over reals. */
  function RSum(z: seq<real>, k: nat): real
    requires k <= |z|
  {
    if k == 0 then 0.0 else RSum(z, k - 1) + z[k - 1]
  }

  /** The vector h the first loop of `build_hamiltonian` fills. */
  function Fields(q: seq<seq<real>>, n: nat): (h: seq<real>)
    requires Square(q, n)
    ensures |h| == n && forall i :: 0 <= i < n ==> h[i] == Field(q, n, i)
  {
    seq(n, i requires 0 <= i < n => Field(q, n, i))
  }

  /** Σ_{i<m} J_ij s_i s_j, the couplings of spin j with the spins before m. */
  function CouplingColumn(q: seq<seq<real>>, n: nat, z: seq<real>, j: nat, m: nat): real
    requires Square(q, n) && |z| == n && m <= j < n
  {
    if m == 0 then 0.0
    else CouplingColumn(q, n, z, j, m - 1) + JCoef(q, n, m - 1, j) * z[m - 1] * z[j]
  }

  /** Σ_{i<j<k} J_ij s_i s_j */
  function CouplingSpin(q: seq<seq<real>>, n: nat, z: seq<real>, k: nat): real
    requires Square(q, n) && |z| == n && k <= n
  {
    if k == 0 then 0.0 else CouplingSpin(q, n, z, k - 1) + CouplingColumn(q, n, z, k - 1, k - 1)
  }

  /** Σ_{i<m} Q_ij */
  function ColumnAbove(q: seq<seq<real>>, n: nat, j: nat, m: nat): real
    requires Square(q, n) && m <= j < n
  {
    if m == 0 then 0.0 else ColumnAbove(q, n, j, m - 1) + q[m - 1][j]
  }

  /** Σ_{i<j<k} Q_ij */
  function UpperSum(q: seq<seq<real>>, n: nat, k: nat): real
    requires Square(q, n) && k <= n
  {
    if k == 0 then 0.0 else UpperSum(q, n, k - 1) + ColumnAbove(q, n, k - 1, k - 1)
  }

  /** The offset the substitution x_i = (1 + s_i)/2 produces. */
  function IsingOffset(q: seq<seq<real>>, n: nat): real
    requires Square(q, n)
  {
    Trace(q, n, n) / 2.0 + UpperSum(q, n, n) / 4.0
  }

  /** Σ h_i s_i + Σ_{i<j} J_ij s_i s_j + offset, with the code's h and J. */
  function IsingEnergy(q: seq<seq<real>>, n: nat, z: seq<real>): real
    requires Square(q, n) && |z| == n
  {
    RDot(Fields(q, n), z, n) + CouplingSpin(q, n, z, n) + IsingOffset(q, n)
  }

  // ---------------------------------------------------------------------
  // Matrices of the constructor's shape

  /** (N-1)P/2, what the off-diagonal entries add to every h_i. */
  function Spread(n: nat, pen: real): real {
    ((n as real) - 1.0) * pen / 2.0
  }

  /** (c_i - P)/2, the half of Q_ii that h_i receives. */
  function HalfDiagonal(c: seq<real>, pen: real): (e: seq<real>)
    ensures |e| == |c| && forall i :: 0 <= i < |c| ==> e[i] == (c[i] - pen) / 2.0
  {
    seq(|c|, i requires 0 <= i < |c| => (c[i] - pen) / 2.0)
  }

  /** Off the diagonal Q holds 2P, so the inner loop adds P/2 per other column. */
  lemma {:induction false} OffRowOfForm(q: seq<seq<real>>, n: nat, c: seq<real>, pen: real, i: nat, m: nat)
    requires QForm(q, n, c, pen) && i < n && m <= n
    ensures OffRow(q, n, i, m) == pen / 2.0 * ((if i < m then m - 1 else m) as real)
  {
    if m > 0 {
      OffRowOfForm(q, n, c, pen, i, m - 1);
    }
  }

  /** h_i = (c_i - P)/2 + (N-1)P/2: the diagonal contributes half of Q_ii
      and each of the N-1 entries 2P contributes P/2. */
  lemma {:induction false} FieldOfForm(q: seq<seq<real>>, n: nat, c: seq<real>, pen: real, i: nat)
    requires QForm(q, n, c, pen) && i < n
    ensures Field(q, n, i) == (c[i] - pen) / 2.0 + Spread(n, pen)
  {
    OffRowOfForm(q, n, c, pen, i, n);
  }

  lemma {:induction false} FieldsOfForm(q: seq<seq<real>>, n: nat, c: seq<real>, pen: real)
    requires QForm(q, n, c, pen)
    ensures forall i :: 0 <= i < n ==> Fields(q, n)[i] == HalfDiagonal(c, pen)[i] + Spread(n, pen)
  {
    forall i | 0 <= i < n
      ensures Fields(q, n)[i] == HalfDiagonal(c, pen)[i] + Spread(n, pen)
    {
      FieldOfForm(q, n, c, pen, i);
    }
  }

  /** Σ s_i = 2·Σ x_i - k for s = 2x - 1. */
  lemma {:induction false} SpinSum(x: seq<int>, k: nat)
    requires k <= |x|
    ensures RSum(Spins(x), k) == 2.0 * (SumTo(x, k) as real) - (k as real)
  {
    if k > 0 {
      SpinSum(x, k - 1);
    }
  }

  /** A 0/1 vector maps to a ±1 vector. */
  lemma {:induction false} SpinsOfBinary(x: seq<int>)
    requires IsBinary(x)
    ensures IsSpin(Spins(x))
  {
  }

  /** One index of DotShift over plain reals: if Σf·z = Σe·z + a·Σz holds
      so far (l = dg + a·t) and f_i = e_i + a, it holds after adding z_i. */
  lemma {:induction false} ShiftStep(l: real, dg: real, a: real, t: real, e: real, f: real, zi: real, l': real, dg': real, t': real)
    requires l == dg + a * t && f == e + a
    requires l' == l + f * zi && dg' == dg + e * zi && t' == t + zi
    ensures l' == dg' + a * t'
  {
  }

  /** Shifting every weight by a shifts the weighted sum by a·Σ z_i. */
  lemma {:induction false} DotShift(f: seq<real>, e: seq<real>, a: real, z: seq<real>, k: nat)
    requires |f| == |e| == |z| && k <= |z|
    requires forall i :: 0 <= i < |f| ==> f[i] == e[i] + a
    ensures RDot(f, z, k) == RDot(e, z, k) + a * RSum(z, k)
  {
    if k > 0 {
      DotShift(f, e, a, z, k - 1);
      ShiftStep(RDot(f, z, k - 1), RDot(e, z, k - 1), a, RSum(z, k - 1), e[k - 1], f[k - 1], z[k - 1],
                RDot(f, z, k), RDot(e, z, k), RSum(z, k));
    }
  }

  /** Σ h_i z_i = Σ (c_i - P)/2 · z_i + (N-1)(P/2)·Σ z_i. */
  lemma {:induction false} FieldsShift(q: seq<seq<real>>, n: nat, c: seq<real>, pen: real, z: seq<real>)
    requires QForm(q, n, c, pen) && |z| == n
    ensures RDot(Fields(q, n), z, n) == RDot(HalfDiagonal(c, pen), z, n) + Spread(n, pen) * RSum(z, n)
  {
    FieldsOfForm(q, n, c, pen);
    DotShift(Fields(q, n), HalfDiagonal(c, pen), Spread(n, pen), z, n);
  }

  /** One qubit of the linear half: ((c_i - P)/2)(2x_i - 1) + (c_i - P)/2 = c_i x_i - P x_i. */
  lemma {:induction false} DiagonalStep(c: real, pen: real, xi: real)
    ensures (c - pen) / 2.0 * (2.0 * xi - 1.0) + (c - pen) / 2.0 == c * xi - pen * xi
  {
  }

  /** With s = 2x - 1: Σ_{i<k} (c_i - P)/2 · s_i + Σ_{i<k} Q_ii/2 = Σ_{i<k} c_i x_i - P·Σ_{i<k} x_i. */
  lemma {:induction false} DiagonalSpinOfBits(q: seq<seq<real>>, n: nat, c: seq<real>, pen: real, x: seq<int>, k: nat)
    requires QForm(q, n, c, pen) && |x| == n && k <= n
    ensures RDot(HalfDiagonal(c, pen), Spins(x), k) + Trace(q, n, k) / 2.0 == Dot(c, x, k) - pen * (SumTo(x, k) as real)
  {
    if k > 0 {
      DiagonalSpinOfBits(q, n, c, pen, x, k - 1);
      DiagonalStep(c[k - 1], pen, x[k - 1] as real);
    }
  }

  /** One row of a coupling column: h s_j T + h s_i s_j = h s_j (T + s_i). */
  lemma {:induction false} ColumnStep(h: real, zj: real, t: real, zi: real)
    ensures h * zj * t + h * zi * zj == h * zj * (t + zi)
  {
  }

  /** Σ_{i<m} J_ij s_i s_j = (P/2)·s_j·Σ_{i<m} s_i, since every J_ij is P/2. */
  lemma {:induction false} CouplingColumnOfForm(q: seq<seq<real>>, n: nat, c: seq<real>, pen: real, z: seq<real>, j: nat, m: nat)
    requires QForm(q, n, c, pen) && |z| == n && m <= j < n
    ensures CouplingColumn(q, n, z, j, m) == pen / 2.0 * z[j] * RSum(z, m)
  {
    if m > 0 {
      CouplingColumnOfForm(q, n, c, pen, z, j, m - 1);
      assert JCoef(q, n, m - 1, j) == pen / 2.0;
      ColumnStep(pen / 2.0, z[j], RSum(z, m - 1), z[m - 1]);
    }
  }

  /** One spin more in the quadratic half: for a spin z_k = ±1,
      (P/4)(T² - k) + (P/2) z_k T = (P/4)((T + z_k)² - (k + 1)). */
  lemma {:induction false} CouplingStep(pen: real, t: real, zk: real, k: real)
    requires zk * zk == 1.0
    ensures pen / 4.0 * (t * t - k) + pen / 2.0 * zk * t == pen / 4.0 * ((t + zk) * (t + zk) - (k + 1.0))
  {
    assert (t + zk) * (t + zk) == t * t + 2.0 * zk * t + zk * zk;
  }

  /** For ±1 spins, Σ_{i<j<k} (P/2) s_i s_j = (P/4)((Σ_{i<k} s_i)² - k). */
  lemma {:induction false} CouplingSpinOfForm(q: seq<seq<real>>, n: nat, c: seq<real>, pen: real, z: seq<real>, k: nat)
    requires QForm(q, n, c, pen) && |z| == n && IsSpin(z) && k <= n
    ensures var t := RSum(z, k);
      CouplingSpin(q, n, z, k) == pen / 4.0 * (t * t - (k as real))
  {
    if k > 0 {
      CouplingSpinOfForm(q, n, c, pen, z, k - 1);
      CouplingSpinStep(q, n, c, pen, z, k);
    }
  }

  /** The inductive step of CouplingSpinOfForm. */
  lemma {:induction false} CouplingSpinStep(q: seq<seq<real>>, n: nat, c: seq<real>, pen: real, z: seq<real>, k: nat)
    requires QForm(q, n, c, pen) && |z| == n && IsSpin(z) && 0 < k <= n
    requires var t := RSum(z, k - 1);
      CouplingSpin(q, n, z, k - 1) == pen / 4.0 * (t * t - ((k - 1) as real))
    ensures var t := RSum(z, k);
      CouplingSpin(q, n, z, k) == pen / 4.0 * (t * t - (k as real))
  {
    CouplingColumnOfForm(q, n, c, pen, z, k - 1, k - 1);
    var zk := z[k - 1];
    assert zk * zk == 1.0;
    CouplingStep(pen, RSum(z, k - 1), zk, (k - 1) as real);
  }

  lemma {:induction false} ColumnAboveOfForm(q: seq<seq<real>>, n: nat, c: seq<real>, pen: real, j: nat, m: nat)
    requires QForm(q, n, c, pen) && m <= j < n
    ensures ColumnAbove(q, n, j, m) == 2.0 * pen * (m as real)
  {
    if m > 0 {
      ColumnAboveOfForm(q, n, c, pen, j, m - 1);
    }
  }

  /** One column more of the upper sum: P·k(k-1) + 2P·k = P·(k+1)k. */
  lemma {:induction false} UpperStepSum(pen: real, k: real, k': real, u: real, col: real, u': real)
    requires k' == k + 1.0 && u == pen * (k * (k - 1.0)) && col == 2.0 * pen * k && u' == u + col
    ensures u' == pen * (k' * (k' - 1.0))
  {
  }

  /** Σ_{i<j<k} Q_ij = P·k(k-1): k(k-1)/2 entries of 2P. */
  lemma {:induction false} UpperSumOfForm(q: seq<seq<real>>, n: nat, c: seq<real>, pen: real, k: nat)
    requires QForm(q, n, c, pen) && k <= n
    ensures UpperSum(q, n, k) == pen * ((k as real) * ((k as real) - 1.0))
  {
    if k > 0 {
      UpperSumOfForm(q, n, c, pen, k - 1);
      ColumnAboveOfForm(q, n, c, pen, k - 1, k - 1);
      UpperStepSum(pen, (k - 1) as real, k as real, UpperSum(q, n, k - 1), ColumnAbove(q, n, k - 1, k - 1), UpperSum(q, n, k));
    }
  }

  /** The linear half of the spin identity, with its quantities returned by
      name: lin = Σ h_i s_i, tr = Σ Q_ii, d = Σ c_i x_i, S = Σ x_i,
      T = Σ s_i, and lin + tr/2 = d - P·S + (N-1)(P/2)·T. */
  lemma {:induction false} LinearPart(q: seq<seq<real>>, n: nat, c: seq<real>, pen: real, x: seq<int>)
    returns (lin: real, tr: real, d: real, s: real, a: real, t: real)
    requires QForm(q, n, c, pen) && |x| == n
    ensures lin == RDot(Fields(q, n), Spins(x), n) && tr == Trace(q, n, n) && d == Dot(c, x, n)
    ensures s == SumTo(x, n) as real && a == Spread(n, pen) && t == RSum(Spins(x), n)
    ensures lin + tr / 2.0 == d - pen * s + a * t
  {
    FieldsShift(q, n, c, pen, Spins(x));
    DiagonalSpinOfBits(q, n, c, pen, x, n);
    lin, tr, d := RDot(Fields(q, n), Spins(x), n), Trace(q, n, n), Dot(c, x, n);
    s, a, t := SumTo(x, n) as real, Spread(n, pen), RSum(Spins(x), n);
  }

  /** The quadratic half of the spin identity: with T = Σ s_i,
      Σ_{i<j} J_ij s_i s_j + Σ_{i<j} Q_ij/4 = (P/4)(T² - N) + P·N(N-1)/4. */
  lemma {:induction false} CouplingPart(q: seq<seq<real>>, n: nat, c: seq<real>, pen: real, x: seq<int>, t: real, nn: real)
    returns (cs: real, us: real)
    requires QForm(q, n, c, pen) && |x| == n && IsBinary(x)
    requires t == RSum(Spins(x), n) && nn == n as real
    ensures cs == CouplingSpin(q, n, Spins(x), n) && us == UpperSum(q, n, n)
    ensures cs + us / 4.0 == pen / 4.0 * (t * t - nn) + pen * (nn * (nn - 1.0)) / 4.0
  {
    SpinsOfBinary(x);
    CouplingSpinOfForm(q, n, c, pen, Spins(x), n);
    UpperSumOfForm(q, n, c, pen, n);
    cs, us := CouplingSpin(q, n, Spins(x), n), UpperSum(q, n, n);
  }

  /** N as a real, and the common shift (N-1)P/2 of every h_i. */
  lemma {:induction false} SpreadValue(n: nat, pen: real) returns (nn: real)
    ensures nn == n as real && Spread(n, pen) == (nn - 1.0) * pen / 2.0
  {
    nn := n as real;
  }

  /** The Ising energy split into its four named sums: Σh_is_i, Σ_{i<j}J_ij s_i s_j,
      trace(Q)/2 and Σ_{i<j}Q_ij/4. */
  lemma {:induction false} IsingEnergyParts(q: seq<seq<real>>, n: nat, z: seq<real>, lin: real, cs: real, tr: real, us: real)
    requires Square(q, n) && |z| == n
    requires lin == RDot(Fields(q, n), z, n) && cs == CouplingSpin(q, n, z, n)
    requires tr == Trace(q, n, n) && us == UpperSum(q, n, n)
    ensures IsingEnergy(q, n, z) == lin + cs + (tr / 2.0 + us / 4.0)
  {
  }

  /** The closing algebra of the spin identity, over plain reals: S = Σx,
      T = 2S - N, u = S - 1, and pv = P·u² is the one-hot penalty. */
  lemma {:induction false} SpinClosing(d: real, pen: real, s: real, nn: real, a: real, t: real, u: real, pv: real,
                                       lin: real, cs: real, tr: real, us: real)
    requires a == (nn - 1.0) * pen / 2.0 && t == 2.0 * s - nn && u == s - 1.0 && pv == pen * (u * u)
    requires lin + tr / 2.0 == d - pen * s + a * t
    requires cs + us / 4.0 == pen / 4.0 * (t * t - nn) + pen * (nn * (nn - 1.0)) / 4.0
    ensures lin + cs + (tr / 2.0 + us / 4.0) == d + pv - pen
  {
    assert t * t == 4.0 * s * s - 4.0 * s * nn + nn * nn;
    assert u * u == s * s - 2.0 * s + 1.0;
  }

  /** The spin identity on a matrix of the constructor's shape: for every
      0/1 vector x, Ising energy at s = 2x - 1 = Σ c_i x_i + P(Σx - 1)² - P. */
  lemma {:induction false} SpinIdentityOfForm(q: seq<seq<real>>, n: nat, c: seq<real>, pen: real, x: seq<int>)
    requires QForm(q, n, c, pen) && |x| == n && IsBinary(x)
    ensures IsingEnergy(q, n, Spins(x)) == Dot(c, x, n) + Penalty(pen, SumTo(x, n)) - pen
  {
    var lin, tr, d, s, a, t := LinearPart(q, n, c, pen, x);
    var nn := SpreadValue(n, pen);
    SpinSum(x, n);
    var cs, us := CouplingPart(q, n, c, pen, x, t, nn);
    IsingEnergyParts(q, n, Spins(x), lin, cs, tr, us);
    var u := PenaltyValue(pen, SumTo(x, n));
    SpinClosing(d, pen, s, nn, a, t, u, Penalty(pen, SumTo(x, n)), lin, cs, tr, us);
  }

  /** The spin identity: for every 0/1 vector x, the Ising energy of the
      code's h and J at s = 2x - 1, plus Σ Q_ii/2 + Σ_{i<j} Q_ij/4, is
      H(x) - P, which is also the upper-triangular QUBO form. So the
      coefficients follow x_i = (1 + s_i)/2. */
  lemma {:induction false} SpinIdentity(p: Problem, x: seq<int>)
    requires Valid(p) && |x| == p.n && IsBinary(x)
    ensures IsingEnergy(p.q, p.n, Spins(x)) == Energy(p, x) - p.penalty
    ensures IsingEnergy(p.q, p.n, Spins(x)) == UpperForm(p.q, x, p.n)
  {
    ValidQForm(p);
    SpinIdentityOfForm(p.q, p.n, Costs(p), p.penalty, x);
    QuboFormIsEnergyLessPenalty(p, x);
  }

  /** Under the substitution the docstring names, x_i = (1 - Z_i)/2, the
      code's coefficients give the energy of the complement: for every 0/1
      x of length N the Ising side at Z = 1 - 2x is H(¬x) - P. */
  lemma {:induction false} DocstringSubstitutionGivesComplement(p: Problem, x: seq<int>)
    requires Valid(p) && |x| == p.n && IsBinary(x)
    ensures IsingEnergy(p.q, p.n, ZEig(x)) == Energy(p, Flip(x)) - p.penalty
  {
    ZEigIsFlippedSpins(x);
    SpinIdentity(p, Flip(x));
  }

  /** The substitution the docstring names, x_i = (1 - Z_i)/2 (so Z = -1 for
      x = 1), does not reproduce H - P with these coefficients: for N = 1 and
      x = [1] the Ising side is 0 while H - P = αR_0+βD_0 - P. */
  lemma {:induction false} DocstringSubstitutionDiffers(p: Problem)
    requires Valid(p) && p.n == 1 && Cost(p, 0) != p.penalty
    ensures IsingEnergy(p.q, 1, [-1.0]) != Energy(p, [1]) - p.penalty
  {
    ValidQForm(p);
    FieldOfForm(p.q, 1, Costs(p), p.penalty, 0);
    OneHotEnergy(p, 0);
    assert OneHotSeq(1, 0) == [1];
    var h := Field(p.q, 1, 0);
    assert h == (Cost(p, 0) - p.penalty) / 2.0;
    assert RDot(Fields(p.q, 1), [-1.0], 1) == -h;
    assert CouplingSpin(p.q, 1, [-1.0], 1) == 0.0;
    assert Trace(p.q, 1, 1) == Cost(p, 0) - p.penalty;
    assert UpperSum(p.q, 1, 1) == 0.0;
  }

  // ---------------------------------------------------------------------
  // The identity term's constant

  lemma {:induction false} RowSumOfForm(q: seq<seq<real>>, n: nat, c: seq<real>, pen: real, i: nat, m: nat)
    requires QForm(q, n, c, pen) && i < n && m <= n
    ensures RowSum(q, n, i, m)
         == (if i < m then c[i] - pen else 0.0) + 2.0 * pen * ((if i < m then m - 1 else m) as real)
  {
    if m > 0 {
      RowSumOfForm(q, n, c, pen, i, m - 1);
    }
  }

  lemma {:induction false} TotalOfForm(q: seq<seq<real>>, n: nat, c: seq<real>, pen: real, k: nat)
    requires QForm(q, n, c, pen) && k <= n
    ensures Total(q, n, k) == Trace(q, n, k) + 2.0 * pen * ((n as real) - 1.0) * (k as real)
  {
    if k > 0 {
      TotalOfForm(q, n, c, pen, k - 1);
      RowSumOfForm(q, n, c, pen, k - 1, n);
    }
  }

  /** np.sum(Q)/4 + trace/4 exceeds the offset Σ Q_ii/2 + Σ_{i<j} Q_ij/4 by
      P·N(N-1)/4: the code's constant counts the off-diagonal part twice. */
  lemma {:induction false} CodeConstantGap(p: Problem)
    requires Valid(p)
    ensures CodeConstant(p.q, p.n) == IsingOffset(p.q, p.n) + p.penalty * ((p.n as real) * ((p.n as real) - 1.0)) / 4.0
  {
    ValidQForm(p);
    TotalOfForm(p.q, p.n, Costs(p), p.penalty, p.n);
    UpperSumOfForm(p.q, p.n, Costs(p), p.penalty, p.n);
  }
}
