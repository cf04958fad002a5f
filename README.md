# quantum_aegis core in Dafny

A model of the decision core of quantum_aegis, a tactical position
selector. It picks exactly one of N positions, minimising the combined
risk and distance cost, and it does so through a QUBO formulation:

    H(x) = Σ_i (αR_i + βD_i) x_i + P (Σ_i x_i − 1)²

The model covers the following:

- the problem class (`QUBOProblem`): input validation, min–max
  normalisation, the coefficient matrix Q, `evaluate` and the exhaustive
  search;
- the Ising conversion (`build_hamiltonian`);
- the two classical solvers;
- the deterministic logic around the external optimiser in the QAOA and
  VQE solvers: history callback, extraction tiers, counts table and
  one-hot repair.

All arithmetic is exact over `real`. The 1e-10 threshold is a real
constant.

Files and modules:

| file | module | models |
|---|---|---|
| wrappers.dfy | Wrappers | Option / Result |
| vectors.dfy | Vectors | sums, one-hot vectors, `np.argmin` / `np.argmax` (first index on ties), `min` / `max` |
| bits.dfy | Bits | `format(i, '0Nb')`, `[int(b) for b in s]`, the integer an MSB-first bit list stands for |
| qubo.dfy | Qubo | `QUBOProblem`: `__init__`, `_normalize`, `_build_qubo_matrix`, `evaluate`, `get_optimal_solution`, and what Q encodes |
| hamiltonian.dfy | Hamiltonian | `build_hamiltonian`: h, J, the threshold, the Pauli labels, the identity fallback |
| ising.dfy | Ising | what the h / J / constant of `build_hamiltonian` mean as an Ising energy |
| operator.dfy | Operator | what the returned term list is worth on a basis state, and the term list with the field signs corrected |
| solver_result.dfy, greedy.dfy, brute_force.dfy | SolverResult, Greedy, BruteForce | `GreedySolver.solve`, `BruteForceSolver.solve` |
| variational.dfy | Variational | history records, counts synthesis, most-frequent key, argmax bits, the repair |
| qaoa.dfy, vqe.dfy | Qaoa, Vqe | `QAOASolver` / `VQESolver`: fields `optimization_history` and `result`, the default callback, `solve` |

Form of the model:

- **Problem values.** A problem is a datatype value: nothing mutates it
  after construction.
- **Q.** Q is filled in place in an `array2` by nested loops.
- **`build_hamiltonian`.** The method fills `h` and `J` arrays and
  appends terms in loops. Each method is proved equal to a specification
  function, and the lemmas are stated about that function.
- **Exhaustive search.** `get_optimal_solution` is a loop that keeps the
  first strict minimum.
- **Variational solvers.** Each solver is a class whose history field
  the default callback appends to. The external optimiser is a function
  from the Hamiltonian to its run: the callbacks it makes, its
  eigenvalue and its optimal parameters. The eigenstate, statevector and
  sampler outcomes are `Option` inputs, where None stands for "raised or
  absent".
- **Binding the circuit.** Binding the optimal parameters into the ansatz
  (`assign_parameters`, and `remove_final_measurements` or `decompose` with
  the simulator set-up) sits outside every `try`. Whether it succeeds is a
  boolean input `bound`. When it fails, `solve` ends with an error after
  the history and `self.result` are updated. In QAOA it is reached only
  when the eigenstate tier gave nothing.
- **Pauli labels.** Qiskit reads a Pauli label and a bit string both from
  the right, so label position k and bit-string position k name the same
  qubit. Z = diag(1, −1), so on the basis state |x⟩ a label is worth the
  product of z_k = 1 − 2x_k over its 'Z' positions (`Ising.ZEig`).
  `Operator` evaluates a label on such a vector position by position.

Facts the proofs establish that the comments in the code state
differently:

- **Q double-counts the pair term.** The docstring says xᵀQx = H(x). But
  Q holds 2P at both (i, j) and (j, i), so xᵀQx = H(x) − P + P·S(S − 1)
  for S = Σx_i (`Qubo.FullFormCountsPairsTwice`). It is never H(x) when
  P ≠ 0 (`Qubo.FullFormNeverEnergy`). What Q encodes is the
  upper-triangular form: Σ_i Q_ii x_i + Σ_{i<j} Q_ij x_i x_j = H(x) − P
  (`Qubo.QuboFormIsEnergyLessPenalty`).
- **Spin convention.** The h and J of `build_hamiltonian` reproduce that
  form under s_i = 2x_i − 1 (`Ising.SpinIdentity`). The comment's
  substitution x = (1 − Z)/2, that is Z = 1 − 2x, gives H(¬x) − P
  instead, the energy of the complement of x, for every 0/1 x
  (`Ising.DocstringSubstitutionGivesComplement`). So the operator's ground
  state is the complement of the least-energy bit string; see "## Findings".
- **The constant.** The exact constant is trace(Q)/2 + Σ_{i<j} Q_ij/4.
  The code's `sum(Q)/4 + trace(Q)/4` exceeds it by P·N(N−1)/4
  (`Ising.CodeConstantGap`). The code uses that constant only in the
  identity fallback.
- **Tie-breaking.**
  - The exhaustive search keeps the lowest integer, and bits are most
    significant first. So among tied one-hot vectors it returns the one
    with the higher index (`BruteForce.TiedOneHotsKeepHigherIndex`).
  - Greedy and the repair keep the lower index.
- **History.** The optimisation history is created once per solver and
  only ever appended to.
- **Reported energy.** The energy a variational solver reports is the
  optimiser's eigenvalue. It is not re-evaluated on the repaired bit
  string.

The repair tests only the sum. A sampled key of another length than N
that holds a single '1' is therefore returned as it is. The model keeps
this, and the one-hot guarantee is stated without a length.

The argmax tiers can give a bit string wider than N. They format the
index of the most probable entry with `format(i, '0Nb')`, which is longer
than N for i ≥ 2^N. The model follows the code: the tiers are stated to
give N bits when the probability vector has at most 2^N entries. The
exhaustive search runs over range(2^N), so it always gives N bits.

The heuristic tier's counts table has one key, `format(best_idx, '0Nb')`.
That is the index of the cheapest target in N binary digits, not the
one-hot bit string: for N = 3 and index 1 the key is "001", while the bits
are [0, 1, 0].

## Model

| member | source | states |
|---|---|---|
| Qubo.Create | quantum_aegis/problem/qubo.py:23-53 | α, β and P default to 1.0, 1.0 and 10.0; raises exactly when the two cost arrays differ in length, and fails on empty arrays (numpy's `max` of an empty array raises); otherwise yields a valid problem with normalised R and D, the given α, β, P and its Q |
| Qubo.Normalize | quantum_aegis/problem/qubo.py:55-60 | keeps the length; what it computes is stated by the three lemmas below |
| Qubo.NormalizeUniform | quantum_aegis/problem/qubo.py:55-59 | an all-equal array becomes 1/len in every entry |
| Qubo.NormalizeScales | quantum_aegis/problem/qubo.py:55-60 | otherwise the minimum maps to 0, the maximum to 1, and a[i] ≤ a[j] iff r[i] ≤ r[j] |
| Qubo.NormalizeInUnit | quantum_aegis/problem/qubo.py:55-60 | every normalised entry lies in [0, 1], with the same length |
| Qubo.BuildQuboMatrix | quantum_aegis/problem/qubo.py:80-92 | Q is N×N and symmetric, with Q_ii = αR_i + βD_i − P and Q_ij = 2P for i ≠ j |
| Qubo.QDetermined | quantum_aegis/problem/qubo.py:80-92 | Q is fixed by the costs, the weights and the penalty |
| Qubo.Energy | quantum_aegis/problem/qubo.py:109-114 | the penalty vanishes on a bit string with exactly one 1, leaving Σ(αR_i+βD_i)x_i |
| Qubo.Evaluate | quantum_aegis/problem/qubo.py:104-114 | raises exactly when len(x) ≠ N; otherwise returns Σ(αR_i+βD_i)x_i + P(Σx_i − 1)² |
| Qubo.OneHotEnergy | quantum_aegis/problem/qubo.py:109-114 | for the one-hot x at i, H(x) = αR_i + βD_i (the penalty vanishes) |
| Qubo.UpperFormOfForm | quantum_aegis/problem/qubo.py:66-78 | for a matrix of Q's shape and a 0/1 vector, the upper-triangular form is the linear cost plus P(2·Σ_{i<j}x_ix_j − Σx_i) |
| Qubo.PenaltyShareClosed | quantum_aegis/problem/qubo.py:69-74 | the expansion of the comment: that penalty share equals P(Σx − 1)² − P for 0/1 vectors |
| Qubo.QuboFormIsEnergyLessPenalty | quantum_aegis/problem/qubo.py:62-78 | Σ_i Q_ii x_i + Σ_{i<j} Q_ij x_i x_j = evaluate(x) − P for every 0/1 x of length N |
| Qubo.FullFormCountsPairsTwice | quantum_aegis/problem/qubo.py:62-92 | for every 0/1 x of length N, xᵀQx = evaluate(x) − P + P·S(S − 1) with S = Σx_i |
| Qubo.FullFormNeverEnergy | quantum_aegis/problem/qubo.py:62-64 | the docstring's xᵀQx = H(x) fails for every 0/1 x of length N when P ≠ 0 |
| Qubo.EvaluateIndex | quantum_aegis/problem/qubo.py:127-128 | one search step: the bits of `format(i, '0Nb')` and their energy |
| Qubo.OptimalSolution | quantum_aegis/problem/qubo.py:123-133 | returns a 0/1 vector of length N whose energy is ≤ evaluate(y) for every 0/1 y of length N, and it is the first minimiser in ascending integer order with bits MSB-first |
| Qubo.FirstMinimiserIsOptimal | quantum_aegis/problem/qubo.py:126-131 | the search over range(2^N) meets every 0/1 vector of length N, so its first minimiser is a global minimum |
| Qubo.FirstMinimiserUnique | quantum_aegis/problem/qubo.py:129-131 | the strict `<` makes the returned index unique |
| Vectors.FirstArgMin | quantum_aegis/solvers/classical/greedy.py:30 | `np.argmin`: an index of a least entry, lower than every other index holding that value |
| Vectors.FirstArgMax | quantum_aegis/solvers/quantum/qaoa.py:162 | `np.argmax`: an index of a greatest entry, lower than every other index holding that value |
| Vectors.MakeOneHot | quantum_aegis/solvers/classical/greedy.py:32-33 | `np.zeros(N)` with a 1 written at i is the length-N one-hot vector at i |
| Bits.BitsOfRoundTrip | quantum_aegis/problem/qubo.py:127 | `format(i, '0Nb')` is a 0/1 list that decodes back to i, of length N when i < 2^N |
| Bits.ValueRoundTrip | quantum_aegis/problem/qubo.py:126-127 | every 0/1 list of length N is `format(v, '0Nb')` of its own value v < 2^N |
| Bits.FormatParses | quantum_aegis/solvers/quantum/qaoa.py:163 | reading `format(i, '0Nb')` character by character with int() gives its bits |
| Bits.FormatInjective | quantum_aegis/solvers/quantum/qaoa.py:164 | distinct indices get distinct keys |
| Hamiltonian.ComputeFields | quantum_aegis/problem/qubo.py:160-165 | h_i = Q_ii/2 + Σ_{j≠i} Q_ij/4 |
| Hamiltonian.ComputeCouplings | quantum_aegis/problem/qubo.py:167-169 | J_ij = Q_ij/4 for i < j |
| Hamiltonian.SingleLabelShape | quantum_aegis/problem/qubo.py:177 | a single label has length N with 'Z' exactly at i and 'I' elsewhere |
| Hamiltonian.MakePairLabel | quantum_aegis/problem/qubo.py:184-187 | the pair label built in a list is the length-N string with 'Z' at i and j |
| Hamiltonian.CollectSingles | quantum_aegis/problem/qubo.py:175-178 | appends the single terms in index order, each only if abs(h_i) > 1e-10 |
| Hamiltonian.CollectPairs | quantum_aegis/problem/qubo.py:181-188 | appends the pair terms in lexicographic (i, j) order, each only if abs(J_ij) > 1e-10 |
| Hamiltonian.BuildHamiltonian | quantum_aegis/problem/qubo.py:157-197 | the term list is the single terms then the pair terms, or the identity term with the code's constant when both are empty |
| Hamiltonian.SingleTermsSpec | quantum_aegis/problem/qubo.py:175-178 | a single term is emitted iff abs(h_i) > 1e-10, with its label and h_i |
| Hamiltonian.PairTermsSpec | quantum_aegis/problem/qubo.py:181-188 | a pair term is emitted iff abs(J_ij) > 1e-10, with its label and J_ij |
| Hamiltonian.SingleTermsAscending | quantum_aegis/problem/qubo.py:175-178 | the single terms are listed in increasing qubit index (the position of the label's Z) |
| Hamiltonian.RowTermsAscending | quantum_aegis/problem/qubo.py:182-188 | within row i the pair terms have their first Z at i and their second Z in increasing columns |
| Hamiltonian.PairTermsAscending | quantum_aegis/problem/qubo.py:181-188 | the pair terms are listed in lexicographic (i, j) order of their two Z positions |
| Hamiltonian.SinglesBeforePairs | quantum_aegis/problem/qubo.py:174-197 | unless nothing survives, all single terms come before all pair terms |
| Hamiltonian.PairLabelZ | quantum_aegis/problem/qubo.py:184-187 | the pair label of (i, j) has its first Z at i and its last at j |
| Hamiltonian.TermsSpec | quantum_aegis/problem/qubo.py:171-197 | the result is the single term ('I'·N, sum(Q)/4 + trace(Q)/4) iff no term survives; otherwise its terms are exactly the surviving single and pair terms |
| Ising.FieldsOfForm | quantum_aegis/problem/qubo.py:160-165 | for Q of the constructor's shape, h_i = (αR_i+βD_i − P)/2 + (N−1)P/2 |
| Ising.SpinIdentity | quantum_aegis/problem/qubo.py:154-169 | with s = 2x − 1, Σh_is_i + Σ_{i<j}J_ijs_is_j + trace/2 + upper/4 equals evaluate(x) − P and the upper-triangular form |
| Ising.DocstringSubstitutionGivesComplement | quantum_aegis/problem/qubo.py:143-169 | for every 0/1 x of length N, the coefficients at the commented Z = 1 − 2x give evaluate(¬x) − P, the energy of the complement |
| Ising.DocstringSubstitutionDiffers | quantum_aegis/problem/qubo.py:143-155 | an instance: for N = 1, x = [1] and αR_0+βD_0 ≠ P, the coefficients at Z = 1 − 2x = −1 do not give evaluate(x) − P |
| Ising.CodeConstantGap | quantum_aegis/problem/qubo.py:191 | the code's constant is the exact Ising offset plus P·N(N−1)/4 |
| Greedy.Solve | quantum_aegis/solvers/classical/greedy.py:16-44 | tag 'greedy'; a length-N one-hot vector at the first index of least αR_i+βD_i; energy = evaluate(x), ≤ the energy of every one-hot vector |
| Greedy.GreedyIsBestOneHot | quantum_aegis/solvers/classical/greedy.py:29-35 | the first argmin is the first cheapest index, and its one-hot energy is its cost and the least among one-hot vectors |
| Greedy.FirstCheapestUnique | quantum_aegis/solvers/classical/greedy.py:30 | `np.argmin` ties go to a unique lowest index |
| BruteForce.Solve | quantum_aegis/solvers/classical/brute_force.py:16-37 | tag 'brute_force'; the pair of `get_optimal_solution`: a 0/1 vector of length N with the least energy, the first in ascending order |
| BruteForce.PenaltyForcesOneHot | quantum_aegis/solvers/classical/brute_force.py:28 | with α, β ≥ 0 and P > α + β every minimiser over 0/1 vectors is one-hot |
| BruteForce.NotOneHotCostsMore | quantum_aegis/problem/qubo.py:109-114 | under those weights a 0/1 vector not summing to 1 has more energy than a one-hot vector |
| BruteForce.CostAtMostWeights | quantum_aegis/solvers/classical/greedy.py:29 | 0 ≤ αR_i + βD_i ≤ α + β for normalised costs |
| BruteForce.PenaltyAwayFromOne | quantum_aegis/problem/qubo.py:112 | P(s − 1)² ≥ P when s ≠ 1 |
| BruteForce.TiedOneHotsKeepHigherIndex | quantum_aegis/problem/qubo.py:126-131 | when the one-hot vectors at i < j tie, the search does not return the one at i |
| BruteForce.OneHotValue | quantum_aegis/problem/qubo.py:127 | the one-hot vector at i, read MSB-first, is the integer 2^(N−1−i) |
| Variational.Records | quantum_aegis/solvers/quantum/qaoa.py:125-132 | one record {iteration, energy, parameters} per evaluation, in order, from eval_count, mean and parameters |
| Variational.RecordsConcat | quantum_aegis/solvers/quantum/qaoa.py:49 | a history over two runs is the records of the first followed by those of the second |
| Variational.SynthCounts | quantum_aegis/solvers/quantum/qaoa.py:164 | at most one entry per probability |
| Variational.SynthCountsSpec | quantum_aegis/solvers/quantum/qaoa.py:164 | the counts table holds exactly one entry per index with p > 1e-10, keyed by its N-bit string, with value ⌊1024p⌋, and no key twice |
| Variational.ArgMaxBitsSpec | quantum_aegis/solvers/quantum/qaoa.py:162-163 | the bits are a 0/1 list decoding to the first most probable index, N long when there are at most 2^N probabilities |
| Variational.MostFrequent | quantum_aegis/solvers/quantum/vqe.py:151 | `max(counts, key=counts.get)` is the key of the first entry with the largest count |
| Variational.SampledBits | quantum_aegis/solvers/quantum/vqe.py:147-152 | the sampling tier yields the digits of the most frequent key, and fails on no counts or a non-digit character |
| Variational.Repair | quantum_aegis/solvers/quantum/qaoa.py:209-214 | the in-place repair computes the repaired bit string |
| Variational.RepairedSpec | quantum_aegis/solvers/quantum/vqe.py:163-167 | after the repair the bit string has exactly one 1; it is unchanged when it summed to 1, else the one-hot vector of length N at the first cheapest index |
| Qaoa.HeuristicExtraction | quantum_aegis/solvers/quantum/qaoa.py:201-206 | the length-N one-hot vector at the first cheapest target, and 1024 shots on one key that reads as that index in binary |
| Qaoa.ExtractSpec | quantum_aegis/solvers/quantum/qaoa.py:154-206 | tiers in the order eigenstate → statevector → sampled most-frequent key → heuristic; the first success decides bits and counts; the argmax tiers give N bits when there are at most 2^N probabilities; the heuristic gives the one-hot vector at the first cheapest index with counts {its key: 1024} |
| Qaoa.RunTiers | quantum_aegis/solvers/quantum/qaoa.py:154-206 | the try/except chain computes exactly the extraction of the tier order; it raises exactly when the eigenstate tier fails and the circuit cannot be bound |
| Qaoa.Solver.DefaultCallback | quantum_aegis/solvers/quantum/qaoa.py:125-132 | appends exactly one record at the end, keeps the earlier ones, returns False |
| Qaoa.Solver.Optimise | quantum_aegis/solvers/quantum/qaoa.py:125-145 | the history gains the records of every evaluation with the default callback, nothing with a caller's callback; `self.result` is the run |
| Qaoa.Solver.Solve | quantum_aegis/solvers/quantum/qaoa.py:51-223 | the optimiser gets the problem's Hamiltonian; the history and `self.result` are updated in every case; an error exactly when the eigenstate tier fails and binding the circuit raises; otherwise energy = eigenvalue.real, bit string = repaired extraction, always one-hot, counts from the winning tier with no key twice, given a sampled table without duplicates, history returned as is |
| Vqe.ExtractSpec | quantum_aegis/solvers/quantum/vqe.py:145-160 | sampling first, statevector only when sampling raises, no heuristic tier; nothing when both fail |
| Vqe.RunTiers | quantum_aegis/solvers/quantum/vqe.py:145-160 | the try/except computes exactly that extraction, failing where the statevector raises |
| Vqe.Solver.DefaultCallback | quantum_aegis/solvers/quantum/vqe.py:111-118 | appends exactly one record at the end, keeps the earlier ones, returns False |
| Vqe.Solver.Optimise | quantum_aegis/solvers/quantum/vqe.py:111-131 | the history gains one record per evaluation with the default callback, nothing with a caller's callback; `self.result` is the run |
| Vqe.Solver.Solve | quantum_aegis/solvers/quantum/vqe.py:53-176 | the history and `self.result` are updated in every case; one error exactly when binding the circuit raises, another exactly when it succeeds and both tiers fail; otherwise energy = eigenvalue.real and bit string = repaired extraction, always one-hot, and the counts hold no key twice, given a sampled table without duplicates |
| Operator.SingleLabelValue | quantum_aegis/problem/qubo.py:175-178 | the single label of qubit i is worth z_i on the vector z of Z eigenvalues |
| Operator.PairLabelValue | quantum_aegis/problem/qubo.py:184-187 | the pair label of (i, j) is worth z_i z_j |
| Operator.SingleTermsValue | quantum_aegis/problem/qubo.py:174-178 | with nothing dropped by the threshold, the single terms are worth Σ h_i z_i |
| Operator.RowTermsValue | quantum_aegis/problem/qubo.py:182-188 | with nothing dropped, the pair terms of row i are worth Σ_{j>i} J_ij z_i z_j |
| Operator.PairTermsValue | quantum_aegis/problem/qubo.py:181-188 | with nothing dropped, the pair terms are worth Σ_{i<j} J_ij z_i z_j, row by row |
| Operator.RowsAreColumns | quantum_aegis/problem/qubo.py:167-169 | summing the couplings row by row equals summing them column by column |
| Operator.OperatorIsIsingEnergy | quantum_aegis/problem/qubo.py:157-197 | with nothing dropped, the returned operator is worth Σh_iz_i + Σ_{i<j}J_ijz_iz_j on every vector z |
| Operator.OperatorMatchesEnergy | quantum_aegis/problem/qubo.py:157-197 | with nothing dropped, the operator at z = 2x − 1 is evaluate(x) − P less the offset; that z holds the Z eigenvalues of the complement of x, not of x |
| Operator.OperatorOnBasisState | quantum_aegis/problem/qubo.py:160-197 | with nothing dropped, the operator on the basis state |x⟩ (z = 1 − 2x) is evaluate(¬x) − P less the offset, for every 0/1 x of length N |
| Operator.OperatorPrefersCostlierPair | quantum_aegis/problem/qubo.py:160-197 | for N = 2 with nothing dropped, the operator is lower on |10⟩ than on |01⟩ exactly when target 1 is the cheaper: its lower one-hot state is the costlier target |
| Operator.NegatedValue | quantum_aegis/problem/qubo.py:174-178 | negating every coefficient negates the operator's value |
| Operator.CorrectedOnBasisState | quantum_aegis/problem/qubo.py:160-169 | the term list with the fields negated and the couplings kept is worth evaluate(x) − P less the offset on |x⟩, for every 0/1 x of length N |
| Operator.CorrectedOrdersAsEnergy | quantum_aegis/problem/qubo.py:160-169 | so the corrected operator orders basis states as evaluate does, and its ground states are the least-energy bit strings |

## Findings

| source | as written | input that shows it | evidently intended | confidence | as-written member | corrected member |
|---|---|---|---|---|---|---|
| quantum_aegis/problem/qubo.py:160-169 | h and J are derived for Z = 2x − 1, the opposite sign to the comment's x = (1 − Z)/2 and to Z = diag(1, −1), so on the basis state of x the operator is worth H(¬x) − P less a constant and its ground state is the complement of the least-energy bit string | R = [0, 1], D = [1, 0], α = 1, β = 2, P = 10: costs [2, 1], h = (1, 0.5), J = 5; the operator is −5.5 on the basis state 10 and −4.5 on 01, so its ground state is target 0, the costlier one. For N = 2 an ideal run returns that one-hot vector and the repair keeps it; for N ≥ 3 the complement has N − 1 ones and the repair replaces it with greedy's answer | fields with the opposite sign (h_i = −Q_ii/2 − Σ_{j≠i} Q_ij/4), couplings unchanged, so that the ground state is the least-energy bit string | not executed | Operator.OperatorOnBasisState, Operator.OperatorPrefersCostlierPair | Operator.CorrectedOnBasisState, Operator.CorrectedOrdersAsEnergy |

The solvers keep passing the term list as written to the optimiser, since
that is what `solve` does. The optimiser and the extraction tiers are
inputs of the model, so no other member depends on where the operator's
ground state lies.

## Left out

- Noise models, plotting, the scenario generator (which draws costs from
  a seeded RNG and passes no penalty, so P = 10 there) and the package
  re-exports have no logic of their own to model.
- The Qiskit import-fallback chains, the QAOA / VQE optimiser loop, the
  ansatz, `assign_parameters`, transpilation, the simulator backends and
  `Statevector` are foreign code. The model takes what they deliver as
  inputs: the optimiser is a function from the Hamiltonian to its run,
  each extraction tier an `Option`, and whether binding the circuit
  succeeds a boolean.
- `SparsePauliOp` is represented by its list of (label, coefficient)
  pairs. Only its diagonal value on a basis state is modelled, not the
  operator algebra. That value is tied to the Ising energy only when no
  coefficient is dropped by the 1e-10 threshold.
- The squared amplitudes of the eigenstate are taken as the given
  probability vector. Complex amplitudes are not modelled.
- The callback's `metadata` argument is not used by the code and is not
  modelled.
- Wall-clock `elapsed_time` is left out of the classical solvers' result.
- Floating point: all arithmetic is exact real arithmetic, so rounding
  near the 1e-10 threshold or in `int(p*1024)` is not modelled.
- The returned history is the solver's own list object. The model
  returns its value at the end of `solve`, so later aliasing through
  that object is not captured.
- A caller-supplied callback is foreign code. The model assumes it does
  not touch the solver's history.
- Qubo.QuboFormIsEnergyLessPenalty: the upper-triangular form is defined
  by selecting entries where x_i = 1. It therefore speaks about 0/1
  vectors only, as the comment's x_i² = x_i step does.
