/** `QAOASolver.solve` of quantum_aegis/solvers/quantum/qaoa.py around the
    external optimiser: the Hamiltonian it is given, the default history
    callback, the four extraction tiers, the counts table and the one-hot
    repair. The optimiser is a function of the Hamiltonian; what the
    eigenstate, the simulated statevector and the sampler deliver are
    optional inputs (None where Qiskit raises or gives nothing), and whether
    binding the optimal parameters into the ansatz succeeds is a boolean
    input: that step is outside every `try`, so its failure ends `solve`. */
module Qaoa {
  import opened Wrappers
  import opened Vectors
  import opened Bits
  import opened Qubo
  import opened Hamiltonian
  import opened Variational

  /** The last resort: the one-hot vector at the first cheapest target, with
      all 1024 shots on a single key. That key is the target's index written
      in N binary digits, not the one-hot bit string. */
  function HeuristicExtraction(p: Problem): (e: Extraction)
    requires Shaped(p) && p.n >= 1
    ensures var b := FirstArgMin(Costs(p));
      && e.tier == Heuristic && |e.bits| == p.n && IsOneHotAt(e.bits, b)
      && |e.counts| == 1 && e.counts[0].1 == Shots
      && ParseDigits(e.counts[0].0) == Some(BitsOf(b, p.n)) && Value(BitsOf(b, p.n)) == b
  {
    var b := FirstArgMin(Costs(p));
    FormatParses(b, p.n);
    BitsOfRoundTrip(b, p.n);
    Extraction(OneHotSeq(p.n, b), [(Format(b, p.n), Shots)], Heuristic)
  }

  /** The exception that escapes `solve` when binding the optimal parameters
      into the ansatz, or removing its final measurements, raises. */
  datatype SolveError = CircuitUnbound

  /** The extraction tiers in the order they are tried; the first that does
      not raise decides both the bit string and the counts. */
  function Extract(p: Problem, eigen: Option<seq<real>>, state: Option<seq<real>>, sampled: Option<Counts>): Extraction
    requires Shaped(p) && p.n >= 1
  {
    if Usable(eigen) then FromProbabilities(eigen.value, p.n, Eigenstate)
    else if Usable(state) then FromProbabilities(state.value, p.n, Statevector)
    else if sampled.Some? && SampledBits(sampled.value).Some? then
      Extraction(SampledBits(sampled.value).value, sampled.value, Sampled)
    else HeuristicExtraction(p)
  }

  /** Which tier wins, what each yields, and that every tier yields
      non-negative digits (so the repair always ends one-hot). */
  lemma {:induction false} ExtractSpec(p: Problem, eigen: Option<seq<real>>, state: Option<seq<real>>, sampled: Option<Counts>)
    requires Shaped(p) && p.n >= 1
    ensures var e := Extract(p, eigen, state, sampled);
      && (e.tier == Eigenstate <==> Usable(eigen))
      && (e.tier == Statevector <==> !Usable(eigen) && Usable(state))
      && (e.tier == Sampled <==> !Usable(eigen) && !Usable(state) && sampled.Some? && SampledBits(sampled.value).Some?)
      && (e.tier == Heuristic <==> !Usable(eigen) && !Usable(state) && (sampled.None? || SampledBits(sampled.value).None?))
      && NonNegative(e.bits)
    ensures var e := Extract(p, eigen, state, sampled);
      e.tier == Eigenstate ==> (Value(e.bits) == FirstArgMax(eigen.value) && e.counts == SynthCounts(eigen.value, p.n)
        && (|eigen.value| <= Pow2(p.n) ==> |e.bits| == p.n))
    ensures var e := Extract(p, eigen, state, sampled);
      e.tier == Statevector ==> (Value(e.bits) == FirstArgMax(state.value) && e.counts == SynthCounts(state.value, p.n)
        && (|state.value| <= Pow2(p.n) ==> |e.bits| == p.n))
    ensures var e := Extract(p, eigen, state, sampled);
      e.tier == Sampled ==> e.counts == sampled.value && Some(e.bits) == ParseDigits(MostFrequent(sampled.value))
    ensures var e := Extract(p, eigen, state, sampled);
      e.tier == Heuristic ==> exists b :: (IsOneHotAt(e.bits, b) && |e.bits| == p.n
        && e.counts == [(Format(b, p.n), Shots)]
        && (forall j :: 0 <= j < p.n ==> Cost(p, b) <= Cost(p, j))
        && (forall j :: 0 <= j < b ==> Cost(p, b) < Cost(p, j)))
  {
    if Usable(eigen) {
      ArgMaxBitsSpec(eigen.value, p.n);
    } else if Usable(state) {
      ArgMaxBitsSpec(state.value, p.n);
    } else if sampled.Some? && SampledBits(sampled.value).Some? {
      assert Extract(p, eigen, state, sampled) == Extraction(SampledBits(sampled.value).value, sampled.value, Sampled);
    } else {
      HeuristicIsCheapest(p);
    }
  }

  /** The heuristic tier's vector is one-hot at a first cheapest target and
      its one count entry is keyed by that target's index. */
  lemma {:induction false} HeuristicIsCheapest(p: Problem)
    requires Shaped(p) && p.n >= 1
    ensures var e := HeuristicExtraction(p);
      exists b :: (IsOneHotAt(e.bits, b) && |e.bits| == p.n
        && e.counts == [(Format(b, p.n), Shots)]
        && (forall j :: 0 <= j < p.n ==> Cost(p, b) <= Cost(p, j))
        && (forall j :: 0 <= j < b ==> Cost(p, b) < Cost(p, j)))
  {
    var b := FirstArgMin(Costs(p));
    assert IsOneHotAt(HeuristicExtraction(p).bits, b) && Cost(p, b) == Costs(p)[b];
  }

  /** The try/except chain of `solve`: each tier that succeeds sets x and
      counts, and a later tier runs only while x is still None. Before the
      statevector tier the ansatz is bound outside any `try`; None when that
      raises. */
  method RunTiers(p: Problem, eigen: Option<seq<real>>, bound: bool, state: Option<seq<real>>, sampled: Option<Counts>)
    returns (r: Option<(seq<int>, Counts)>)
    requires Shaped(p) && p.n >= 1
    ensures r.None? <==> !Usable(eigen) && !bound
    ensures r.Some? ==> r.value.0 == Extract(p, eigen, state, sampled).bits
    ensures r.Some? ==> r.value.1 == Extract(p, eigen, state, sampled).counts
  {
    var n := p.n;
    var counts: Counts := [];
    var x: Option<seq<int>> := None;
    if Usable(eigen) {
      var best := FirstArgMax(eigen.value);
      FormatParses(best, n);
      x := ParseDigits(Format(best, n));
      counts := SynthCounts(eigen.value, n);
    }
    if x.None? {
      if !bound {
        return None;
      }
      if Usable(state) {
        var best := FirstArgMax(state.value);
        FormatParses(best, n);
        x := ParseDigits(Format(best, n));
        counts := SynthCounts(state.value, n);
      }
    }
    if x.None? && sampled.Some? {
      counts := sampled.value;
      if |counts| > 0 {
        x := ParseDigits(MostFrequent(counts));
      }
    }
    if x.None? {
      var costs := Costs(p);
      var best := FirstArgMin(costs);
      var oneHot := MakeOneHot(n, best);
      x := Some(oneHot);
      counts := [(Format(best, n), Shots)];
    }
    r := Some((x.value, counts));
  }

  class Solver {
    /** `optimization_history`: created once, with the solver. */
    var history: seq<HistoryRecord>
    /** `self.result`: the last optimiser result. */
    var result: Option<OptimizerRun>

    constructor ()
      ensures history == [] && result == None
    {
      history := [];
      result := None;
    }

    /** `callback_fn` when no callback is given: one record appended at the
        end, earlier records kept, never asks the optimiser to stop. */
    method DefaultCallback(e: Evaluation) returns (stop: bool)
      modifies this
      ensures history == old(history) + [RecordOf(e)]
      ensures result == old(result)
      ensures !stop
    {
      history := history + [RecordOf(e)];
      stop := false;
    }

    /** `compute_minimum_eigenvalue` with the callback: the default callback
        runs once per evaluation, in order; a caller's callback does not
        touch the history. The history is appended to, never reset. */
    method Optimise(hamiltonian: seq<Term>, optimizer: seq<Term> -> OptimizerRun, userCallback: bool)
      returns (run: OptimizerRun)
      modifies this
      ensures run == optimizer(hamiltonian)
      ensures history == old(history) + (if userCallback then [] else Records(run.evaluations))
      ensures result == Some(run)
    {
      run := optimizer(hamiltonian);
      if !userCallback {
        var i := 0;
        while i < |run.evaluations|
          invariant 0 <= i <= |run.evaluations|
          invariant history == old(history) + Records(run.evaluations[..i])
        {
          RecordsAppend(run.evaluations, i);
          var stop := DefaultCallback(run.evaluations[i]);
          i := i + 1;
        }
        assert run.evaluations[..i] == run.evaluations;
      }
      result := Some(run);
    }

    /** `solve`: the Hamiltonian of the problem goes to the optimiser; the
        tiers are tried in order, then the repair. The reported energy is
        the real part of the optimiser's eigenvalue, whatever the repaired
        bit string's own energy is, and the history returned is the
        solver's accumulated history. The optimiser has run, and the history
        and `self.result` are updated, even when binding the ansatz then
        raises. */
    method Solve(p: Problem, optimizer: seq<Term> -> OptimizerRun, userCallback: bool,
                 eigen: Option<seq<real>>, bound: bool, state: Option<seq<real>>, sampled: Option<Counts>)
      returns (res: Result<Outcome, SolveError>)
      requires Valid(p)
      requires sampled.Some? ==> DistinctKeys(sampled.value)
      modifies this
      ensures var run := optimizer(Terms(p.q, p.n));
        && history == old(history) + (if userCallback then [] else Records(run.evaluations))
        && result == Some(run)
        && (res.Ok? ==> res.value.energy == run.eigenvalue.re
                        && res.value.optimalParameters == run.optimalParameters
                        && res.value.history == history
                        && res.value.run == run)
      ensures res.Err? <==> !Usable(eigen) && !bound
      ensures var e := Extract(p, eigen, state, sampled);
        res.Ok? ==> res.value.bitstring == Repaired(p, e.bits) && res.value.counts == e.counts
      ensures res.Ok? ==> Sum(res.value.bitstring) == 1 && exists i :: IsOneHotAt(res.value.bitstring, i)
      ensures res.Ok? ==> DistinctKeys(res.value.counts)
    {
      var n := p.n;
      var hamiltonian := BuildHamiltonian(p.q, n);
      var run := Optimise(hamiltonian, optimizer, userCallback);
      var extracted := RunTiers(p, eigen, bound, state, sampled);
      if extracted.None? {
        return Err(CircuitUnbound);
      }
      var (x, counts) := extracted.value;
      ExtractSpec(p, eigen, state, sampled);
      if Usable(eigen) {
        SynthCountsSpec(eigen.value, n);
      } else if Usable(state) {
        SynthCountsSpec(state.value, n);
      }
      var bitstring := Repair(p, x);
      RepairedSpec(p, x);
      res := Ok(Outcome(bitstring, run.eigenvalue.re, run.optimalParameters, history, run, counts));
    }
  }
}
