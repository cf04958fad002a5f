/** `VQESolver.solve` of quantum_aegis/solvers/quantum/vqe.py around the
    external optimiser: the default history callback, sampling first and
    the statevector second, the counts table and the one-hot repair. A
    failure of the statevector fallback is not caught by `solve`, and
    neither is a failure to bind the optimal parameters, decompose the
    circuit or build the simulator, which happens before the `try`; here
    each is an error result. */
module Vqe {
  import opened Wrappers
  import opened Vectors
  import opened Bits
  import opened Qubo
  import opened Hamiltonian
  import opened Variational

  /** The exceptions that escape `solve`: the circuit cannot be bound,
      decomposed or given a simulator, or the statevector fallback raises
      too. */
  datatype SolveError = CircuitUnbound | StatevectorUnavailable

  /** Sampling, and when it raises the statevector; None when both raise.
      There is no heuristic tier. */
  function Extract(n: nat, sampled: Option<Counts>, state: Option<seq<real>>): Option<Extraction> {
    if sampled.Some? && SampledBits(sampled.value).Some? then
      Some(Extraction(SampledBits(sampled.value).value, sampled.value, Sampled))
    else if Usable(state) then Some(FromProbabilities(state.value, n, Statevector))
    else None
  }

  /** Sampling wins whenever the most frequent key parses; the statevector
      is used only otherwise; nothing is extracted only when both fail; every
      extraction yields non-negative digits. */
  lemma {:induction false} ExtractSpec(n: nat, sampled: Option<Counts>, state: Option<seq<real>>)
    ensures var e := Extract(n, sampled, state);
      && (e.None? <==> (sampled.None? || SampledBits(sampled.value).None?) && !Usable(state))
      && (e.Some? ==> e.value.tier != Heuristic && e.value.tier != Eigenstate && NonNegative(e.value.bits))
      && (e.Some? && e.value.tier == Sampled <==> sampled.Some? && SampledBits(sampled.value).Some?)
    ensures var e := Extract(n, sampled, state);
      e.Some? && e.value.tier == Sampled ==>
        e.value.counts == sampled.value && Some(e.value.bits) == ParseDigits(MostFrequent(sampled.value))
    ensures var e := Extract(n, sampled, state);
      e.Some? && e.value.tier == Statevector ==>
        Value(e.value.bits) == FirstArgMax(state.value) && e.value.counts == SynthCounts(state.value, n)
        && (n >= 1 && |state.value| <= Pow2(n) ==> |e.value.bits| == n)
  {
    if !(sampled.Some? && SampledBits(sampled.value).Some?) && Usable(state) {
      ArgMaxBitsSpec(state.value, n);
    }
  }

  /** The try/except of `solve`: the sampled counts and their most frequent
      key, or on any exception the statevector's argmax and synthesised
      counts; None when the statevector raises as well. */
  method RunTiers(n: nat, sampled: Option<Counts>, state: Option<seq<real>>)
    returns (r: Option<(seq<int>, Counts)>)
    ensures Extract(n, sampled, state).None? <==> r.None?
    ensures r.Some? ==> (r.value.0 == Extract(n, sampled, state).value.bits
      && r.value.1 == Extract(n, sampled, state).value.counts)
  {
    var counts: Counts := [];
    var x: Option<seq<int>> := None;
    if sampled.Some? {
      counts := sampled.value;
      if |counts| > 0 {
        x := ParseDigits(MostFrequent(counts));
      }
    }
    if x.None? {
      if !Usable(state) {
        return None;
      }
      var best := FirstArgMax(state.value);
      FormatParses(best, n);
      x := ParseDigits(Format(best, n));
      counts := SynthCounts(state.value, n);
    }
    r := Some((x.value, counts));
  }

  class Solver {
    /** `optimization_history`: created once, with the solver. */
    var history: seq<HistoryRecord>
    /** `self.result`: the last optimiser result. */
    var result: Option<OptimizerRun>

    constructor ()
      ensures history == [] && result == None
    {
      history := [];
      result := None;
    }

    /** `callback_fn` when no callback is given: one record appended at the
        end, earlier records kept, never asks the optimiser to stop. */
    method DefaultCallback(e: Evaluation) returns (stop: bool)
      modifies this
      ensures history == old(history) + [RecordOf(e)]
      ensures result == old(result)
      ensures !stop
    {
      history := history + [RecordOf(e)];
      stop := false;
    }

    /** `compute_minimum_eigenvalue` with the callback: the default callback
        runs once per evaluation, in order; a caller's callback does not
        touch the history. The history is appended to, never reset. */
    method Optimise(hamiltonian: seq<Term>, optimizer: seq<Term> -> OptimizerRun, userCallback: bool)
      returns (run: OptimizerRun)
      modifies this
      ensures run == optimizer(hamiltonian)
      ensures history == old(history) + (if userCallback then [] else Records(run.evaluations))
      ensures result == Some(run)
    {
      run := optimizer(hamiltonian);
      if !userCallback {
        var i := 0;
        while i < |run.evaluations|
          invariant 0 <= i <= |run.evaluations|
          invariant history == old(history) + Records(run.evaluations[..i])
        {
          RecordsAppend(run.evaluations, i);
          var stop := DefaultCallback(run.evaluations[i]);
          i := i + 1;
        }
        assert run.evaluations[..i] == run.evaluations;
      }
      result := Some(run);
    }

    /** `solve`: the optimiser runs (and records its history) before the
        circuit is bound and the extraction runs, so the history and
        `self.result` are updated even when either then raises. The reported
        energy is the real part of the optimiser's eigenvalue. */
    method Solve(p: Problem, optimizer: seq<Term> -> OptimizerRun, userCallback: bool,
                 bound: bool, sampled: Option<Counts>, state: Option<seq<real>>)
      returns (res: Result<Outcome, SolveError>)
      requires Valid(p)
      requires sampled.Some? ==> DistinctKeys(sampled.value)
      modifies this
      ensures var run := optimizer(Terms(p.q, p.n));
        && history == old(history) + (if userCallback then [] else Records(run.evaluations))
        && result == Some(run)
        && (res.Ok? ==> res.value.energy == run.eigenvalue.re
                        && res.value.optimalParameters == run.optimalParameters
                        && res.value.history == history
                        && res.value.run == run)
      ensures var e := Extract(p.n, sampled, state);
        && (res == Err(CircuitUnbound) <==> !bound)
        && (res == Err(StatevectorUnavailable) <==> bound && e.None?)
        && (res.Ok? ==> res.value.bitstring == Repaired(p, e.value.bits) && res.value.counts == e.value.counts)
      ensures res.Ok? ==> Sum(res.value.bitstring) == 1 && exists i :: IsOneHotAt(res.value.bitstring, i)
      ensures res.Ok? ==> DistinctKeys(res.value.counts)
    {
      var n := p.n;
      var hamiltonian := BuildHamiltonian(p.q, n);
      var run := Optimise(hamiltonian, optimizer, userCallback);
      if !bound {
        return Err(CircuitUnbound);
      }
      var extracted := RunTiers(n, sampled, state);
      if extracted.None? {
        return Err(StatevectorUnavailable);
      }
      var (x, counts) := extracted.value;
      ExtractSpec(n, sampled, state);
      if Usable(state) {
        SynthCountsSpec(state.value, n);
      }
      var bitstring := Repair(p, x);
      RepairedSpec(p, x);
      res := Ok(Outcome(bitstring, run.eigenvalue.re, run.optimalParameters, history, run, counts));
    }
  }
}
