/** The deterministic post-processing that QAOASolver.solve and VQESolver.solve
    (quantum_aegis/solvers/quantum/) share around the external optimiser:
    the history records written by the default callback, the counts table
    synthesised from a probability vector, the most frequent sampled key,
    the argmax bit string and the one-hot repair. */
module Variational {
  import opened Wrappers
  import opened Vectors
  import opened Bits
  import opened Qubo

  /** Shots of a sampling run, and the weight of a synthesised counts table. */
  const Shots: int := 1024

  /** Probabilities not above 1e-10 get no counts entry. */
  const ProbabilityFloor: real := 0.0000000001

  /** A counts dictionary: (bit-string key, count) entries in insertion order. */
  type Counts = seq<(string, int)>

  /** A dictionary holds each key at most once. */
  predicate DistinctKeys(c: Counts) {
    forall a, b :: 0 <= a < b < |c| ==> c[a].0 != c[b].0
  }

  /** The complex eigenvalue the optimiser reports. */
  datatype Complex = Complex(re: real, im: real)

  /** The arguments of one optimiser callback: `eval_count`, `parameters`
      and `mean` (the `metadata` argument is not used). */
  datatype Evaluation = Evaluation(evalCount: int, parameters: seq<real>, mean: real)

  /** One entry of `optimization_history`. */
  datatype HistoryRecord = HistoryRecord(iteration: int, energy: real, parameters: seq<real>)

  /** What `compute_minimum_eigenvalue` yields: the callbacks it made, in
      order, its eigenvalue and its optimal parameters. */
  datatype OptimizerRun = OptimizerRun(evaluations: seq<Evaluation>, eigenvalue: Complex, optimalParameters: seq<real>)

  /** The dictionary `solve` returns. */
  datatype Outcome = Outcome(
    bitstring: seq<int>,
    energy: real,
    optimalParameters: seq<real>,
    history: seq<HistoryRecord>,
    run: OptimizerRun,
    counts: Counts
  )

  /** Which extraction produced the bit string. */
  datatype Tier = Eigenstate | Statevector | Sampled | Heuristic

  datatype Extraction = Extraction(bits: seq<int>, counts: Counts, tier: Tier)

  // ---------------------------------------------------------------------
  // history

  /** The record the default callback appends for one evaluation. */
  function RecordOf(e: Evaluation): HistoryRecord {
    HistoryRecord(e.evalCount, e.mean, e.parameters)
  }

  /** The records of a run of evaluations, one per evaluation, in order. */
  function Records(evals: seq<Evaluation>): (rs: seq<HistoryRecord>)
    ensures |rs| == |evals|
    ensures forall i :: 0 <= i < |evals| ==> rs[i].iteration == evals[i].evalCount
    ensures forall i :: 0 <= i < |evals| ==> rs[i].energy == evals[i].mean
    ensures forall i :: 0 <= i < |evals| ==> rs[i].parameters == evals[i].parameters
  {
    if |evals| == 0 then [] else Records(evals[..|evals| - 1]) + [RecordOf(evals[|evals| - 1])]
  }

  /** Recording one more evaluation appends one record and keeps the rest. */
  lemma {:induction false} RecordsAppend(evals: seq<Evaluation>, k: nat)
    requires k < |evals|
    ensures Records(evals[..k + 1]) == Records(evals[..k]) + [RecordOf(evals[k])]
  {
    assert evals[..k + 1][..k] == evals[..k];
  }

  /** Two solves in a row: the history of both runs is the concatenation. */
  lemma {:induction false} RecordsConcat(a: seq<Evaluation>, b: seq<Evaluation>)
    ensures Records(a + b) == Records(a) + Records(b)
    decreases |b|
  {
    if |b| > 0 {
      var b' := b[..|b| - 1];
      assert (a + b)[..|a + b| - 1] == a + b';
      RecordsConcat(a, b');
    } else {
      assert a + b == a;
    }
  }

  // ---------------------------------------------------------------------
  // counts synthesised from a probability vector

  /** `int(p * 1024)`: truncation, which is the floor for the positive
      probabilities that get an entry. */
  function CountOf(prob: real): int {
    (prob * (Shots as real)).Floor
  }

  /** The entry of index i: its N-bit key and its count. */
  function Entry(probs: seq<real>, n: nat, i: nat): (string, int)
    requires i < |probs|
  {
    (Format(i, n), CountOf(probs[i]))
  }

  function SynthCountsTo(probs: seq<real>, n: nat, k: nat): (c: Counts)
    requires k <= |probs|
    ensures |c| <= k
  {
    if k == 0 then []
    else SynthCountsTo(probs, n, k - 1)
         + (if probs[k - 1] > ProbabilityFloor then [Entry(probs, n, k - 1)] else [])
  }

  /** `{format(i, '0Nb'): int(probs[i] * 1024) for i in range(len(probs)) if probs[i] > 1e-10}`:
      at most one entry per probability. */
  function SynthCounts(probs: seq<real>, n: nat): (c: Counts)
    ensures |c| <= |probs|
  {
    SynthCountsTo(probs, n, |probs|)
  }

  lemma {:induction false} SynthCountsToSpec(probs: seq<real>, n: nat, k: nat)
    requires k <= |probs|
    ensures forall e :: e in SynthCountsTo(probs, n, k) <==>
      exists i :: 0 <= i < k && probs[i] > ProbabilityFloor && e == Entry(probs, n, i)
    ensures DistinctKeys(SynthCountsTo(probs, n, k))
  {
    if k > 0 {
      SynthCountsToSpec(probs, n, k - 1);
      var c := SynthCountsTo(probs, n, k - 1);
      if probs[k - 1] > ProbabilityFloor {
        var c' := c + [Entry(probs, n, k - 1)];
        forall a | 0 <= a < |c| ensures c[a].0 != Format(k - 1, n) {
          assert c[a] in c;
          var i :| 0 <= i < k - 1 && probs[i] > ProbabilityFloor && c[a] == Entry(probs, n, i);
          if c[a].0 == Format(k - 1, n) {
            FormatInjective(i, k - 1, n);
          }
        }
        assert forall a, b :: 0 <= a < b < |c'| ==> c'[a].0 != c'[b].0 by {
          forall a, b | 0 <= a < b < |c'| ensures c'[a].0 != c'[b].0 {
            if b == |c| {
              assert c'[a] == c[a];
            } else {
              assert c'[a] == c[a] && c'[b] == c[b];
            }
          }
        }
      }
    }
  }

  /** The synthesised table holds exactly one entry per index whose
      probability is above 1e-10, keyed by `format(i, '0Nb')` with value
      ⌊1024 p_i⌋, and no key twice. */
  lemma {:induction false} SynthCountsSpec(probs: seq<real>, n: nat)
    ensures forall e :: e in SynthCounts(probs, n) <==>
      exists i :: 0 <= i < |probs| && probs[i] > ProbabilityFloor && e == Entry(probs, n, i)
    ensures DistinctKeys(SynthCounts(probs, n))
  {
    SynthCountsToSpec(probs, n, |probs|);
  }

  // ---------------------------------------------------------------------
  // picking a bit string

  /** `np.argmax(probs)` formatted with N bits and read digit by digit. */
  function ArgMaxBits(probs: seq<real>, n: nat): seq<int>
    requires |probs| > 0
  {
    BitsOf(FirstArgMax(probs), n)
  }

  /** The argmax bit string is a 0/1 list encoding the first most probable
      index, most significant bit first, with N bits when the vector has at
      most 2^N entries. */
  lemma {:induction false} ArgMaxBitsSpec(probs: seq<real>, n: nat)
    requires |probs| > 0
    ensures var best := FirstArgMax(probs);
      && IsBinary(ArgMaxBits(probs, n))
      && Value(ArgMaxBits(probs, n)) == best
      && (forall j :: 0 <= j < |probs| ==> probs[j] <= probs[best])
      && (forall j :: 0 <= j < best ==> probs[j] < probs[best])
    ensures n >= 1 && |probs| <= Pow2(n) ==> |ArgMaxBits(probs, n)| == n
  {
    BitsOfRoundTrip(FirstArgMax(probs), n);
  }

  function CountValues(c: Counts): (v: seq<real>)
    ensures |v| == |c| && forall i :: 0 <= i < |c| ==> v[i] == c[i].1 as real
  {
    seq(|c|, i requires 0 <= i < |c| => c[i].1 as real)
  }

  /** Entry i holds a largest count, and every earlier entry a smaller one. */
  ghost predicate IsFirstMostFrequent(c: Counts, i: int) {
    && 0 <= i < |c|
    && (forall j :: 0 <= j < |c| ==> c[j].1 <= c[i].1)
    && (forall j :: 0 <= j < i ==> c[j].1 < c[i].1)
  }

  /** `max(counts, key=counts.get)`: the first key, in insertion order, with
      the largest count. */
  function MostFrequent(c: Counts): (key: string)
    requires |c| > 0
    ensures exists i :: IsFirstMostFrequent(c, i) && c[i].0 == key
  {
    var i := FirstArgMax(CountValues(c));
    assert IsFirstMostFrequent(c, i);
    c[i].0
  }

  /** The sampling tier: `[int(b) for b in max(counts, key=counts.get)]`;
      None where Python raises (no counts, or a non-digit character). */
  function SampledBits(c: Counts): (r: Option<seq<int>>)
    ensures r.Some? ==> |c| > 0 && NonNegative(r.value)
    ensures r.Some? ==> exists i :: (IsFirstMostFrequent(c, i) && |r.value| == |c[i].0|
      && forall k :: 0 <= k < |c[i].0| ==> r.value[k] == c[i].0[k] as int - '0' as int)
    ensures |c| > 0 ==> (r.None? <==> exists k :: 0 <= k < |MostFrequent(c)| && !IsDigit(MostFrequent(c)[k]))
  {
    if |c| == 0 then None else ParseDigits(MostFrequent(c))
  }

  /** A probability tier succeeds when the vector exists and `np.argmax`
      does not raise, i.e. it is not empty. */
  predicate Usable(probs: Option<seq<real>>) {
    probs.Some? && |probs.value| > 0
  }

  function FromProbabilities(probs: seq<real>, n: nat, tier: Tier): (e: Extraction)
    requires |probs| > 0
    ensures e.bits == BitsOf(FirstArgMax(probs), n) && e.counts == SynthCounts(probs, n) && e.tier == tier
  {
    Extraction(ArgMaxBits(probs, n), SynthCounts(probs, n), tier)
  }

  // ---------------------------------------------------------------------
  // the one-hot repair

  /** `if np.sum(x) != 1`: the one-hot vector at the first index of least
      combined cost replaces x; otherwise x stays. */
  function Repaired(p: Problem, x: seq<int>): seq<int>
    requires Shaped(p) && p.n >= 1
  {
    if Sum(x) != 1 then OneHotSeq(p.n, FirstArgMin(Costs(p))) else x
  }

  /** The repair as written: a zero vector with one cell set in place. */
  method Repair(p: Problem, x: seq<int>) returns (r: seq<int>)
    requires Shaped(p) && p.n >= 1
    ensures r == Repaired(p, x)
  {
    r := x;
    if Sum(x) != 1 {
      var costs := Costs(p);
      var best := FirstArgMin(costs);
      r := MakeOneHot(p.n, best);
    }
  }

  /** After the repair the bit string of non-negative digits has exactly one
      1; it is unchanged when it already summed to 1, and otherwise it is the
      one-hot vector of length N at the first cheapest target. */
  lemma {:induction false} RepairedSpec(p: Problem, x: seq<int>)
    requires Shaped(p) && p.n >= 1 && NonNegative(x)
    ensures Sum(Repaired(p, x)) == 1 && exists i :: IsOneHotAt(Repaired(p, x), i)
    ensures Sum(x) == 1 ==> Repaired(p, x) == x
    ensures Sum(x) != 1 ==> exists b :: (IsOneHotAt(Repaired(p, x), b) && |Repaired(p, x)| == p.n
      && (forall j :: 0 <= j < p.n ==> Cost(p, b) <= Cost(p, j))
      && (forall j :: 0 <= j < b ==> Cost(p, b) < Cost(p, j)))
  {
    var r := Repaired(p, x);
    if Sum(x) == 1 {
      SumOneIsOneHot(x);
    } else {
      var b := FirstArgMin(Costs(p));
      OneHotSum(r, b);
    }
  }
}
