/** `GreedySolver.solve` of quantum_aegis/solvers/classical/greedy.py: the
    one-hot vector at the first index of least combined cost αR_i + βD_i. */
module Greedy {
  import opened Wrappers
  import opened Vectors
  import opened Qubo
  import opened SolverResult

  /** `solve`: argmin of the cost vector (the lowest index on ties), a zero
      vector with that one cell set, and its energy from `evaluate`. */
  method Solve(p: Problem) returns (s: Solution)
    requires Valid(p)
    ensures s.methodName == "greedy"
    ensures |s.bitstring| == p.n && IsBinary(s.bitstring)
    ensures exists b :: IsOneHotAt(s.bitstring, b) && IsFirstCheapest(p, b)
    ensures s.energy == Energy(p, s.bitstring)
    ensures forall i :: 0 <= i < p.n ==> s.energy <= Energy(p, OneHotSeq(p.n, i))
  {
    var costs := Costs(p);
    var best := FirstArgMin(costs);
    var x := MakeOneHot(p.n, best);
    var r := Evaluate(p, x);
    s := Solution(x, r.value, "greedy");
    GreedyIsBestOneHot(p, best);
  }

  /** b has the least combined cost, and every earlier index costs strictly more. */
  ghost predicate IsFirstCheapest(p: Problem, b: nat)
    requires Shaped(p)
  {
    && b < p.n
    && (forall j :: 0 <= j < p.n ==> Cost(p, b) <= Cost(p, j))
    && (forall j :: 0 <= j < b ==> Cost(p, b) < Cost(p, j))
  }

  /** The first argmin is the first cheapest index, and its one-hot vector
      has the least energy among all one-hot vectors of length N. */
  lemma {:induction false} GreedyIsBestOneHot(p: Problem, b: nat)
    requires Shaped(p) && p.n >= 1 && b == FirstArgMin(Costs(p))
    ensures IsFirstCheapest(p, b)
    ensures Energy(p, OneHotSeq(p.n, b)) == Cost(p, b)
    ensures forall i :: 0 <= i < p.n ==> Energy(p, OneHotSeq(p.n, b)) <= Energy(p, OneHotSeq(p.n, i))
  {
    OneHotEnergy(p, b);
    forall i | 0 <= i < p.n ensures Energy(p, OneHotSeq(p.n, b)) <= Energy(p, OneHotSeq(p.n, i)) {
      OneHotEnergy(p, i);
    }
  }

  /** Ties go to the lowest index: two first-cheapest indices coincide. */
  lemma {:induction false} FirstCheapestUnique(p: Problem, b1: nat, b2: nat)
    requires Shaped(p) && IsFirstCheapest(p, b1) && IsFirstCheapest(p, b2)
    ensures b1 == b2
  {
    assert Cost(p, b1) <= Cost(p, b2) && Cost(p, b2) <= Cost(p, b1);
  }
}
