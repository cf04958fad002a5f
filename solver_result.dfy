/** The dictionary the classical solvers return, without its wall-clock
    `elapsed_time` entry. */
module SolverResult {
  datatype Solution = Solution(bitstring: seq<int>, energy: real, methodName: string)
}
