/**
 * A guard for large invariants. Some of them are conjunctions with many quantified parts: Wired of the
 * ordered map (list, chains and keys fit together), Recorded of a cascade (all that is recorded of its
 * operators) and Walking of the listing of operators are the largest. Most proofs hand such an invariant on as a
 * whole, and in their context the parts would be instantiated without end. So each is stated as "for all n, if
 * Look(n) then the parts", which says the same, as Look holds of every number. The parts take effect only in a
 * proof that mentions Look, with `assert Look(0)`.
 */
module Folding {

  /** Always true: mentioning it lets a proof look into a guarded invariant. */
  ghost predicate Look(n: int) {
    n == n
  }
}
