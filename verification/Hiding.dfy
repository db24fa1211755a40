/**
 A guard for class invariants and loop states. A predicate defined as
   forall k {:trigger Open(k)} :: Open(k) ==> ...
 is carried from call to call without its definition entering the proof; a proof
 that needs the definition says `assert Open(0)`.
 */
module Hiding {
  ghost predicate Open(k: int) {
    true
  }

  /** A second guard, for a predicate that gathers predicates guarded by Open. */
  ghost predicate Ajar(k: int) {
    true
  }
}
