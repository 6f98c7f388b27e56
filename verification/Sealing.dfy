/**
 A statement behind `forall k {:trigger Open(k)} :: Open(k) ==> ...` is carried along whole and is
 unfolded only where a proof mentions Open.
 */
module Sealing {
  predicate Open(k: int) {
    true
  }
}
