/**
 A way to keep the definition of an invariant out of proofs that only hand it on.
 */
module Folding {
  // True of every k.  A predicate that holds its facts under "for all k with
  // Look(k)" stays folded wherever Look is not mentioned; a proof that needs the
  // facts says `assert Look(0)`.
  predicate Look(k: int) { true }
}
