/** Keeping a fact folded: under `forall k :: Asked(k) ==> P` a method can pass P on without looking inside; a lemma that
    needs P mentions Asked(0). The predicates differ in name only, so that asking for one kind of fact leaves the others
    folded: Asked for accounts of memory and clusters, Owed for what an operation leaves, Looked for the bytes of a disk,
    Placed for the place of a sector, Pair for two entries of a directory. */
module Folding {
  ghost predicate Asked(k: int) {
    true
  }

  ghost predicate Owed(k: int) {
    true
  }

  ghost predicate Looked(k: int) {
    true
  }

  ghost predicate Placed(k: int) {
    true
  }

  ghost predicate Pair(i: int, j: int) {
    true
  }
}
