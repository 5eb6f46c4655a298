/** Facts about sequences that the other modules share. */
module Seqs {

  /** Concatenation regroups freely; stated once so that proofs need not search for it. */
  lemma Regroup<T>(x: seq<T>, y: seq<T>, z: seq<T>)
    ensures x + (y + z) == (x + y) + z
  {
  }
}
