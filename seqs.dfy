/** Sequence facts the report proofs lean on. */
module Sequences {
  /** Appending `here` now and `rest` later appends `here + rest`. */
  lemma Appended<T>(before: seq<T>, here: seq<T>, rest: seq<T>)
    ensures (before + here) + rest == before + (here + rest)
  {
  }
}
