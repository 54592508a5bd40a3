/** Facts about sequences that the encoders' proofs use to regroup appends. */
module Seqs {
  /** Appending is associative; stated as a lemma so that a proof can name the grouping it needs. */
  lemma Assoc<T>(a: seq<T>, b: seq<T>, c: seq<T>)
    ensures a + b + c == a + (b + c)
  {
  }
}
