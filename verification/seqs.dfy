/** Facts about concatenation, stated on their own so that larger proofs need not rediscover them. */
module Seqs {

  /** Concatenation regroups. */
  lemma Assoc<T>(a: seq<T>, b: seq<T>, c: seq<T>)
    ensures a + b + c == a + (b + c)
  {
  }

  /** The empty sequence is a unit of concatenation. */
  lemma Unit<T>(a: seq<T>)
    ensures a + [] == a && [] + a == a
  {
  }
}
