/** Putting pieces of sequences together. */
module Sequences {
  /** What a loop has gathered, what it adds now, and what is still to come. */
  lemma Regroup<T>(gathered: seq<T>, more: seq<T>, rest: seq<T>)
    ensures gathered + (more + rest) == (gathered + more) + rest
  {
  }
}
