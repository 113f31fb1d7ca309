/** The usual optional-value datatype, and one proof step about sequences. */
module Wrappers {
  datatype Option<+T> = None | Some(value: T)

  /**
   Associativity of concatenation, a proof step rather than a property of
   the model: called as a lemma, it is proved away from the caller's facts,
   whereas the same equality asserted inline makes the solver search the
   caller's whole context for it.
   */
  lemma AppendAssoc<T>(a: seq<T>, b: seq<T>, c: seq<T>)
    ensures a + (b + c) == (a + b) + c
  {
  }
}
