/** Small value wrappers shared by the compiler's modules. */
module Common {

  /** An optional value: stands for a nullable pointer or for end of input. */
  datatype Option<T> = None | Some(value: T)

  /** The outcome of a step that may raise one of the compiler's errors. */
  datatype Result<T, E> = Ok(value: T) | Err(error: E)

  /** Concatenation is associative; stated on its own so that proofs can use it without unfolding anything. */
  lemma AppendAssoc<T>(a: seq<T>, b: seq<T>, c: seq<T>)
    ensures (a + b) + c == a + (b + c)
  {
  }
}
