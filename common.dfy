/** Failure-carrying values shared by every module of the model. */
module Common {

  datatype Option<+T> = None | Some(value: T)

  datatype Result<+T, +E> = Ok(value: T) | Err(error: E)

  /** The Python exceptions the dice engine can raise, plus one that only the
      model has: the injected sequence of random draws ran out. */
  datatype Raised =
    | ValueError   // random.randint(1, 0): empty range
    | IndexError   // a list indexed past its end
    | SyntaxError  // eval of text that is not +/- integer arithmetic
    | OutOfDraws   // the model's finite random source is exhausted

  function Max(a: int, b: int): int { if a >= b then a else b }

  function Min(a: int, b: int): int { if a <= b then a else b }
}
