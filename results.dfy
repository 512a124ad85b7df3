/** Failure-compatible result types and the ways in which building a profile can fail. */
module Results {

  /** What goes wrong in the profile pipeline, one constructor per exception the code can raise. */
  datatype Error =
    | MissingElement   // a single-element lookup found nothing and `None` was used: an attribute read, or the subscript `None['title']`
    | NoAddressLine    // an address block without any text line was indexed
    | MalformedRating  // `float` rejected the rating prefix of a star-rating title
    | LengthMismatch   // a column was assigned a list whose length differs from the table's
    | MalformedHref    // a friend link without a second `=`-separated part was indexed
    | MissingColumn    // a column was read from a frame that has no columns (`KeyError`)

  datatype Result<+T> = Ok(value: T) | Err(error: Error) {
    predicate IsFailure() { Err? }

    function PropagateFailure<U>(): Result<U>
      requires Err?
    {
      Err(error)
    }

    function Extract(): T
      requires Ok?
    {
      value
    }
  }

  datatype Option<+T> = None | Some(value: T)

  function Min(a: int, b: int): int { if a <= b then a else b }

  function Max(a: int, b: int): int { if a <= b then b else a }
}
