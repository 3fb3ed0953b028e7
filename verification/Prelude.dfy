/** Failure-carrying values and sums of amounts, shared by the components of the model. */
module Prelude {

  datatype Option<+T> = None | Some(value: T)

  /** The `Result` of the modelled code: a value, or the error it returns. */
  datatype Result<+T, +E> = Ok(value: T) | Err(error: E)

  // ------------------------------------------------------------- amounts

  function Lesser(a: real, b: real): real {
    if a <= b then a else b
  }

  function Greater(a: real, b: real): real {
    if a >= b then a else b
  }

  function Sum(amounts: seq<real>): real {
    if amounts == [] then 0.0 else Sum(amounts[..|amounts| - 1]) + amounts[|amounts| - 1]
  }
}
