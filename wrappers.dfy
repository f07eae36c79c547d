/** Option and Result values for the places where the original code yields
    `null`, `undefined`, `NaN` or aborts with an alert. */
module Wrappers {

  datatype Option<+T> = None | Some(value: T)

  datatype Result<+T, +E> = Ok(value: T) | Err(error: E)
}
