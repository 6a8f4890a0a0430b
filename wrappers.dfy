/** Option and Result: the shapes used for JavaScript's `undefined`/`NaN`
    results and for thrown errors. */
module Wrappers {
  datatype Option<+T> = None | Some(value: T)

  datatype Result<+R, +E> = Ok(value: R) | Err(error: E)
}
