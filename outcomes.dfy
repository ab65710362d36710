/**
 * Tagged results. The source returns `ValueError` (or the pair
 * `(ValueError, "message")`) as an ordinary value where a result is expected;
 * the model keeps the two apart.
 */
module Outcomes {

  datatype Option<T> = None | Some(value: T)

  /** `Ok(v)`: the function returned `v`; `Err(m)`: it returned `(ValueError, m)`. */
  datatype Outcome<T> = Ok(value: T) | Err(msg: string)
}
