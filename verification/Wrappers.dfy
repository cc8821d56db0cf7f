/** Optional values, results and rounding, as used throughout. */
module Wrappers {
  datatype Option<+T> = None | Some(value: T)

  datatype Result<+T, +E> = Ok(value: T) | Err(error: E)

  /** `align_up`: the next multiple of `align`. */
  function AlignUp(value: nat, align: nat): nat
    requires align > 0
  {
    (value + align - 1) / align * align
  }
}
