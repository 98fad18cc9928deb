/** Types that several components share. */
module Basics {

  type Byte = x: int | 0 <= x < 256

  datatype Option<T> = None | Some(value: T)

  /** What a call that may raise an error gives back. */
  datatype Result<T> = Ok(value: T) | Err
}
