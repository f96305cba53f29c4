// What every part of the model shares.
module Basics {

  datatype Option<T> = None | Some(value: T)

  datatype Result<T, E> = Ok(value: T) | Err(error: E)

  const U32 := 0x1_0000_0000

  type u32 = x: int | 0 <= x < 0x1_0000_0000
}
