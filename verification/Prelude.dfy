/** Types shared by the models. */
module Prelude {

  datatype Option<+T> = None | Some(value: T)

  datatype Result<+T, +E> = Ok(value: T) | Err(error: E)

  type i32 = x: int | -0x8000_0000 <= x < 0x8000_0000

  type i64 = x: int | -0x8000_0000_0000_0000 <= x < 0x8000_0000_0000_0000

  type u32 = x: int | 0 <= x < 0x1_0000_0000

  type u8 = x: int | 0 <= x < 0x100

  function Clamp(x: int, lo: int, hi: int): int {
    if x < lo then lo else if x > hi then hi else x
  }

  function Least(a: nat, b: nat): nat {
    if a < b then a else b
  }
}
