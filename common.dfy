/** Small shared definitions: optional values, results with an error, and the
    fixed-width unsigned integer types of the game's C++ code. */
module Common {

  /** A value that may be absent (a null pointer or a missing table entry). */
  datatype Option<+T> = None | Some(value: T) {
    function GetOr(default: T): T {
      if Some? then value else default
    }
  }

  /** The outcome of an operation that may throw: a value or the error thrown. */
  datatype Result<+T, +E> = Ok(value: T) | Err(error: E)

  /** The outcome of an operation that may throw but returns nothing. */
  datatype Outcome<+E> = Pass | Fail(error: E)

  /** `unsigned short` */
  type u16 = x: int | 0 <= x < 0x1_0000

  /** `unsigned int` */
  type u32 = x: int | 0 <= x < 0x1_0000_0000

  function Abs(z: int): nat {
    if z < 0 then -z else z
  }

  /** C++ conversion of an integer to `unsigned short`: reduction modulo 2^16. */
  function ToU16(x: int): (r: u16)
    ensures (x - r) % 0x1_0000 == 0
    ensures 0 <= x < 0x1_0000 ==> r == x
  {
    x % 0x1_0000
  }
}
