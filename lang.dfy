/** Stand-ins for the Go language features the routing core leans on:
    nil-able values, panics, the empty interface, and fixed-width integers. */
module Lang {

  /** A Go value that may be nil. */
  datatype Option<+T> = None | Some(value: T)

  /** The result of a Go call that either returns or panics with a message. */
  datatype Outcome<+T> = Ok(value: T) | Panic(message: string)

  /** A value stored under `interface{}` (the context's key/value bag). */
  datatype Value = Nil | Str(s: string) | Bool(b: bool) | Int(i: int)

  /** Conversion to Go's `int8`: two's-complement wrap-around into [-128, 127]. */
  function Int8(x: int): (r: int)
    ensures -128 <= r < 128
    ensures (r - x) % 256 == 0
    ensures -128 <= x < 128 ==> r == x
  {
    (x + 128) % 256 - 128
  }

  /** Go's `i++` on an `int8`: 127 wraps round to -128. */
  function Inc8(i: int): (r: int)
    requires -128 <= i < 128
    ensures -128 <= r < 128
    ensures i < 127 ==> r == i + 1
    ensures i == 127 ==> r == -128
  {
    if i == 127 then -128 else i + 1
  }

  /** The increment is the conversion of the successor. */
  lemma Inc8IsInt8(i: int)
    requires -128 <= i < 128
    ensures Inc8(i) == Int8(i + 1)
  {
  }

  /** Go's `n--` on a `uint8`: 0 wraps round to 255. */
  function Dec8(n: nat): (r: nat)
    requires n < 256
    ensures r < 256
    ensures n > 0 ==> r + 1 == n
    ensures n == 0 ==> r == 255
  {
    if n == 0 then 255 else n - 1
  }

  function Max(a: nat, b: nat): (r: nat)
    ensures r >= a && r >= b && (r == a || r == b)
  {
    if a >= b then a else b
  }
}
