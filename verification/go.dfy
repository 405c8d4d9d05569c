/** Go language facts the gvlcache package relies on: the `(value, error)`
    and panic outcomes of a call, the width of `int` and `int32`, and the
    truncating `int32(x)` conversion. `int` is taken to be 64 bits wide, as
    on every platform the service is built for.
 */
module Go {

  /** An optional value; `None` plays the part of Go's nil. */
  datatype Option<+T> = None | Some(value: T)

  /** How a Go call ends: it returns a value, or it panics with a runtime error. */
  datatype Run<+T> = Returned(value: T) | Panicked(reason: string)

  newtype byte = b: int | 0 <= b < 0x100

  const IntMin: int := -0x8000_0000_0000_0000
  const IntMax: int := 0x7fff_ffff_ffff_ffff
  const Int32Min: int := -0x8000_0000
  const Int32Max: int := 0x7fff_ffff

  /** The values a 64-bit Go `int` can hold. */
  predicate InIntRange(x: int) {
    IntMin <= x <= IntMax
  }

  /** The values a Go `int32` can hold. */
  predicate InInt32Range(x: int) {
    Int32Min <= x <= Int32Max
  }

  /** Go's conversion `int32(x)`: keep the low 32 bits of the two's-complement
      representation and read them back as a signed number. */
  function Int32Of(x: int): (r: int)
    ensures InInt32Range(r)
    ensures (x - r) % 0x1_0000_0000 == 0
    ensures InInt32Range(x) ==> r == x
  {
    var low := x % 0x1_0000_0000;
    if low <= Int32Max then low else low - 0x1_0000_0000
  }
}
