/** The fixed-width integers of the program, as unbounded integers with
    the wrap-around written out. */
module MachineInts {

  /** Number of values of a 32-bit unsigned integer. */
  const Uint32Limit: nat := 0x1_0000_0000

  /** Largest 32-bit unsigned value, the "undefined" marker of an extent. */
  const Uint32Max: nat := 0xFFFF_FFFF

  /** Lowest and highest values of a 32-bit signed integer. */
  const Int32Min: int := -0x8000_0000
  const Int32Max: int := 0x7FFF_FFFF

  /** Unsigned 32-bit arithmetic: the result modulo 2^32. */
  function Wrap32(x: int): (r: nat)
    ensures r < Uint32Limit
    ensures 0 <= x < Uint32Limit ==> r == x
    ensures (x - r) % Uint32Limit == 0
  {
    x % Uint32Limit
  }

  /** Storing an integer in a 32-bit signed variable: two's complement
      wrap-around into [-2^31, 2^31). */
  function AsInt32(x: int): (r: int)
    ensures Int32Min <= r <= Int32Max
    ensures Int32Min <= x <= Int32Max ==> r == x
    ensures (x - r) % Uint32Limit == 0
  {
    var m := x % Uint32Limit;
    if m <= Int32Max then m else m - Uint32Limit
  }
}
