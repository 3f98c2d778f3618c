/** C#'s `int`: 32-bit two's complement, with the default unchecked arithmetic,
    in which an overflowing product silently wraps around. */
module Int32 {

  const TwoTo31: int := 0x8000_0000
  const TwoTo32: int := 0x1_0000_0000

  newtype int32 = x: int | -0x8000_0000 <= x < 0x8000_0000

  /** The 32-bit value unchecked arithmetic leaves of the mathematical result `x`:
      the one value of the signed range congruent to `x` modulo 2^32. */
  function Wrap(x: int): (w: int32)
    ensures (x - w as int) % TwoTo32 == 0
    ensures -TwoTo31 <= x < TwoTo31 ==> w as int == x
  {
    var q := (x + TwoTo31) / TwoTo32;
    assert x - ((x + TwoTo31) % TwoTo32 - TwoTo31) == q * TwoTo32;
    ((x + TwoTo31) % TwoTo32 - TwoTo31) as int32
  }
}
