/** Go's fixed-width integers and integer division, written out over Dafny's
    unbounded `int`. */
module GoInts {

  const TWO_64: int := 0x1_0000_0000_0000_0000
  const INT64_MIN: int := -0x8000_0000_0000_0000
  const INT64_MAX: int := 0x7fff_ffff_ffff_ffff

  predicate IsInt64(x: int) {
    INT64_MIN <= x <= INT64_MAX
  }

  /** Values of a Go `int64`. */
  type Int64 = x: int | INT64_MIN <= x <= INT64_MAX

  /** Values of a Go `int8`. */
  type Int8 = x: int | -128 <= x <= 127

  predicate IsInt8(x: int) {
    -128 <= x <= 127
  }

  predicate IsUint8(x: int) {
    0 <= x <= 255
  }

  /** Two's-complement wrap-around of an int64 arithmetic result: the unique
      int64 congruent to `x` modulo 2^64. */
  function Wrap64(x: int): (r: int)
    ensures IsInt64(r)
    ensures (x - r) % TWO_64 == 0 && (r - x) % TWO_64 == 0
    ensures IsInt64(x) ==> r == x
  {
    var m := (x - INT64_MIN) % TWO_64;
    var q := (x - INT64_MIN) / TWO_64;
    assert x - (m + INT64_MIN) == TWO_64 * q;
    assert (m + INT64_MIN) - x == TWO_64 * -q;
    m + INT64_MIN
  }
}
