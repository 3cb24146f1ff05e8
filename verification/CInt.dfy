/** The fixed-width conversions of an LP64 Linux kernel that the driver's mixed-width expressions
    go through: 32-bit `int` and `unsigned int`, 64-bit `size_t` and `loff_t`. */
module CInt {
  const TWO_31 := 0x8000_0000
  const TWO_32 := 0x1_0000_0000
  const TWO_63 := 0x8000_0000_0000_0000
  const TWO_64 := 0x1_0000_0000_0000_0000

  /** Linux never hands a driver a larger transfer (MAX_RW_COUNT for 4096-byte pages). */
  const MAX_RW_COUNT := 0x7fff_f000

  predicate FitsInt(x: int) {
    -TWO_31 <= x < TWO_31
  }

  /** Conversion to `int`: the representative of x modulo 2^32 in the signed range. */
  function ToInt(x: int): (r: int)
    ensures FitsInt(r)
    ensures FitsInt(x) ==> r == x
    ensures exists k :: r == x + k * TWO_32
  {
    var m := x % TWO_32;
    var k := -(x / TWO_32);
    assert m == x + k * TWO_32;
    assert m - TWO_32 == x + (k - 1) * TWO_32;
    if m < TWO_31 then m else m - TWO_32
  }

  /** Conversion to `unsigned int`. */
  function ToUInt(x: int): (r: int)
    ensures 0 <= r < TWO_32
    ensures 0 <= x < TWO_32 ==> r == x
  {
    x % TWO_32
  }

  /** Conversion to `size_t`. */
  function ToULong(x: int): (r: int)
    ensures 0 <= r < TWO_64
    ensures 0 <= x < TWO_64 ==> r == x
  {
    x % TWO_64
  }

  function Min(a: int, b: int): (r: int) {
    if a <= b then a else b
  }

  function Max(a: int, b: int): (r: int) {
    if a <= b then b else a
  }
}
