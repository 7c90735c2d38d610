/** Small shared vocabulary: nullable values, error results and Kotlin's 32-bit Int. */
module Common {

  /** A Kotlin nullable value (`T?`). */
  datatype Option<T> = None | Some(value: T)

  /** The outcome of a database statement that SQLite may reject. */
  datatype Result<T, E> = Ok(value: T) | Err(error: E)

  const MinInt32: int := -0x8000_0000
  const MaxInt32: int := 0x7fff_ffff

  /** Kotlin's `Long.toInt()`: keep the low 32 bits, read them as a signed value. */
  function ToInt32(x: int): (r: int)
    ensures MinInt32 <= r <= MaxInt32
    ensures (x - r) % 0x1_0000_0000 == 0
    ensures MinInt32 <= x <= MaxInt32 ==> r == x
  {
    var low := x % 0x1_0000_0000;
    if low <= MaxInt32 then low else low - 0x1_0000_0000
  }
}
