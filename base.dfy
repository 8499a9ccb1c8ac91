/** Shared building blocks: nullable values, results with an error, and the
    64-bit integer range of C#'s `long`. */
module Base {

  /** A C# reference or nullable value: `None` stands for null. */
  datatype Option<+T> = None | Some(value: T)

  /** The value of an operation that either succeeds or raises an exception. */
  datatype Result<+T, +E> = Success(value: T) | Failure(error: E)

  const MinInt64: int := -0x8000_0000_0000_0000
  const MaxInt64: int := 0x7FFF_FFFF_FFFF_FFFF

  /** C#'s `long`. */
  type int64 = x: int | -0x8000_0000_0000_0000 <= x <= 0x7FFF_FFFF_FFFF_FFFF

  /** C#'s `int`. */
  type int32 = x: int | -0x8000_0000 <= x <= 0x7FFF_FFFF

  predicate InInt64Range(x: int) {
    MinInt64 <= x <= MaxInt64
  }
}
