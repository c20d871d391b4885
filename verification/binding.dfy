/** How Python's sqlite3 module binds an `int` parameter: only values that
    fit SQLite's signed 64-bit INTEGER can be bound; any other raises
    OverflowError before the statement runs. OverflowError is neither an
    `sqlite3.Error` nor a ValueError, so no `except` clause of the program
    catches it. */
module Binding {

  /** The smallest and largest values of SQLite's INTEGER. */
  const MinInteger: int := -0x8000_0000_0000_0000
  const MaxInteger: int := 0x7FFF_FFFF_FFFF_FFFF

  /** True when `x` can be bound as a statement parameter. */
  predicate Bindable(x: int) {
    MinInteger <= x <= MaxInteger
  }

  /** What a method that binds a caller's `int` gives back: its return value,
      or the OverflowError that escapes it. */
  datatype Call<+R> = Returns(value: R) | Overflows
}
