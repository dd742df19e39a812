/** The values a pandas cell of the screener table can hold. */
module Cells {

  /** `Missing` is NumPy's NaN (a Python float); `Null` is Python's `None`. */
  datatype Cell = Str(s: string) | Int(i: int) | Num(x: real) | Missing | Null
  {
    /** `type(v) == float` / `isinstance(v, float)`: a float value, NaN included. */
    predicate IsFloat() { Num? || Missing? }
  }
}
