/** Values that flow through the report pipeline: a spreadsheet cell and the
    small wrapper types the other modules share. */
module Cells {

  datatype Option<+T> = None | Some(value: T)

  datatype Result<+R, +E> = Success(value: R) | Failure(error: E)

  /** One cell of the uploaded sheet as the table library holds it: text,
      an already-numeric value, or a missing value (NaN / empty cell). */
  datatype Cell = Str(s: string) | Num(x: real) | Null
}
