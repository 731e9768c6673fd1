/** Option and Result wrappers, and the errors the analysis can raise. */
module Results {

  datatype Option<+T> = None | Some(value: T)

  datatype Result<+T, +E> = Ok(value: T) | Err(error: E)

  /** The two ValueErrors the processing block can raise. */
  datatype Error =
      /** float() rejected the captured literal (commas already removed). */
    | NotANumber(literal: string)
      /** A predicted-label column whose length differs from the table's row count. */
    | LengthMismatch(values: nat, rows: nat)
}
