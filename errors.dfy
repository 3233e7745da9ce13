/** Option and Result types and the error conditions the InterVA5 code raises. */
module Errors {

  datatype Option<+T> = None | Some(value: T)

  /** The exceptions of interva/interva5.py that the model keeps, one constructor each. */
  datatype Error =
    | InvalidSci                        // the symptom-cause table is not 354 x 87
    | NoData                            // the input has no record
    | WrongRecordWidth                  // the input's width differs from the table's row count
    | WrongLastColumn                   // the input's last column is not i459o
    | UnknownGrade(row: nat)            // a row of the table holds a cell that is not a grade code
    | InvalidLevel                      // HIV or malaria level outside {h, l, v}
    | NotRun                            // results are asked for before run()
    | AllExcluded                       // every record was excluded, so the result table has no columns
    | KeyError(key: nat)                // a row label looked up with .loc is missing
    | IndexOutOfRange                   // a positional read past the end of the ranking
    | NotOneDimensional                 // the CSMF accumulator never became a flat vector
    | EmptyMaximum                      // nanmax of a vector with every entry deleted

  datatype Result<+T> = Ok(value: T) | Err(error: Error)
}
