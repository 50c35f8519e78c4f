/** Optional values, results, and the exceptions the record keeper raises. */
module Outcomes {

  datatype Option<T> = None | Some(value: T)

  /** The outcome of an operation that raises on failure. */
  datatype Result<T> = Ok(value: T) | Err(error: Error)

  /**
   * Every exception the modelled code raises. All are ValueError in the
   * source except NotADict (TypeError), MissingKey (KeyError), CorruptStore
   * (a JSON decoding error) and NonListUsers (TypeError or AttributeError);
   * MalformedField stands for a stored value the typed model cannot hold.
   */
  datatype Error =
    | EmptyName                 // name is empty after stripping
    | InvalidNameChars          // name is not letters and whitespace only
    | EmptySpeciality           // speciality is empty after stripping
    | NotADict                  // a record that is not a dictionary
    | MissingKey(key: string)   // a required dictionary key is absent
    | MalformedField(key: string) // a stored value of a shape the model does not hold
    | CorruptStore              // a data file that is not valid JSON
    | UnknownStudent(id: int)   // a payment for a student that does not exist
    | NonNumericAmount          // a payment amount that does not parse as a number
    | NegativeAmount            // a payment amount below zero
    | UnknownReportKind         // a report kind other than finance or attendance
    | MissingCredentials        // an empty username or password
    | DuplicateUsername         // a username taken, ignoring case
    | NonTextJoin               // `", ".join` over a list of integers
    | NonListUsers              // a user file whose `"users"` is not a list
}
