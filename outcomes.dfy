/** Values shared by the whole model: optional values, the error kinds the
    contact book raises, and results that carry either a value or an error. */
module Outcomes {

  datatype Option<+T> = None | Some(value: T)

  /** The errors the contact book raises, by cause. */
  datatype Error =
    | NotFound        // a name or a phone that is not there (ValueError)
    | InvalidPhone    // Phone(...) rejected its text
    | InvalidBirthday // Birthday(...) could not parse its text
    | DateOutOfRange  // date.replace or date arithmetic left the calendar

  /** A value, or the error raised while computing it. */
  datatype Result<+T> = Ok(value: T) | Err(error: Error)

  /** The outcome of a call that returns nothing but may raise. */
  datatype Outcome = Done | Failed(error: Error)
}
