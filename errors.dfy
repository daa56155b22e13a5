/** Failures of the MRZ encoder and the result type that carries them.
    The source throws an `Error` whose message names the field and the
    reason; here the message text is replaced by its kind and its subject. */
module Errors {

  /** The validator that raised the failure. */
  datatype Field = DigitField | AuthorityIdField | AssignedNumberField

  datatype Error =
    /** A character outside the field's alphabet; `text` is the rejected
        input as the message quotes it (the one-character digit, or the
        whole authority id / assigned number). */
    | InvalidCharacter(field: Field, text: string)
    /** The authority id is not 4 characters, or the assigned number not 5. */
    | InvalidLength(field: Field)
    /** The authority id does not begin with one of L, M, N, P, R, T, V, W, X, Y. */
    | InvalidFirstCharacter

  datatype Option<+T> = None | Some(value: T)

  /** A computation that either yields a value or throws one `Error`. */
  datatype Result<+T> = Ok(value: T) | Err(error: Error)
}
