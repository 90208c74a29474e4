/** What a call that may be refused returns: its value, or the exception it raises. */
module Outcomes {
  datatype Outcome<T> = Ok(value: T) | KeyError | ValueError
}
