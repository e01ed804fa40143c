/** The two result shapes the model uses for Go's "value, ok" and "value, err" pairs. */
module Wrappers {
  datatype Option<+T> = None | Some(value: T)

  /** `Failure` stands for any non-nil Go error; its text is not modelled. */
  datatype Result<+T> = Failure | Success(value: T)
}
