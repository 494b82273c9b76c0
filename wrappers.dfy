/** The optional value used wherever the job has "a number or null". */
module Wrappers {

  datatype Option<+T> = None | Some(value: T)
}
