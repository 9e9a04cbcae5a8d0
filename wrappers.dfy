/** The Option datatype used for PHP's `false` results (a failed decryption). */
module Wrappers {

  datatype Option<+T> = None | Some(value: T)
}
