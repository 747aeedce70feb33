/** The optional value used for reads that JavaScript would answer with
    `undefined` and for updates a guard skips. */
module Wrappers {

  datatype Option<+T> = None | Some(value: T)
}
