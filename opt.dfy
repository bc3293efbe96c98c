/** The optional value that stands for JavaScript's `null` (and, where the
    source does not distinguish them, `undefined`). */
module Opt {
  datatype Option<+T> = None | Some(value: T)
}
