/** The JavaScript `null` / value distinction, as an option type. */
module Wrappers {

  /** `None` stands for JavaScript's `null` (or any falsy value where noted). */
  datatype Option<+T> = None | Some(value: T)
}
