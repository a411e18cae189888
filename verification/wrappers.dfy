/** Result of a lookup that may find nothing. */
module Wrappers {

  /** `None` stands for JavaScript's `undefined` result of a failed search. */
  datatype Option<+T> = None | Some(value: T)
}
