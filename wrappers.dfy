/** The optional-value wrapper used for the optional fields of the data model. */
module Wrappers {

  /** `None` stands for a property that is absent (or `undefined`, `null`). */
  datatype Option<+T> = None | Some(value: T)
}
