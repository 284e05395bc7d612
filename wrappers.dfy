/** The optional value used for the renderer's output arguments. */
module Wrappers {

  /** `None` where the source returns `false` and leaves the pointee alone. */
  datatype Option<+T> = None | Some(value: T)
}
