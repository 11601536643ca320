/** The optional value used wherever the widget holds a `Date | null` or a parse may fail. */
module Wrappers {
  datatype Option<+T> = None | Some(value: T)
}
