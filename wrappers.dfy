/** The optional value used for regular-expression matches and injected faults. */
module Wrappers {
  datatype Option<+T> = None | Some(value: T)
}
