/** The nullable value of the component's state, with `None` standing for `null`. */
module Wrappers {
  datatype Option<+T> = None | Some(value: T)
}
