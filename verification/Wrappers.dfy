/** The failure-free option type every component uses for the source's `None`. */
module Wrappers {

  datatype Option<+T> = None | Some(value: T)
}
