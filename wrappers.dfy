/** The optional value used for parse results and for the agent's current region. */
module Wrappers {
  datatype Option<+T> = None | Some(value: T)
}
