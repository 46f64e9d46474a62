/** The optional value used for everything that the dashboards represent with `None`. */
module Wrappers {

  datatype Option<+T> = None | Some(value: T)
}
