/** The not-found indicator of the value extractors and selector lookups. */
module Wrappers {

  datatype Option<+T> = None | Some(value: T)
}
