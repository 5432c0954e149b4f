/** Optional values: a form field that is missing or that a parser rejected. */
module Wrappers {

  datatype Option<+T> = None | Some(value: T)
}
