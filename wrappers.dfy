/** Optional values, for the `find` lookups of the dashboards that may come back `undefined`. */
module Wrappers {

  datatype Option<+T> = None | Some(value: T)
}
