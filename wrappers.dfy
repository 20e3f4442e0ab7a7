/** Optional values, used for C out-parameters that may be left unwritten
    and for C values that may be NULL. */
module Wrappers {

  datatype Option<+T> = None | Some(value: T)
}
