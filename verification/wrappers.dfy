/** Optional values, for the light's "no baseline yet" timestamp and "no frame
    requested" handle, which the source represents with `null`. */
module Wrappers {

  datatype Option<+T> = None | Some(value: T)
}
