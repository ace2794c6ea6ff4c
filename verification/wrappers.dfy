/** Optional values: the model's stand-in for the source's "returns false and
    leaves the out-parameter unset" and for absent JSON nodes. */
module Wrappers {

  datatype Option<+T> = None | Some(value: T)
}
