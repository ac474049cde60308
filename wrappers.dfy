/** Optional values, used wherever the C code signals "nothing" with
    nullptr or a false return. */
module Wrappers {

  datatype Option<+T> = None | Some(value: T)
}
