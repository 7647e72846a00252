/** The optional value used wherever the source reads a `Map` entry that may be missing
    (`map.get(key)` returning `undefined`). */
module Wrappers {

  datatype Option<+T> = None | Some(value: T)
}
