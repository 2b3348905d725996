/** Optional values: JavaScript's `undefined`, `null`, a missed `find`, and the
    `Infinity` seed of a running minimum are all modelled as `None`. */
module Wrappers {

  datatype Option<+T> = None | Some(value: T)
}
