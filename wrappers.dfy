/** Optional values: a TypeScript field declared `x?: T` is `None` when absent. */
module Wrappers {

  datatype Option<+T> = None | Some(value: T)

}
