/** Optional values: `None` stands for a JavaScript call that threw or a value that is not there. */
module Wrappers {

  datatype Option<+T> = None | Some(value: T)
}
