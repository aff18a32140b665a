/** Optional values: the outcome of a call into the browser's AI provider,
    `Some` when the promise resolves and `None` when it rejects. */
module Wrappers {

  datatype Option<+T> = None | Some(value: T)
}
