/** Optional values: a function that the source writes as `bool f(..., T& out)`
    returns `Some(out)` on success and `None` where the source returns false. */
module Wrappers {

  datatype Option<+T> = None | Some(value: T)

}
