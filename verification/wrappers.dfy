/** Optional values: `None` stands for JavaScript's `NaN` or for a query that matched no document. */
module Wrappers {

  datatype Option<+T> = None | Some(value: T)

}
