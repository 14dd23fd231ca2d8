/** Optional values: JavaScript's `null` result of a lookup that found nothing. */
module Wrappers {

  datatype Option<+T> = None | Some(value: T)
}
