/** Optional values: the model of a nullable column or a value Python writes as `None`. */
module Wrappers {

  datatype Option<+T> = None | Some(value: T)

}
