/** The nullable references of the source (`null` or an object) as a value type. */
module Wrappers {

  datatype Option<+T> = None | Some(value: T)

}
