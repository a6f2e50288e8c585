/** The optional value used for json-c lookups that may yield a NULL pointer. */
module Wrappers {

  /** `None` plays the role of a NULL `json_object *`. */
  datatype Option<+T> = None | Some(value: T)
}
