/** The "absent" result of a lookup: GraphQL renders None as null. */
module Wrappers {

  datatype Option<+T> = None | Some(value: T)
}
