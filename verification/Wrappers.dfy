// An optional value, standing for Python's None-or-value and for DynamoDB attributes that may be absent.
module Wrappers {
  datatype Option<+T> = None | Some(value: T)
}
