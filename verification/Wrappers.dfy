/** What the modules share: the optional value, and an outcome the model leaves open. */
module Wrappers {
  datatype Option<+T> = None | Some(value: T)

  method Chance() returns (b: bool) { b := *; }
}
