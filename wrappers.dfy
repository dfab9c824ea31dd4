/** The optional value used wherever the PHP code returns `null` or "nothing". */
module Wrappers {

  datatype Option<+T> = None | Some(value: T)
}
