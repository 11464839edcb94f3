/** The optional value used wherever the modelled code returns a nullable
    reference (`String?`, `Int?`, a missing map entry). */
module Wrappers {

  datatype Option<+T> = None | Some(value: T)
}
