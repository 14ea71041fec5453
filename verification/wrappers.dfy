/** The optional value used wherever the modelled code may come back empty-handed
    (a failed lookup, an exception, a parse that does not apply). */
module Wrappers {

  datatype Option<+T> = None | Some(value: T)

}
