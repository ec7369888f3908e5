/** The optional value used wherever the server has "nothing" (a null `playerClicked`,
    a `NaN` from `parseInt`, a chat line that is not a `Point` command). */
module Wrappers {

  datatype Option<+T> = None | Some(value: T)
}
