/** The optional-value wrapper the model uses for every outcome that can fail:
    a grammar rule that does not match, or an evaluation that panics. */
module Wrappers {

  datatype Option<+T> = None | Some(value: T)
}
