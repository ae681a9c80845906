/** The optional-value datatype used for the cursor, which a render pass may or may not produce. */
module Wrappers {

  datatype Option<+T> = None | Some(value: T)
}
