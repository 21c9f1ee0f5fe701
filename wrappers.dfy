/** The optional values and results used by every stage of the build
    resolution: a `Result` carries either the stage's value or the error the
    script throws at that point. */
module Wrappers {

  datatype Option<+T> = None | Some(value: T)

  datatype Result<+R, +E> = Ok(value: R) | Err(error: E)
}
