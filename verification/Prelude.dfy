/** Option, Result and how a service answers, shared by every module of the model. */
module Prelude {
  datatype Option<+T> = None | Some(value: T)

  datatype Result<+T, +E> = Ok(value: T) | Err(error: E)

  /** A method answers as specified: on success the expected new state, on an error that error and no change. */
  ghost predicate Answers<S, T, E>(before: S, after: S, r: Result<T, E>, expected: Result<S, E>) {
    match expected
    case Ok(s) => r.Ok? && after == s
    case Err(e) => r.Err? && r.error == e && after == before
  }

  /** The state out of a specification that also says what to reply. */
  function StateOf<S, R, E>(r: Result<(S, R), E>): Result<S, E> {
    match r
    case Ok((s, _)) => Ok(s)
    case Err(e) => Err(e)
  }
}
