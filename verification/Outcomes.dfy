/** Optional values and the outcomes a gRPC handler can have. */
module Outcomes {
  datatype Option<+T> = None | Some(value: T)

  datatype Code = InvalidArgument | NotFound | AlreadyExists | Unauthenticated | Internal

  /** A handler answers, refuses with a status code, or dereferences a nil pointer. */
  datatype Reply<+T> = Answer(value: T) | Refused(code: Code) | Panicked
}
