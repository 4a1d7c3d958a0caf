/** Results for the operations whose source returns `null`/`undefined`, NaN, or throws. */
module Wrappers {
  datatype Option<+T> = None | Some(value: T)
}

/** Statements that change a stored row. */
module Updates {
  /** The update is made, it throws, or it is made and throws all the same. */
  datatype Write = Made | Refused | MadeUnheard
}
