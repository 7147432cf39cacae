/** The optional value of a TypeScript field declared `x?: T` or typed `T | undefined`. */
module Wrappers {

  datatype Option<+T> = None | Some(value: T) {

    /** The value, or `default` when absent (the source's `x || ''` agrees with this because its default is `''`: an empty string and an absent one both give `''`). */
    function GetOr(default: T): T
    {
      match this
      case Some(v) => v
      case None => default
    }
  }
}
