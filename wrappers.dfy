/** Option and Result, the two wrappers every other module uses for "no value" and "an error instead of a value". */
module Wrappers {

  datatype Option<+T> = None | Some(value: T) {
    /** The value, or `default` when there is none. */
    function GetOr(default: T): T {
      match this
      case Some(v) => v
      case None => default
    }
  }

  datatype Result<+R, +E> = Success(value: R) | Failure(error: E)
}

/** The JSON values that appear in the service's objects: every field the service or the command-line client puts
    in a JSON object is either a string or null. */
module Json {

  datatype Value = Null | Str(text: string)

  type Object = map<string, Value>
}
