/** Option and Result, the two failure-carrying shapes the Rust code uses
    (`Option<T>` fields and `Result<String, Box<dyn Error>>` returns). */
module Wrappers {

  datatype Option<+T> = None | Some(value: T) {

    /** `Option::unwrap_or` */
    function GetOr(default: T): T {
      match this
      case Some(v) => v
      case None => default
    }
  }

  /** Errors are modelled by their message text. */
  datatype Result<+T> = Ok(value: T) | Err(error: string)

  /** What reading a file that holds a JSON document can give: the file is
      missing, it cannot be read, or it was read and either decoded to a value
      or failed to decode. The JSON decoder itself is not modelled; its
      outcome is the `decoded` field. */
  datatype StoredFile<+T> = Missing | Unreadable | Read(decoded: Option<T>)

  /** The shared `load` rule of history.rs and config.rs: a decoded document
      is used as is, and every other outcome degrades to the default. */
  function LoadOr<T>(file: StoredFile<T>, default: T): (r: T)
    ensures (file.Read? && file.decoded.Some?) ==> r == file.decoded.value
    ensures !(file.Read? && file.decoded.Some?) ==> r == default
  {
    match file
    case Read(Some(v)) => v
    case Read(None) => default
    case Missing => default
    case Unreadable => default
  }
}
