/** A value that may be missing. */
module Options {

  datatype Option<+T> = None | Some(value: T)

  function GetOr<T>(option: Option<T>, otherwise: T): T
  {
    match option
    case Some(value) => value
    case None => otherwise
  }
}
