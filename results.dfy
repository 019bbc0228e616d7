/** The outcome of a query that may throw java.io.IOException. */
module Results {

  datatype Result<T> = Ok(value: T) | IOError {

    /** The value of a successful query, or `default` when it threw. */
    function GetOr(default: T): (v: T)
      ensures Ok? ==> v == value
      ensures IOError? ==> v == default
    {
      match this
      case Ok(x) => x
      case IOError => default
    }
  }
}
