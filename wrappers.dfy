/** Failure-carrying values, and the Python exceptions that the scripts can
    raise, so that an escaping exception is a result rather than a precondition. */
module Wrappers {

  datatype Option<+T> = None | Some(value: T)

  datatype Result<+R, +E> = Success(value: R) | Failure(error: E)

  /** The exceptions the modelled code raises or catches. */
  datatype PyException =
    | IndexError          // `seq[k]` past the end
    | StopIteration       // `next()` on an exhausted iterator
    | TypeError           // a non-string argument handed to `subprocess`
    | RequestException    // `requests.head` could not complete
    | CalledProcessError  // `subprocess.check_call` or `check_output` saw a non-zero exit status
    | IOError             // `gzip.open(...).read()` on a file that is not gzip
}
