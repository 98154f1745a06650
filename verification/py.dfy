/** The Python-level outcomes the evaluation scripts can produce: a value that may
    be `None`, and a call that either returns or raises. */
module Py {

  /** A value that may be `None`. */
  datatype Option<T> = None | Some(value: T)

  /** The exceptions the modelled code can raise and does not catch. */
  datatype PyError =
    | ValueError        // `numpy.argmin` of an empty list, `statistics.mean([])`, undecodable bytes
    | ZeroDivisionError // `x / 0`
    | KeyError          // a missing dictionary key
    | IndexError        // a list index past the end
    | TypeError         // `int(None)`, iterating a number
    | AttributeError    // `.get` on a value that is not a dictionary
    | AssertionError    // a failed `assert`

  /** A call that either returns a value or raises. */
  datatype Outcome<T> = Returns(value: T) | Raises(error: PyError)
}
