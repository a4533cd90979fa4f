/** Failure-carrying values used throughout the model. A Python exception
    that escapes a function or script is a `Raise`; an exception that the
    script catches shows up as an ordinary outcome value instead. */
module Wrappers {

  datatype Option<+T> = None | Some(value: T)

  /** The Python exceptions the modelled code can raise. */
  datatype Exception =
    | KeyError(key: string)   // dict[key] with key absent
    | IndexError              // list index out of range
    | ValueError              // int()/float() of a malformed string, list.index miss
    | OSError                 // a directory or file that is not there
    | CalledProcessError      // an external tool that exited with an error
    | TypeError               // an operation applied to a value of the wrong type
    | ZeroDivisionError       // a division by zero
    | AttributeError          // a method called on None

  datatype Result<+T> = Ok(value: T) | Raise(exc: Exception)
}
