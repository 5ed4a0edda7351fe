/** Result wrappers shared by the model: Python's `None`, and a call that returns or raises. */
module Wrappers {

  datatype Option<+T> = None | Some(value: T)

  /** The Python exceptions the modelled code can raise. The request handlers of both
      front ends catch every exception at the request boundary and answer 500. */
  datatype Exception =
    | KeyError        // missing dictionary key, attribute or tree path
    | IndexError      // list index out of range
    | TypeError       // unpacking or writing `None`
    | AttributeError  // a method the object does not have
    | ValueError      // `int()` of a string that is not a number
    | IOError         // opening a file that does not exist
    | GitError        // the repository reader cannot open a repository or resolve a branch or commit
    | XmlSyntaxError  // lxml cannot parse a document
    | RecursionLimit  // CPython's RuntimeError on unbounded recursion
    | RuntimeError    // raised explicitly, e.g. for an unsupported API path

  /** What a Python call does: it returns a value or raises an exception. */
  datatype Outcome<+T> = Returns(value: T) | Raises(exc: Exception)
}
