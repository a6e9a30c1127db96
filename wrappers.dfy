/** Optional values and error results shared by every scraper model. */
module Wrappers {

  /** A value that may be missing (Python's `None`). */
  datatype Option<+T> = None | Some(value: T)

  /** The outcome of an operation that can raise. `Err` carries the kind of exception. */
  datatype Result<+T> = Ok(value: T) | Err(error: Failure)

  /** The exceptions the modelled code can raise and that the model keeps. */
  datatype Failure =
    | KeyError          // a missing dictionary key or map entry
    | IndexError        // an index past the end of a list
    | ValueError        // `int(...)` of a string that is not a number
    | AssertionError    // a failed `assert` in the source
    | DecodeError       // `json.loads` of text that is not JSON
    | FetchError        // a network, download or conversion failure of one item
}
