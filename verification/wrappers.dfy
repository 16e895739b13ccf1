/** The optional value used for the scraper's "no result" answer (Python's `None`). */
module Wrappers {

  datatype Option<+T> = None | Some(value: T)
}
