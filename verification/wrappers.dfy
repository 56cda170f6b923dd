/** The optional value the merger uses both for an empty pending slot and for
    the "source exhausted" answer of a fetcher (Python's `None`). */
module Wrappers {

  datatype Option<+T> = None | Some(value: T)
}
