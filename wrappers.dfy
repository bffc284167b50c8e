/** Failure-carrying values shared by every extractor of the model. */
module Wrappers {

  datatype Option<+T> = None | Some(value: T)

  /** What the source raises; every kind escapes the function that raises it. */
  datatype Error =
    | MissingNode     // attribute access on a node the parser did not find (AttributeError on None)
    | IndexOutOfRange // `columns[k]` or `tables[0]` past the end (IndexError)
    | MissingHref     // `a.attrs['href']` on an anchor without an href (KeyError)
    | NotAFloat       // `float(...)` of a string that is no decimal literal (ValueError)
    | UndefinedName   // a name that is never bound (NameError)
    | FetchFailed     // the HTTP request raised
    | NotAscii        // a `str` template formatted with non-ASCII text (UnicodeEncodeError)
    | NotAList        // `extend` on loaded JSON that is not a list (AttributeError)

  datatype Result<+T> = Ok(value: T) | Fail(error: Error)
}
