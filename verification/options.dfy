/** The optional value the model uses where the browser answers `null`:
    a missing storage key, a failed parse, an export that produced no file. */
module Options {

  datatype Option<+T> = None | Some(value: T)
}
