/** The absent value that the calculator represents with `null` (a missing
    date) or with `NaN` (a number field that did not parse). */
module Options {
  datatype Option<+T> = None | Some(value: T)
}
