/** The optional value used throughout the model: JavaScript's `null` /
    `undefined` for a missing product binding, `NaN` for text that does not
    parse, and "no match" for a search. */
module Options {

  datatype Option<+T> = None | Some(value: T)
}
