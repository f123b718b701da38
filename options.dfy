/** An optional value: the model's stand-in for `null`, `undefined` and `NaN`. */
module Options {

  datatype Option<+T> = None | Some(value: T)
}
