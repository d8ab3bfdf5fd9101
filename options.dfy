/** An optional value: the model's stand-in for `T | null` and for the
    `undefined` that `Array.prototype.find` and optional fields produce. */
module Options {

  datatype Option<+T> = None | Some(value: T)

}
