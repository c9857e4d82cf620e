/** Nullable references of the modelled Java code: `None` stands for `null`. */
module Options {

  datatype Option<+T> = None | Some(value: T)
}
