/** The optional value returned by a match attempt (`null` or a match in JavaScript). */
module Options {

  datatype Option<+T> = None | Some(value: T)
}
