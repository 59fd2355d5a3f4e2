/** A value that may be absent: JavaScript's `null` in the React state this project models. */
module Options {

  datatype Option<+T> = None | Some(value: T)
}
