/** An optional value, used for values that may be absent (an unset width, a style
    that could not be cloned, an identifier cell that holds nothing). */
module Options {

  datatype Option<+T> = None | Some(value: T)
}
