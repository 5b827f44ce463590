/** An optional value, used for the steps of the decoder that can fail or
    that never return normally. */
module Optional {

  datatype Option<+T> = None | Some(value: T)
}
