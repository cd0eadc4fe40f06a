/** An optional value, used where the Java code either produces a value or ends
    with an exception that its caller catches and prints. */
module Options {
  datatype Option<+T> = None | Some(value: T)
}
