/** Swift's `T?`: a value that may be absent (`nil`). */
module Optional {

  datatype Option<+T> = None | Some(value: T)
}
