/** An optional value: `None` stands for Kotlin's `null`, or for a call that
    would throw in the original code. */
module Optional {

  datatype Option<+T> = None | Some(value: T)
}
