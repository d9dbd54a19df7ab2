/** The optional value used wherever the source uses a nullable reference. */
module Options {

  /** `None` stands for Java's `null`. */
  datatype Option<+T> = None | Some(value: T)
}
