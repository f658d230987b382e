/** The optional value returned by every fallible read of the driver. */
module Options {

  /** `None` stands for a failed transaction; `Some` carries what was read. */
  datatype Option<+T> = None | Some(value: T)
}
