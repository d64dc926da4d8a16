/** What several components share. */
module Common {

  datatype Option<+T> = None | Some(value: T)

  /** The address types of a client or an interface. */
  datatype Ip = V4 | V6
}
