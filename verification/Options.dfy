/** Options, shared by every module that models a pointer that may be NULL. */
module Options {
  datatype Option<+T> = None | Some(value: T)
}
