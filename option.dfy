/** The optional value used where the Python code returns or receives `None`. */
module Maybe {

  datatype Option<+T> = None | Some(value: T)
}
