/** Failure values shared by the model: the exceptions the Python code raises
    on its error paths, and the `None` it returns for an invalid signal mask. */
module Results {

  /** The exceptions that end an operation of the model. */
  datatype Error =
    | StructError   // struct.unpack was given fewer bytes than the format needs
    | KeyError      // a dispatch on a descriptor that was never registered
    | NameError     // a reference to a name the module never defines

  datatype Result<T> = Ok(value: T) | Err(error: Error)

  datatype Option<T> = None | Some(value: T)
}
