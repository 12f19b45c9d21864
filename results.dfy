/** Error and optional-value wrappers shared by the whole model.
    Python exceptions raised by the core become `Err` values of `Result`. */
module Results {

  /** The Python exception classes the modelled code raises. */
  datatype Error = ValueError | TypeError | KeyError | IndexError | AttributeError | UnboundLocalError

  datatype Result<T> = Ok(value: T) | Err(error: Error)

  /** Python's `None` versus a present value. */
  datatype Option<T> = None | Some(value: T)
}
