/** Option and Result types shared by every module, and the Python exceptions
    the modelled code raises, as values. */
module Wrappers {

  datatype Option<+T> = None | Some(value: T)

  /** The exceptions the modelled code raises or lets through. */
  datatype Error =
    | KeyError(key: string)
    | IndexError
    | AttributeError(attribute: string)
    | TypeError
    | ValueError(field: string)
    | UnicodeError
    | FileNotFound
    | FileExists
    | ModuleNotFound(moduleName: string)
    | Raised(message: string)   // whatever an operator's own `execute` raises

  /** A value, or the exception raised instead of returning it. */
  datatype Result<+T> = Ok(value: T) | Err(error: Error)
}
