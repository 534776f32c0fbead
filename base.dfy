/** Shared value types: optional values, results, and the errors the action can report. */
module Base {

  /** A JavaScript value that is either absent (`null`/`undefined`) or present. */
  datatype Option<+T> = None | Some(value: T) {
    function GetOr(default: T): (v: T) {
      match this
      case Some(v) => v
      case None => default
    }
  }

  /** The outcome of an operation that can throw. */
  datatype Result<+R, +E> = Success(value: R) | Failure(error: E)

  /** The errors that end the run through the top-level handler. */
  datatype Error =
    | MissingHostArchitecture   // no host_arch input and no PROCESSOR_ARCHITECTURE variable
    | SpawnFailed(message: string)  // a child process could not be started
    | NoCompatibleInstallation  // the locator reported no usable installation path

  /** The message the top-level handler reports for an error.
      An absent PROCESSOR_ARCHITECTURE makes `toLowerCase` run on `undefined`,
      so the message is the engine's TypeError text. */
  function Message(e: Error): (message: string) {
    match e
    case MissingHostArchitecture => "Cannot read properties of undefined (reading 'toLowerCase')"
    case SpawnFailed(msg) => msg
    case NoCompatibleInstallation => "Could not find compatible VS installation"
  }

  /** JavaScript truthiness of an optional string: present and not empty. */
  predicate Truthy(o: Option<string>) {
    o.Some? && o.value != ""
  }
}
