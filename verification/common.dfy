/** Small wrappers shared by every component: an optional value (a PHP array key that may be
    absent or null) and the outcome of a render that threads the widget id counter. */
module Common {

  /** A value that may be absent, as with a PHP array key read through `??` or `isset`. */
  datatype Option<+T> = None | Some(value: T) {

    /** The value, or `default` when absent: PHP's `$item['key'] ?? $default`. */
    function GetOr(default: T): T {
      match this
      case Some(v) => v
      case None => default
    }
  }

  /** The one error a render can raise: a structured item without a `label`. */
  datatype RenderError = MissingLabel {

    /** The message of the InvalidArgumentException the widgets throw. */
    function Message(): string {
      "The \"label\" option is required."
    }
  }

  /** The result of a render step together with the shared id counter after it. The counter is
      carried on failure too: ids drawn before the exception was thrown stay drawn. */
  datatype Rendered<+T> = Ok(value: T, next: int) | Fail(error: RenderError, next: int)
}
