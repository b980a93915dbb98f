/** Absent values and the store's error results. */
module Common {

  /** `undefined`/`null` in the store's inputs and lookups. */
  datatype Option<T> = None | Some(value: T) {
    function GetOr(default: T): T {
      match this
      case Some(v) => v
      case None => default
    }
  }

  /** The errors the store throws; `Message` is the text it throws them with. */
  datatype Error = UsernameTaken | TemplateNotFound | CartItemNotFound | CartIsEmpty {
    function Message(): string {
      match this
      case UsernameTaken => "Username already exists"
      case TemplateNotFound => "Template not found"
      case CartItemNotFound => "Cart item not found"
      case CartIsEmpty => "Cart is empty"
    }
  }

  /** A store operation either returns a value or throws one of the errors above. */
  datatype Result<T> = Ok(value: T) | Err(error: Error)
}
