/** Option, Result and Outcome values used in place of the source's `null`s, `Result` objects and thrown errors. */
module Results {

  /** A nullable value: `None` stands for `null` or `undefined`. */
  datatype Option<+T> = None | Some(value: T) {
    /** The `??` operator: the value, or `default` when there is none. */
    function OrElse(default: T): T {
      match this
      case Some(v) => v
      case None => default
    }
  }

  /** A JavaScript value that is a string, `null` or `undefined`. */
  datatype JsString = Str(value: string) | Null | Undefined {
    /** The `??` operator: the string, or `default` for `null` and `undefined`. */
    function OrElse(default: string): string {
      match this
      case Str(v) => v
      case _ => default
    }

    /** How a template literal `${...}` renders the value. */
    function Render(): string {
      match this
      case Str(v) => v
      case Null => "null"
      case Undefined => "undefined"
    }
  }

  /** The `Ok`/`Err` result type of the connectors' `lib/result.js`. */
  datatype Result<+T, +E> = Ok(value: T) | Err(error: E)

  /** The outcome of a call whose success carries no value (a workflow start or stop, a table upsert). */
  datatype Outcome = Pass | Fail(message: string)

  /** JavaScript truthiness of a nullable string: neither null nor the empty string. */
  predicate Truthy(s: Option<string>) {
    s.Some? && s.value != ""
  }
}
