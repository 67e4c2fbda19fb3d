/**
 * Shared vocabulary of the model: Python's `None`, the exceptions the
 * configuration layer raises, and the values a cast can produce.
 */
module Common {

  /** Python's optional value: `None` or a present value. */
  datatype Option<+T> = None | Some(value: T) {
    function GetOr(fallback: T): T {
      match this
      case Some(v) => v
      case None => fallback
    }
  }

  /** The exceptions raised by the configuration core, with their messages. */
  datatype Error =
    | KeyError(msg: string)
    | ValueError(msg: string)
    | TypeError(msg: string)
    | AttributeError(msg: string)
    | AssertionError

  /** A computation that either returns a value or raises an exception. */
  datatype Result<+T> = Ok(value: T) | Err(error: Error)

  /** A statement that either completes or raises an exception. */
  datatype Outcome = Pass | Fail(error: Error)

  /** A member of a Python `Enum`: its name and its value. */
  datatype EnumMember = EnumMember(name: string, value: int)

  /**
   * The values a configuration key can hold once its cast has run: the raw
   * string of a source, a default of one of the scalar kinds, an enum member
   * (with the name of its enum type) or a tuple built by a tuple cast.
   */
  datatype Value =
    | Str(s: string)
    | Int(i: int)
    | Bool(b: bool)
    | Member(enumName: string, member: EnumMember)
    | Tuple(items: seq<Value>)

  /**
   * A cast as declared on a key: it is applied to whatever value is at hand,
   * `None` included, and may raise or return `None`.
   */
  type Cast = Option<Value> -> Result<Option<Value>>

  /** The process environment, as variable name to value. */
  type Env = map<string, string>
}
