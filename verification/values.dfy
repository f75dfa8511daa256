/**
 * Values shared by the settings store and the file model: the JSON-like
 * document values the database holds, the errors a save can end in, and
 * the outcome of running a validator on a document.
 */
module Values {

  datatype Option<+T> = None | Some(value: T)

  /** A save or a validation either yields a value or ends in an error. */
  datatype Result<+T> = Success(value: T) | Failure(error: Error)

  /** A document value: what a setting's `value` field or a referenced id can hold. */
  datatype Value =
    | Null
    | Bool(b: bool)
    | Int(i: int)
    | Str(s: string)
    | List(items: seq<Value>)
    | Obj(fields: map<string, Value>)
    | ObjectId(hex: string)

  /**
   * The ways a validation or a save ends abnormally.
   * ValidationError is the model layer's ValidationException, with the
   * offending field when the raise names one; TypeError stands for a Python
   * TypeError or AttributeError that escapes a validator; NotFound is the
   * failure of a referenced record's load with exc=True.
   */
  datatype Error =
    | ValidationError(message: string, field: Option<string>)
    | TypeError(message: string)
    | NotFound(model: string, id: Value)

  /**
   * What a validator leaves behind: the document's value after it ran
   * (validators normalise in place, sometimes before they raise) and the
   * error it raised, if any.
   */
  datatype Outcome = Outcome(value: Value, error: Option<Error>)

  /** Python truthiness of a document value. */
  predicate Truthy(v: Value) {
    match v
    case Null => false
    case Bool(b) => b
    case Int(i) => i != 0
    case Str(s) => s != ""
    case List(xs) => xs != []
    case Obj(m) => |m| != 0
    case ObjectId(_) => true
  }
}
