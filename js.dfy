/**
 * The handful of JavaScript value notions the rest of the model needs:
 * an optional value (`undefined` or a value), a result with an error
 * path (a thrown exception or `process.exit`), and the dynamically typed
 * values the command-line parser stores in its options object.
 */
module Js {

  /** `undefined` (or `null`, where the source treats them alike) or a value. */
  datatype Option<+T> = None | Some(value: T) {
    function GetOr(default: T): T {
      match this
      case Some(v) => v
      case None => default
    }
  }

  /** The outcome of an operation that can fail. */
  datatype Result<+T, +E> = Ok(value: T) | Err(error: E)

  /**
   * The values the `dui` argument parser can store under a key: a string
   * taken from the command line, or a boolean set by a flag. `Undefined`
   * is the value of a key that was never set.
   */
  datatype JsValue = Undefined | Str(s: string) | Bool(b: bool)

  /** JavaScript truthiness: `''`, `false` and `undefined` are falsy. */
  predicate Truthy(v: JsValue) {
    match v
    case Undefined => false
    case Str(s) => s != ""
    case Bool(b) => b
  }

  /** `String(v)`: the text a template literal or `String()` produces. */
  function ToStr(v: JsValue): (r: string)
    ensures v.Str? ==> r == v.s
    ensures v == Bool(true) ==> r == "true"
  {
    match v
    case Undefined => "undefined"
    case Str(s) => s
    case Bool(b) => if b then "true" else "false"
  }

  /** `v || fallback` where the result is then used as text. */
  function TextOr(v: JsValue, fallback: string): (r: string)
    ensures Truthy(v) ==> r == ToStr(v)
    ensures !Truthy(v) ==> r == fallback
  {
    if Truthy(v) then ToStr(v) else fallback
  }

  /** `v || fallback`, keeping the value itself. */
  function Or(v: JsValue, fallback: JsValue): JsValue {
    if Truthy(v) then v else fallback
  }
}
