/** Values shared by every part of the model: optional values, the errors the
    services throw, and the partial updates carried by a PATCH body. */
module Wrappers {

  /** An optional value. */
  datatype Option<+T> = None | Some(value: T) {
    /** The value, or `default` when there is none. */
    function GetOr(default: T): T {
      match this
      case Some(v) => v
      case None => default
    }
  }

  /** The exceptions of the services; `ForeignKey` is raised by the database. */
  datatype Error = NotFound | BadRequest | Conflict | ForeignKey

  /** The result of a service call. */
  datatype Result<+T> = Ok(value: T) | Err(error: Error)

  /** One field of a PATCH body: left out, or given a new value. */
  datatype Patch<+T> = Keep | Put(value: T) {
    /** The field after the patch. */
    function On(old': T): T {
      match this
      case Put(v) => v
      case Keep => old'
    }
  }

  /** The field is what the patch says: the value it carries, or what it was. */
  ghost predicate Patched<T>(p: Patch<T>, before: T, after: T) {
    && (p.Put? ==> after == p.value)
    && (p.Keep? ==> after == before)
  }

  /** The state after a call: a call that throws leaves it as it was. */
  function After<S>(before: S, call: Result<S>): S {
    match call
    case Ok(after) => after
    case Err(_) => before
  }

  /** The caller sees the outcome of the call: success, or the same error. */
  ghost predicate Reports<T, S>(r: Result<T>, call: Result<S>) {
    match call
    case Ok(_) => r.Ok?
    case Err(e) => r == Err(e)
  }
}
