/** Small datatypes shared by every part of the model: an optional value and the
    reply of an HTTP route (a JSON value or an error status). */
module Common {

  datatype Option<+T> = None | Some(value: T) {
    function GetOr(default: T): T {
      match this
      case Some(v) => v
      case None => default
    }
  }

  /** What an Express handler sends back: `res.json(value)` or
      `res.status(code).json({ message })`. Messages are not modelled. */
  datatype Reply<+T> = Ok(value: T) | Fail(code: nat)

  const BadRequest: nat := 400
  const Unauthorized: nat := 401
  const Forbidden: nat := 403
  const NotFound: nat := 404

  function Max(a: int, b: int): int { if a < b then b else a }
  function Min(a: int, b: int): int { if a < b then a else b }
}
