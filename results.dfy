/** Optional values, the error kinds the planner can raise, and results that carry either. */
module Results {

  /** `None` stands for a key that a decoded reply does not have. */
  datatype Option<+T> = None | Some(value: T) {
    function GetOr(default: T): T {
      match this
      case Some(v) => v
      case None => default
    }
  }

  /** The failures that abort a plan: the repaired text does not decode, a record misses a
      required field, an accessed key is absent, or the responder call itself fails. */
  datatype Error =
    | DecodeError
    | SchemaError(field: string)
    | KeyError(key: string)
    | TransportError

  datatype Result<+T> = Success(value: T) | Failure(error: Error)
}
