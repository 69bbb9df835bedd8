/** Optional values, for the fields and lookups that JavaScript leaves `null` or `undefined`. */
module Wrappers {
  datatype Option<+T> = None | Some(value: T)
}

/**
 * What a call to the hosted backend hands back. The model never performs a call:
 * every handler receives the call's outcome as an argument, so the backend's
 * answer is whatever the caller of the model chooses.
 */
module Remote {
  /** `{ data, error }`: `Ok(data)` when `error` is null, `Err` otherwise. */
  datatype Reply<+T> = Ok(data: T) | Err

  /** The reply of an update, delete or upsert, whose `data` nobody reads. */
  type Ack = Reply<()>
}
