/** The values the thread store hands back: optional documents and settled promises. */
module Outcomes {

  /** A document that may be missing; `None` plays the part of JavaScript's `null`. */
  datatype Option<+T> = None | Some(value: T)

  /** What a promise of the thread store rejects with: either a bare string or an
      object of the shape `{error: ...}` (its `info` part is not modelled). */
  datatype Rejection = Bare(message: string) | ErrorObject(error: string)

  /** A settled promise. Every operation is modelled as running to completion, so a
      promise is either resolved with a value or rejected with a reason. */
  datatype Settled<+T> = Resolved(value: T) | Rejected(reason: Rejection)
}
