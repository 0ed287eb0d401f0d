/** Types shared by the itinerary store and the single-page client. */
module Base {

  /** An optional value: `None` stands for JavaScript's `undefined`/`null`. */
  datatype Option<+T> = None | Some(value: T)

  /** Record identifiers, handed out by the store's id generator. */
  type Id = nat

  /** The opaque user identifier resolved by the session provider. */
  type UserId = string

  /** Calendar dates are opaque text, passed through unchanged. */
  type Date = string
}
