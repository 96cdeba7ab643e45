/** Failure-carrying results used by the ledger's lookups and queries. */
module Wrappers {

  /** Present or absent value, the answer of a positional search. */
  datatype Option<+T> = None | Some(value: T)

  /** Outcome of a store operation: a value, or the single error kind the
      ledger knows, raised for a missing id and for a query that finds nothing. */
  datatype Result<+T> = Ok(value: T) | NotFound
}
