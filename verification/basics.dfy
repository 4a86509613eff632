/** Optional values, results and stage outcomes shared by the whole model. */
module Basics {

  /** A value that may be absent: JavaScript's `undefined` for a missing field. */
  datatype Option<+T> = None | Some(value: T)

  /** What an asynchronous step hands to its callback: a value or an error. */
  datatype Result<+T> = Ok(value: T) | Err(error: string)

  /** How a stage, a backfill unit or the whole run ended. `Stalled` marks a
      paging loop that was still asking for pages when the model's page budget
      ran out; the running program would go on asking. */
  datatype Outcome = Done | Failed(error: string) | Stalled
}
