/** Datatypes several modules share. */
module Common {

  datatype Option<T> = None | Some(value: T)

  /** Where a run of a state machine ends; `Stuck` when a step was not enabled. */
  datatype Outcome<S> = Stuck | At(state: S)
}
