/** Outcomes of an inference call: a value, or the deterministic reason it has none. */
module Outcomes {

  /** Why an inference call produced no distribution. Every kind is a property of the inputs alone. */
  datatype Failure =
    | InvalidPrior            // the prior is not a non-negative weight vector over the worlds with positive total
    | InconsistentUtterance   // literal listener: the utterance is false of every world the prior allows
    | InexpressibleWorld      // speaker: every utterance gets weight zero for the target world
    | UnreachableUtterance    // pragmatic listener: no world the prior allows leads the speaker to the utterance

  /** A failure-compatible result, so that `:-` propagates the first failure. */
  datatype Result<+T> = Ok(value: T) | Err(error: Failure)
  {
    predicate IsFailure() {
      Err?
    }

    function PropagateFailure<U>(): (r: Result<U>)
      requires Err?
    {
      Err(error)
    }

    function Extract(): (v: T)
      requires Ok?
    {
      value
    }
  }
}
