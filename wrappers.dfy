/** Option and Result types shared by every module of the model. */
module Wrappers {

  datatype Option<+T> = None | Some(value: T)

  /** The reasons for which the modelled Python code raises instead of returning. */
  datatype Error =
    | EmptyFactorList        // a factor list is empty, so the name used to size it is unbound
    | SubProtocolNotBuilt    // the stimulus builder returned None for a sub-protocol
    | MalformedSubSchedule   // a sub-schedule lacks a column, a column is too short or a time is not a number
    | MissingColumn          // the composite schedule lacks a column the time rebuild reads
    | NonNumericValue        // an arithmetic step meets None or text
    | EmptySchedule          // the time rebuild indexes position 0 of an empty schedule
    | NegativeLength         // numpy is asked for an array of negative length
    | IndexOutOfRange        // a list or array is indexed past its end
    | EmptyReduction         // numpy reduces an empty array (max/argmax)
    | ZeroDivision           // an integer modulo by zero
    | MissingKey             // a protocol dictionary is indexed with a key it lacks
    | NotANumber             // numpy yields NaN (the mean of an empty selection)
    | ZeroStep               // a slice is taken with step 0
    | NotAnInteger           // a float or text is given where Python needs an integer (a count, a slice bound)

  datatype Result<+T> = Success(value: T) | Failure(error: Error)
  {
    predicate IsFailure() {
      Failure?
    }

    function PropagateFailure<U>(): Result<U>
      requires Failure?
    {
      Failure(error)
    }

    function Extract(): T
      requires Success?
    {
      value
    }
  }
}
