/** Failure-carrying values. The C# sources report every misuse by throwing; here a throw
    becomes a value the caller can inspect. */
module Wrappers {

  datatype Option<+T> = None | Some(value: T)

  /** What a ChronosException reports, one constructor per message in the sources. */
  datatype Reason =
    | SelfParent             // "Global clock parent cannot be itself."
    | UnknownClock           // "Unknown global clock '...'."
    | DuplicateClock         // "Global clock '...' already exists."
    | NegativePadding        // "Area clock padding must be positive."
    | OccurrenceNotFound     // "Occurrence to cancel not found on timeline."
    | PlanNotInFuture        // "Planned occurrences must be in the future."
    | MemoryNotInPast        // "Memory occurrences must be in the past."
    | DurationBelowInterval  // "The recording duration must be longer than or equal to interval."
    | NonPositiveInterval    // "The recording interval must be positive."
    | NotForward             // "Cannot ... while time is paused or rewinding."

  /** The exception an operation throws. */
  datatype Error =
    | ArgumentNull(parameter: string)     // ArgumentNullException
    | InvalidArgument(parameter: string)  // ArgumentException, also Dictionary.Add on a present key
    | KeyNotFound                          // Dictionary indexer on an absent key
    | OutOfRange                           // List.RemoveAt on an index outside the list
    | Chronos(reason: Reason)              // ChronosException

  /** The result of an operation that throws before changing anything. */
  datatype Result<+T> = Ok(value: T) | Err(error: Error)

  /** The result of an operation that may throw after it already changed some state:
      `state` is what the caller observes in both cases. */
  datatype Completion<+S> = Returned(state: S) | Threw(error: Error, state: S)
}

/** Object identities. Where the sources pass a reference to a clock, timeline or occurrence,
    the model passes one of these handles; `Option<...>.None` stands for a null reference. */
module Handles {
  type ClockId = nat
  type TimelineId = nat
  type AreaId = nat
  type OccurrenceId = nat
}

/** Messages a timeline broadcasts with SendMessage; the model appends them to a log. */
module Messages {
  datatype Message =
    | OnStartPause
    | OnStopPause
    | OnStartRewind
    | OnStopRewind
    | OnStartSlowDown
    | OnStopSlowDown
    | OnStartFastForward
    | OnStopFastForward
    | OnExhaustRewind
}

/** Guards of component writes that only make sense while time runs forward. */
module Severities {
  import opened Wrappers

  /** How loudly a setter or a force complains when time is not running forward. */
  datatype Severity = Ignore | Warn | Error

  /** The AssertForward… guards of the rigidbody and particle timelines: whether time runs
      forward, throwing instead only at Error severity. (The warning is a log line.) */
  function AssertForward(timeScale: real, severity: Severity): (r: Result<bool>)
    ensures r.Err? <==> timeScale <= 0.0 && severity == Severity.Error
    ensures r.Err? ==> r.error == Chronos(NotForward)
    ensures r.Ok? ==> (r.value <==> timeScale > 0.0)
  {
    if timeScale <= 0.0 && severity == Severity.Error then Err(Chronos(NotForward))
    else Ok(timeScale > 0.0)
  }
}
