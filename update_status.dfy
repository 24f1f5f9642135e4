/** JVM exceptions as values, and the status events of an update cycle. */
module Status {
  import opened Wrappers

  datatype ExceptionKind = PlainException | IOException | SecurityException | OtherException

  /** A thrown exception: its class, reduced to the kinds the core distinguishes, and its message. */
  datatype Throwable = Throwable(kind: ExceptionKind, message: string)

  datatype UpdateStatus =
    | Idle
    | Checking
    | Downloading(modelName: string, progress: int)
    | Success(updatedModels: seq<string>)
    | Error(message: string, cause: Option<Throwable> := None)

  /** `isTerminal()`: a cycle ends with `Success` or `Error`, and with nothing else. */
  predicate IsTerminal(s: UpdateStatus)
    ensures s == Idle || s == Checking ==> !IsTerminal(s)
    ensures s.Downloading? ==> !IsTerminal(s)
    ensures s.Success? || s.Error? ==> IsTerminal(s)
  {
    s.Success? || s.Error?
  }

  /** `Error(message)` without a cause carries a null cause. */
  lemma ErrorCauseDefaultsToNull(message: string)
    ensures Error(message).cause == None
    ensures IsTerminal(Error(message))
  {
  }
}
