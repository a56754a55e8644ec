/** Outcome codes shared by every component. */
module Status {

  datatype Status =
    | Ok | Timeout | Nack | BusError | Busy | IoError | Unsupported | InvalidArgument
    | NotFound | NoResources | Corrupt | NotReady | Denied | Aborted
  {
    /** The enumerator's underlying value. */
    function Code(): (c: nat)
      ensures c <= 13
    {
      match this
      case Ok => 0
      case Timeout => 1
      case Nack => 2
      case BusError => 3
      case Busy => 4
      case IoError => 5
      case Unsupported => 6
      case InvalidArgument => 7
      case NotFound => 8
      case NoResources => 9
      case Corrupt => 10
      case NotReady => 11
      case Denied => 12
      case Aborted => 13
    }
  }

  const ALL: seq<Status> :=
    [Ok, Timeout, Nack, BusError, Busy, IoError, Unsupported, InvalidArgument, NotFound, NoResources, Corrupt,
     NotReady, Denied, Aborted]

  /** Codes count the enumerators in order, so each code stands for one status. */
  lemma CodeTellsStatus(status: Status, n: nat)
    requires n < 14
    ensures status.Code() == n <==> status == ALL[n]
  {
  }

  datatype Result<+T> = Success(value: T) | Failure(status: Status)
  datatype Option<+T> = None | Some(value: T)
}
