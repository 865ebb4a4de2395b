/** Vocabulary shared by the scheduler, the worker and the two client pages. */
module Domain {

  /** An optional value: a missing record, an absent request field. */
  datatype Option<+T> = None | Some(value: T)

  /** The outcome of an operation that can be refused with an error. */
  datatype Result<+T, +E> = Ok(value: T) | Err(error: E)

  /** The statuses the server writes on a scheduled email. */
  datatype Status = Pending | Throttled | Sent | Failed

  /** The upper-case name under which a status is stored and queried. */
  function StatusName(s: Status): string
  {
    match s
    case Pending => "PENDING"
    case Throttled => "THROTTLED"
    case Sent => "SENT"
    case Failed => "FAILED"
  }

  /** A sender account as the registry returns it. */
  datatype Sender = Sender(id: string, name: string, email: string, hourlyQuota: int)

  /** The status store: one status per email id; a missing key is a missing record. */
  type StatusStore = map<nat, Status>

  /** Milliseconds in one hour. */
  const MsPerHour: int := 3600000
}
