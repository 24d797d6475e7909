/** Outcome types shared by the ledger and the access layer: each HTTPException the
    service raises becomes an `Err` carrying one of these errors. */
module Results {

  datatype Option<+T> = None | Some(value: T)

  /** Every failure the core can report, named after its cause. */
  datatype Error =
    | NotFound          // 404: no employee, leave or HR user with that id
    | BeforeJoining     // 400: leave starts before the joining date
    | Insufficient      // 400: more business days than the balance
    | Overlap           // 400: clashes with a pending or approved leave
    | AlreadyProcessed  // 400: the leave is no longer pending
    | Forbidden         // 403: wrong role
    | Unauthorized      // 401: token missing, undecodable or without a subject
    | EmailTaken        // unique constraint on employees.email (uncaught IntegrityError)
    | BadSubject        // int() of a non-numeric subject (uncaught ValueError)

  datatype Result<+T> = Ok(value: T) | Err(error: Error)

  /** The HTTP status code the caller sees for each error; the two uncaught
      exceptions reach the client as internal server errors. */
  function StatusCode(e: Error): (code: int)
    ensures 400 <= code < 600
    ensures code == 404 <==> e == NotFound
    ensures code == 400 <==> e in {BeforeJoining, Insufficient, Overlap, AlreadyProcessed}
  {
    match e
    case NotFound => 404
    case BeforeJoining => 400
    case Insufficient => 400
    case Overlap => 400
    case AlreadyProcessed => 400
    case Forbidden => 403
    case Unauthorized => 401
    case EmailTaken => 500
    case BadSubject => 500
  }
}
