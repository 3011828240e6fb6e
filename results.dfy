/**
 * The two error channels of the services: a typed reply for expected business
 * outcomes (`{success, message}` / `{success, todo}` / `{success, token}`), and a
 * thrown fault for unexpected store or crypto failures.
 */
module Results {

  datatype Option<+T> = None | Some(value: T) {

    /** The value, or `default` when absent (a JavaScript default parameter). */
    function GetOr(default: T): T {
      match this
      case Some(v) => v
      case None => default
    }
  }

  /** A thrown error: `code` is the store's error code (Prisma's `P2002`, ...), if any. */
  datatype Fault = Fault(code: Option<string>, message: string)

  /** What an awaited service call yields: a returned value or a thrown fault. */
  datatype Outcome<+T> = Returned(result: T) | Thrown(fault: Fault)

  /** The `{success: true, ...}` / `{success: false, message}` objects the services return. */
  datatype Reply<+T> = Success(value: T) | Failure(message: string)
}
