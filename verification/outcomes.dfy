/** The outcomes of the portfolio operations. The Java service reports every
    failure by throwing one of three exceptions; here each is a value of
    `Error`, and an operation returns a `Result` (or an `Outcome` when the
    Java method is `void`). */
module Outcomes {

  /** A Java reference that may be null: `None` stands for null. */
  datatype Option<+T> = None | Some(value: T)

  /** Why a request was refused with a BadArgumentException; each case
      carries what the exception's message names. */
  datatype Reason =
    | NoStocks                                  // the request names no stocks
    | InvalidClientId(id: Option<int>)          // the client id is missing or not positive
    | InvalidAmount(symbol: string, amount: int)
    | InvalidSymbol(symbol: string)
    | Unsupported(symbol: string)
    | Repeated(symbol: string)

  datatype Error =
    | BadArgument(reason: Reason)   // BadArgumentException
    | NotFound(clientId: int)       // EntityNotFoundException
    | InternalServerError           // InternalServerErrorException (any I/O failure)

  /** The result of a Java method that returns a value or throws. */
  datatype Result<+T> = Ok(value: T) | Err(error: Error)

  /** The result of a `void` Java method: it returns normally or throws. */
  datatype Outcome = Pass | Fail(error: Error)
}
