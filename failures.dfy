/** The two outcomes of every step of the filter: it goes on, or the whole
    process stops. The source stops with log.Fatal, or with a Go runtime
    panic where it indexes past the end of a slice; both are a `Failure`
    here, never a precondition. */
module Failures {

  datatype Failure =
    | MissingAtoms(line: string)                 // an event line with fewer than six fields
    | UnexpectedInput(line: string)              // a record kind other than report or filter
    | MissingArgs(name: string, count: nat)      // requireArgs: fewer fields than the event needs
    | IndexOutOfRange                            // a slice read past its end (a Go panic)
    | UnknownSession(sid: string)
    | UnknownMessage(sid: string, mid: string)
    | ExistingSession(sid: string)
    | ExistingMessage(sid: string, mid: string)
    | MissingSpamScore(line: string)             // a score header with no second field
    | BadSpamScore(text: string)                 // the score numeral does not parse
    | BadConfigLine(line: string)                // a handshake line with fewer than two fields
    | ConfigFailure                              // end of input before the handshake finished

  datatype Result<+T> = Ok(value: T) | Err(error: Failure)

  datatype Status = Done | Fatal(reason: Failure)
}
