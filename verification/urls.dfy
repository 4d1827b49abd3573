/** Values the balancer takes from Go's net/url package. The parser itself is
    not modelled: every operation that needs it receives it as a parameter, so
    each property below holds whatever url.Parse accepts or rejects. */
module Urls {

  /** A value or the error that replaced it; Go's `(T, error)` return pair. */
  datatype Result<+T, +E> = Success(value: T) | Failure(error: E)

  /** The parts of a parsed URL (a subset of the fields of Go's url.URL). */
  datatype URL = URL(scheme: string, host: string, path: string, rawQuery: string, fragment: string)

  /** The error url.Parse returns: the operation, the offending text and why. */
  datatype ParseError = ParseError(op: string, url: string, reason: string)

  /** url.Parse: any total function from text to a URL or an error. */
  type Parser = string -> Result<URL, ParseError>
}
