/** Option and Result, the shapes of Go's `(value, ok)` and `(value, error)` returns. */
module Wrappers {

  datatype Option<+T> = None | Some(value: T)

  datatype Result<+T, +E> = Success(value: T) | Failure(error: E)
}

/** The errors the core can return, one variant per source of error in the Go code. */
module Errors {

  datatype Error =
    /** url.Parse rejected the device address (soap.go:34-37). */
    | UrlError(text: string)
    /** Building, sending or reading the HTTP exchange failed (soap.go:45-64). */
    | HttpError(text: string)
    /**
     * The XML decoder rejected the bytes (soap.go:69-72, discovery.go:144-147),
     * with the decoder's message. Being its own variant, it is never the
     * errWrongDiscoveryResponse value that discovery.go:126 compares against.
     */
    | XmlError(text: string)
    /** A dot-path lookup found nothing at that path. */
    | PathNotFound(path: string)
    /** `errors.New(fault)`: a SOAP Fault whose reason text is the message (soap.go:75-78). */
    | SoapFault(text: string)
    /** errWrongDiscoveryResponse (discovery.go:15). */
    | WrongDiscoveryResponse
    /** "Device does not have any xAddr " (discovery.go:174). */
    | NoXAddr
    /** A socket error; `timeout` is what the error's Timeout() method answers. */
    | NetError(text: string, timeout: bool)
  {
    /** The check at discovery.go:117: a net.Error whose Timeout() is true. */
    predicate IsTimeout() {
      NetError? && timeout
    }
  }
}
