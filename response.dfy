/** A recorded HTTP response as it is stored in YAML. */
module Response {

  /** Trace timestamps and the durations derived from them, in nanoseconds. */
  datatype ResponseTimes = ResponseTimes(
    dnsStart: int,
    dnsDone: int,
    connectStart: int,
    connectDone: int,
    tlsHandshakeStart: int,
    tlsHandshakeDone: int,
    gotFirstResponseByte: int,
    dnsLookup: int,
    tcpConnect: int,
    tlsHandshake: int,
    firstByte: int,
    total: int)

  datatype Cookie = Cookie(name: string, value: string)

  datatype ResponseObject = ResponseObject(
    requestHash: string,
    templateHash: string,
    statusCode: int,
    headers: map<string, string>,
    body: string,
    size: int,
    timing: ResponseTimes,
    cookies: seq<Cookie>)
}
