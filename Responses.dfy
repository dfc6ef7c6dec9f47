/** WebServer6's `HttpListenerResponse`, as the middleware and the handlers leave it. */
module Responses {
  import opened Wrappers
  import opened Files
  import opened FileServing
  import opened Settings

  type Header = (string, string)

  /** Status, `ContentType` (`null` until someone sets it), `ContentLength64`, the headers added in
      order, what was written to the output stream, and whether the response was closed. */
  datatype Response = Response(
    statusCode: int,
    contentType: Option<string>,
    contentLength64: int,
    headers: seq<Header>,
    body: Body,
    closed: bool)

  /** The response `HttpListener` hands over: 200, no content type, nothing written. */
  const Fresh := Response(200, None, 0, [], Content([]), false)

  const StatusUnauthorized := 401

  /** `SendErrorResponseAsync` of `Program` and of `StaticFilesHandler`: the status, the length
      and the text of the message, then `Close()`. A closed response throws at the first setter. */
  function SendErrorResponse(response: Response, statusCode: int, message: string): (r: Result<Response, Exception>)
    ensures r.Success? <==> !response.closed
    ensures r.Success? ==> r.value.statusCode == statusCode && r.value.body == Message(message) && r.value.closed
    ensures r.Success? ==> r.value.contentType == response.contentType && r.value.headers == response.headers
  {
    if response.closed then Failure(ObjectDisposedException)
    else Success(response.(statusCode := statusCode, contentLength64 := |message|, body := Message(message), closed := true))
  }
}
