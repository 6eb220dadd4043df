/** What the two edge functions have in common: a request is an HTTP method and
    a JSON body that may fail to parse; a response is a status and either
    the preflight text "ok", a JSON payload, or a JSON `{error}` object.
    Every response carries the same CORS headers, which are not modelled. */
module Relay {
  import Text

  /** `await req.json()`: the parsed fields, or the parser's error message. */
  datatype JsonBody<F> = Parsed(fields: F) | Malformed(message: string)

  datatype Request<F> = Request(httpMethod: string, body: JsonBody<F>)

  datatype Body<P> = PreflightOk | Payload(value: P) | Error(error: string)

  datatype Response<P> = Response(status: int, body: Body<P>)

  /** `new Response("ok", { headers: corsHeaders })`. */
  function Preflight<P>(): (r: Response<P>)
    ensures r.status == 200 && r.body.PreflightOk?
  {
    Response(200, PreflightOk)
  }

  /** The `catch` block: status 500 with the error's message, or the
      fallback when the message is empty. */
  function Failure<P>(message: string, fallback: string): (r: Response<P>)
    requires fallback != ""
    ensures r.status == 500 && r.body.Error? && r.body.error != ""
    ensures message != "" ==> r.body.error == message
    ensures message == "" ==> r.body.error == fallback
  {
    Response(500, Error(Text.OrElse(message, fallback)))
  }

  /** A successful JSON response. */
  function Success<P>(value: P): (r: Response<P>)
    ensures r.status == 200 && r.body == Payload(value)
  {
    Response(200, Payload(value))
  }

  /** The shape every response of both functions has: status 500 exactly
      for an error body, whose message is never empty, and 200 otherwise. */
  predicate WellShaped<P>(r: Response<P>) {
    && (r.status == 500 <==> r.body.Error?)
    && (r.status != 500 ==> r.status == 200)
    && (r.body.Error? ==> r.body.error != "")
  }
}
