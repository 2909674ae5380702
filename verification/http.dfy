/** Error values the handlers pass to `next`, the responses the gateway
    sends, and the error handler that turns the one into the other
    (src/server.ts, errorHandler). */
module Http {
  import opened Base

  /** A JavaScript error-like object, described by the fields the gateway
      reads from it: `status` and `msg` (the handlers' own `{status, msg}`
      shape; 0 and NoMsg when absent), `statusCode` (set by object-store
      errors; 0 when absent) and `code` (an error code string; "" when
      absent). */
  datatype ErrorObject = ErrorObject(status: nat, msg: ErrMsg, statusCode: nat, code: string)

  /** The `msg` field: absent, a string, or a wrapped error object. */
  datatype ErrMsg = NoMsg | Text(text: string) | Wrapped(cause: ErrorObject)

  /** JavaScript truthiness of a `msg` field. */
  predicate Truthy(m: ErrMsg) {
    m.Wrapped? || (m.Text? && m.text != "")
  }

  /** The `{ status, msg }` objects the handlers and middleware create. */
  function ClientError(status: nat, text: string): ErrorObject {
    ErrorObject(status, Text(text), 0, "")
  }

  /** `{ status: 502, msg: err }`: an upstream failure wrapping its cause. */
  function Upstream(cause: ErrorObject): ErrorObject {
    ErrorObject(502, Wrapped(cause), 0, "")
  }

  datatype Body =
    | NoBody                                        // res.send(undefined)
    | TextBody(text: string)                        // res.send(string), res.sendStatus
    | ErrorJson(err: ErrorObject)                   // res.send(object) of an error object
    | PutResult(size: nat, version: Option<string>) // res.send({ size, version })
    | Bytes(data: seq<Byte>)                        // object bytes piped to the client

  datatype Response = Response(status: nat, body: Body)

  /** What a request handler or middleware does: send a response, or call
      `next(err)` exactly once. */
  datatype Outcome = Sent(response: Response) | Next(err: ErrorObject)

  /** Express's error handler. `sent` is the response already committed, if
      headers went out; then the response is only ended and left as it was.
      Otherwise the status is `err.status`, or 500 when unset, and the body
      is "Upstream error: <code>" when `err.msg` carries an error code, else
      `err.msg` itself. */
  function ErrorHandler(err: ErrorObject, sent: Option<Response>): (r: Response)
    ensures sent.Some? ==> r == sent.value
    ensures sent.None? && err.status != 0 ==> r.status == err.status
    ensures sent.None? && err.status == 0 ==> r.status == 500
    ensures sent.None? && err.msg.Wrapped? && err.msg.cause.code != "" ==>
              r.body == TextBody("Upstream error: " + err.msg.cause.code)
    ensures sent.None? && err.msg.Text? ==> r.body == TextBody(err.msg.text)
    ensures sent.None? && err.msg.NoMsg? ==> r.body == NoBody
    ensures sent.None? && err.msg.Wrapped? && err.msg.cause.code == "" ==> r.body == ErrorJson(err.msg.cause)
  {
    if sent.Some? then sent.value
    else
      var status := if err.status != 0 then err.status else 500;
      var body :=
        match err.msg
        case Wrapped(cause) =>
          if cause.code != "" then TextBody("Upstream error: " + cause.code) else ErrorJson(cause)
        case Text(t) => TextBody(t)
        case NoMsg => NoBody;
      Response(status, body)
  }

  /** A `{ status, msg }` error made by the gateway itself reaches the
      client unchanged: its status, and its message as the body. */
  lemma ClientErrorPassesThrough(status: nat, text: string)
    requires status != 0
    ensures ErrorHandler(ClientError(status, text), None) == Response(status, TextBody(text))
  {
  }

  /** An upstream failure is reported as 502 with only its code string. */
  lemma UpstreamErrorHidesCause(cause: ErrorObject)
    requires cause.code != ""
    ensures ErrorHandler(Upstream(cause), None) == Response(502, TextBody("Upstream error: " + cause.code))
  {
  }
}
