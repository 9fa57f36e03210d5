/** What a controller hands to Express: a status code and a body.  `res.json(x)`
    without `res.status(..)` answers 200. */
module Http {
  import opened Outcomes
  import opened Json

  datatype Response<+B> = Response(status: int, body: B)

  /** The body `{ error: message }` every failing handler sends. */
  function ErrorBody(message: string): (b: Json)
    ensures b.JObj? && b.fields.Keys == {"error"} && b.fields["error"] == JStr(message)
  {
    JObj(map["error" := JStr(message)])
  }

  /** The body `{ ok: true }`. */
  const OkTrue: Json := JObj(map["ok" := JBool(true)])

  /** The answer to a caught error: the error's own status and message when
      it has them (a zero status or an empty message counts as none),
      otherwise 500 and the handler's fallback text. */
  function FailureResponse(f: Failure, fallback: string): (r: Response<Json>)
    ensures f.status.Some? && f.status.value != 0 ==> r.status == f.status.value
    ensures f.status.None? || f.status.value == 0 ==> r.status == 500
    ensures r.status != 0
    ensures f.message != "" ==> r.body == ErrorBody(f.message)
    ensures f.message == "" ==> r.body == ErrorBody(fallback)
  {
    var status := if f.status.Some? && f.status.value != 0 then f.status.value else 500;
    var message := if f.message != "" then f.message else fallback;
    Response(status, ErrorBody(message))
  }
}
