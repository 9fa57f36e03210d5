/** The client's request helper (frontend/src/services/apiClient.js): the
    `Authorization` header it attaches for the stored token, and how a server
    response becomes the resolved value or the thrown error of the promise
    the hooks await.  The transport itself (`fetch`, the base URL, body
    encoding) is outside the model. */
module ApiClient {
  import opened Outcomes
  import opened Json
  import opened Http
  import ParseInt

  /** The header sent for the token held in the client's slot: `Bearer `
      followed by the token when it is a non-empty string, no header when
      the slot holds nothing truthy. */
  function Authorization(token: Json): (h: Option<string>)
    ensures !Truthy(token) ==> h.None?
    ensures token.JStr? && token.s != "" ==> h == Some("Bearer " + token.s)
  {
    match token
    case JStr(t) => if t != "" then Some("Bearer " + t) else None
    case _ => None
  }

  /** The text the error message is taken from: the payload's `message`
      when truthy, otherwise its `error`; nothing for a falsy payload. */
  function PayloadMessage(body: Json): (m: Option<Json>)
    ensures !Truthy(body) ==> m.None?
    ensures Truthy(body) && TruthyOpt(Prop(body, "message")) ==> m == Prop(body, "message")
    ensures Truthy(body) && !TruthyOpt(Prop(body, "message")) ==> m == Prop(body, "error")
  {
    if !Truthy(body) then None
    else if TruthyOpt(Prop(body, "message")) then Prop(body, "message")
    else Prop(body, "error")
  }

  /** `HTTP <status>`, the last fallback message. */
  function StatusLine(status: int): (s: string)
    ensures |s| > 5 && s[..5] == "HTTP "
  {
    "HTTP " + (if status >= 0 then ParseInt.DecimalString(status) else "-" + ParseInt.DecimalString(0 - status))
  }

  /** What `request` resolves to for a response with the given status text:
      the payload for a 2xx status; otherwise an error carrying the status
      and, as message, the payload's message or error text, else the status
      text, else `HTTP <status>`. */
  function Delivered(r: Response<Json>, statusText: string): (res: Result<Json>)
    ensures 200 <= r.status < 300 <==> res.Ok?
    ensures res.Ok? ==> res.value == r.body
    ensures res.Err? ==> res.failure.status == Some(r.status)
    ensures res.Err? && TruthyOpt(PayloadMessage(r.body)) && PayloadMessage(r.body).value.JStr? ==>
      res.failure.message == PayloadMessage(r.body).value.s
    ensures res.Err? && !TruthyOpt(PayloadMessage(r.body)) && statusText != "" ==> res.failure.message == statusText
    ensures res.Err? && !TruthyOpt(PayloadMessage(r.body)) && statusText == "" ==> res.failure.message == StatusLine(r.status)
  {
    if 200 <= r.status < 300 then Ok(r.body)
    else
      var m := PayloadMessage(r.body);
      var message :=
        if TruthyOpt(m) then (if m.value.JStr? then m.value.s else "")
        else if statusText != "" then statusText
        else StatusLine(r.status);
      Err(Failure(Some(r.status), message))
  }

  /** A failure a handler answers with reaches the client as the same
      status and message: the error's own message, or the handler's fallback
      when it had none. */
  lemma {:induction false} FailureReachesClient(f: Failure, fallback: string, statusText: string)
    requires fallback != ""
    requires var r := FailureResponse(f, fallback); !(200 <= r.status < 300)
    ensures var r := FailureResponse(f, fallback);
      Delivered(r, statusText) == Err(Failure(Some(r.status), if f.message != "" then f.message else fallback))
  {
    var r := FailureResponse(f, fallback);
    var text := if f.message != "" then f.message else fallback;
    assert r.body == ErrorBody(text);
    assert Prop(r.body, "message") == None;
    assert PayloadMessage(r.body) == Some(JStr(text));
  }
}
