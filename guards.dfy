/** The two guards around the model server call: the request must be JSON,
    and the model server must answer with status 200. */
module Guards {
  import opened Outcomes

  /** The fields of the serving container's request context that the handler reads.
      `restUri` is where the request is forwarded; that call is a parameter of the
      handler here, so only its answer, a `ServerResponse`, appears in the model. */
  datatype Context = Context(requestContentType: Option<string>, acceptHeader: string, restUri: string)

  /** The model server's answer: its HTTP status and its body, as text. */
  datatype ServerResponse = ServerResponse(statusCode: int, content: string)

  const JsonContentType: string := "application/json"
  const UnsupportedPrefix: string := "{\"error\": \"unsupported content type "
  const UnsupportedSuffix: string := "\"}"

  /** The name the error reports: Python's `request_content_type or "unknown"`,
      so a missing and an empty content type both read "unknown". */
  function ReportedName(contentType: Option<string>): string {
    match contentType
    case Some(name) => if name == "" then "unknown" else name
    case None => "unknown"
  }

  /** The JSON error text raised for an unsupported content type. */
  function UnsupportedMessage(name: string): string {
    UnsupportedPrefix + name + UnsupportedSuffix
  }

  /** Reads the content type back out of an "unsupported content type" message. */
  function NameInMessage(message: string): Option<string> {
    var p, s := |UnsupportedPrefix|, |UnsupportedSuffix|;
    if |message| >= p + s && message[..p] == UnsupportedPrefix && message[|message| - s..] == UnsupportedSuffix
    then Some(message[p..|message| - s])
    else None
  }

  /** The error message always names the content type it refused. */
  lemma UnsupportedMessageNamesContentType(name: string)
    ensures NameInMessage(UnsupportedMessage(name)) == Some(name)
  {
  }

  /** `_process_input`: a JSON body passes through unchanged; any other content
      type, or none, is refused with a message naming it. */
  function ProcessInput(body: string, ctx: Context): (r: Result<string>)
    ensures r.Success? <==> ctx.requestContentType == Some(JsonContentType)
    ensures r.Success? ==> r.value == body
    ensures r.Failure? ==> r.error.UnsupportedContentType?
    ensures r.Failure? && ctx.requestContentType.Some? && ctx.requestContentType.value != "" ==>
              NameInMessage(r.error.message) == Some(ctx.requestContentType.value)
    ensures r.Failure? && (ctx.requestContentType == None || ctx.requestContentType == Some("")) ==>
              NameInMessage(r.error.message) == Some("unknown")
  {
    if ctx.requestContentType == Some(JsonContentType) then
      Success(body)
    else
      UnsupportedMessageNamesContentType(ReportedName(ctx.requestContentType));
      Failure(UnsupportedContentType(UnsupportedMessage(ReportedName(ctx.requestContentType))))
  }

  /** `_process_output`: any status other than 200 is an error carrying the
      server's body; otherwise the body and the client's accept header pass
      through untouched. */
  function ProcessOutput(response: ServerResponse, ctx: Context): (r: Result<(string, string)>)
    ensures r.Success? <==> response.statusCode == 200
    ensures r.Success? ==> r.value.0 == response.content && r.value.1 == ctx.acceptHeader
    ensures r.Failure? ==> r.error == UpstreamFailure(response.content)
  {
    if response.statusCode != 200 then
      Failure(UpstreamFailure(response.content))
    else
      Success((response.content, ctx.acceptHeader))
  }
}
