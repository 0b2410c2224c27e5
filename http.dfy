/**
 * The HTTP vocabulary the proxy speaks: the calls it makes to the Ollama
 * server, the replies it gets back (inputs of the model: the network is not
 * modelled), and the responses it gives its own clients.
 */
module Http {
  import opened Wrappers
  import opened Texts
  import Utf8
  import opened Json
  import JsonDecoder

  datatype Method = GET | POST | DELETE

  /** The `timeout=` of an `httpx.AsyncClient`: seconds, or `None` for no timeout. */
  datatype Timeout = Seconds(seconds: nat) | NoTimeout

  /** What a call sends: nothing, raw bytes (`content=`), or a document that
      httpx serialises itself (`json=`). */
  datatype Payload = NoPayload | Content(bytes: Utf8.Bytes) | JsonPayload(document: Value)

  /** One call to the upstream server. Every call that carries `content=`
      also sets `Content-Type: application/json`. */
  datatype Call = Call(verb: Method, url: Text, payload: Payload, timeout: Timeout)

  /** An upstream reply: status code, `content-type` header if any, body
      bytes, and the body as httpx decodes it for `r.text`. */
  datatype Reply = Reply(status: int, contentType: Option<Text>, content: Utf8.Bytes, text: Text)

  /** `HTTPException(status, detail)`. */
  datatype HttpException = HttpException(status: int, detail: Text)

  /** What a route answers: an HTTPException, a stream of the upstream body,
      a JSON document, or an exception nobody catches (a 500). */
  datatype Response =
    | Raised(exception: HttpException)
    | Streamed(content: Utf8.Bytes)
    | Buffered(document: Value)
    | Crashed(error: PyError)

  /** The calls a request caused, in order, and the response to it. */
  datatype Exchange = Exchange(calls: seq<Call>, response: Response)

  const OK: int := 200
  const NDJSON: Text := T("application/x-ndjson")

  /** The reply is a stream of JSON lines. */
  predicate IsNdjson(r: Reply) {
    r.contentType == Some(NDJSON)
  }

  /** `r.json()`, answered as a document or as the exception it raised. */
  function ReadJson(r: Reply): (response: Response)
    ensures response.Buffered? || response.Crashed?
    ensures response.Crashed? ==> response.error == UnicodeDecodeError || response.error == JSONDecodeError
  {
    match JsonDecoder.DecodeReply(r.content)
    case Ok(v) => Buffered(v)
    case Err(e) => Crashed(e)
  }

  /** The tail every proxy route shares: a status other than 200 becomes an
      HTTPException with the upstream status and text; otherwise a route that
      checks for streaming streams an NDJSON reply, and everything else is
      read as JSON. */
  function Relay(checksStream: bool, r: Reply): (response: Response)
    ensures r.status != OK ==> response == Raised(HttpException(r.status, r.text))
    ensures response.Streamed? <==> r.status == OK && checksStream && IsNdjson(r)
    ensures response.Streamed? ==> response.content == r.content
    ensures r.status == OK && !(checksStream && IsNdjson(r)) ==> response == ReadJson(r)
  {
    if r.status != OK then Raised(HttpException(r.status, r.text))
    else if checksStream && IsNdjson(r) then Streamed(r.content)
    else ReadJson(r)
  }
}
