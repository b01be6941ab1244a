/** What the route handlers share: the request as the handler sees it, the
    reply it produces, and the uploaded images. */
module Http {
  import opened Wrappers
  import opened JsValues
  import Text

  /** The answer of a route handler. `Respond` is `NextResponse.json(body,
      { status })`; `Rejected` is a handler whose promise rejects with the given
      message, leaving the response to the framework. */
  datatype Reply = Respond(status: int, body: Value) | Rejected(message: string)

  /** `{ error: message }` */
  function ErrorBody(message: string): Value {
    Obj(map["error" := Str(message)])
  }

  function Fail(status: int, message: string): Reply {
    Respond(status, ErrorBody(message))
  }

  /** Stands for the message of a TypeError the JavaScript engine raises (a
      property read on null or undefined, a call of a missing method); its
      wording is the engine's and nothing here depends on it. */
  const TypeErrorMessage: string := "TypeError"

  /** `response.ok` */
  predicate IsOk(status: int) {
    200 <= status <= 299
  }

  /** An uploaded `File`: its `type` and its bytes. */
  datatype Image = Image(mimeType: string, bytes: seq<int>)

  /** An inline image part of a generative-model request. The base64 text of
      the bytes is not modelled; the part carries the bytes themselves. */
  datatype Part = InlineData(bytes: seq<int>, mimeType: string)

  /** Each upload as an inline part carrying the file's own type. */
  function InlineParts(images: seq<Image>): (parts: seq<Part>)
    ensures |parts| == |images|
    ensures forall i :: 0 <= i < |images| ==> parts[i] == InlineData(images[i].bytes, images[i].mimeType)
  {
    seq(|images|, i requires 0 <= i < |images| => InlineData(images[i].bytes, images[i].mimeType))
  }

  /** What `request.formData()` yields: its text fields and the files under
      the name "images". */
  datatype Form = Form(fields: map<string, string>, images: seq<Image>)

  /** `formData.get(name)`; `None` is `null`. */
  function FormGet(form: Form, name: string): Option<string> {
    if name in form.fields then Some(form.fields[name]) else None
  }

  /** An incoming request: its content-type header (`None` when absent) and
      what `request.json()` and `request.formData()` produce when called; each
      of them may throw. */
  datatype Request = Request(contentType: Option<string>, json: Outcome<Value>, form: Outcome<Form>)

  /** `request.headers.get("content-type") || ""` */
  function ContentType(req: Request): string {
    req.contentType.GetOr("")
  }

  /** `request.headers.get("content-type") || ""` includes `pat`. */
  predicate HasContentType(req: Request, pat: string) {
    Text.Includes(ContentType(req), pat)
  }

  /** `JSON.parse`: the value, or the message of the SyntaxError it throws. */
  type Parse = string -> Outcome<Value>

  /** What `fetch` resolves to, as the caller reads it: the status and what
      `response.json()` yields. */
  datatype Response = Response(status: int, json: Outcome<Value>)

  /** The response a client receives for a handler's reply. A rejected handler
      becomes a 500 whose body is not JSON. */
  function Delivered(r: Reply): (resp: Response)
    ensures r.Respond? ==> resp == Response(r.status, Returned(r.body))
    ensures r.Rejected? ==> resp.status == 500 && resp.json.Threw?
  {
    match r
    case Respond(status, body) => Response(status, Returned(body))
    case Rejected(_) => Response(500, Threw(SyntaxErrorMessage))
  }

  /** Stands for the message of the SyntaxError `response.json()` raises on a
      body that is not JSON. */
  const SyntaxErrorMessage: string := "SyntaxError"
}
