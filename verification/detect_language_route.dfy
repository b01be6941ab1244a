/** The POST handler of the language-detection route: one model call over the
    uploaded images, whose reply must hold a strict JSON fence. Every
    exception, including a fence body that does not parse, becomes a 500. */
module DetectLanguageRoute {
  import opened Wrappers
  import opened Text
  import opened JsValues
  import opened Fences
  import opened Http

  const MultipartType: string := "multipart/form-data"
  const UnsupportedMessage: string := "Unsupported content type"
  const NoImageMessage: string := "少なくとも1つの画像が必要です"
  const ExtractionFailedMessage: string := "JSON extraction failed"

  /** The model with this route's single fixed prompt: image parts to reply
      text, or a throw. */
  type Model = seq<Part> -> Outcome<string>

  /** `parsedData?.detectedLanguage || "Unknown"` */
  function Detected(parsed: Value): (r: Value)
    ensures Truthy(r)
    ensures r != Str("Unknown") ==> !Nullish(parsed) && r == Member(parsed, "detectedLanguage").value
    ensures !Nullish(parsed) && Truthy(Member(parsed, "detectedLanguage").value) ==>
              r == Member(parsed, "detectedLanguage").value
  {
    Or(OptionalMember(parsed, "detectedLanguage"), Str("Unknown"))
  }

  function LanguageBody(detected: Value): Value {
    Obj(map["detectedLanguage" := detected])
  }

  /** What the handler makes of the model's reply. */
  function Answer(reply: Outcome<string>, parse: Parse): (r: Reply)
    ensures r.Respond? && r.status in {200, 500}
    ensures reply.Threw? ==> r == Fail(500, reply.message)
    ensures reply.Returned? && StrictFence(reply.value).None? ==> r == Fail(500, ExtractionFailedMessage)
    ensures reply.Returned? && StrictFence(reply.value).Some? && parse(StrictFence(reply.value).value).Threw? ==>
              r == Fail(500, parse(StrictFence(reply.value).value).message)
    ensures r.status == 200 <==>
              reply.Returned? && StrictFence(reply.value).Some? && parse(StrictFence(reply.value).value).Returned?
    ensures r.status == 200 ==>
              r.body == LanguageBody(Detected(parse(StrictFence(reply.value).value).value))
  {
    match reply
    case Threw(e) => Fail(500, e)
    case Returned(text) =>
      match StrictFence(text)
      case None => Fail(500, ExtractionFailedMessage)
      case Some(j) =>
        match parse(j)
        case Threw(e) => Fail(500, e)
        case Returned(v) => Respond(200, LanguageBody(Detected(v)))
  }

  /** Bare JSON without a fence, which the menu-analysis route would parse,
      is refused here; the same JSON in a strict fence is read. */
  lemma FenceRequired(pre: string, body: string, post: string, parse: Parse)
    requires '`' !in pre && '`' !in body && parse(body).Returned?
    ensures Answer(Returned(body), parse) == Fail(500, ExtractionFailedMessage)
    ensures Answer(Returned(pre + StrictOpen + body + StrictClose + post), parse)
            == Respond(200, LanguageBody(Detected(parse(body).value)))
  {
    NoTickNoFence(body);
    StrictFenceRoundTrip(pre, body, post);
  }

  /** `POST`. */
  function Post(req: Request, model: Model, parse: Parse): (r: Reply)
    ensures r.Respond? && r.status in {200, 400, 500}
    ensures !HasContentType(req, MultipartType) ==> r == Fail(400, UnsupportedMessage)
    ensures HasContentType(req, MultipartType) && req.form.Threw? ==> r == Fail(500, req.form.message)
    ensures HasContentType(req, MultipartType) && req.form.Returned? && |req.form.value.images| == 0 ==>
              r == Fail(400, NoImageMessage)
    ensures HasContentType(req, MultipartType) && req.form.Returned? && |req.form.value.images| > 0 ==>
              r == Answer(model(InlineParts(req.form.value.images)), parse)
  {
    if !HasContentType(req, MultipartType) then Fail(400, UnsupportedMessage)
    else
      match req.form
      case Threw(e) => Fail(500, e)
      case Returned(f) =>
        if |f.images| == 0 then Fail(400, NoImageMessage)
        else Answer(model(InlineParts(f.images)), parse)
  }
}
