/** The POST handler of the menu-analysis route: accepts only multipart
    uploads with at least one image, asks a generative model for the menu's
    language and then for a description of every dish, and returns the second
    reply unparsed. Every exception inside the handler becomes a 500. */
module GeminiRoute {
  import opened Wrappers
  import opened Text
  import opened JsValues
  import opened Fences
  import opened Http
  import Selectors

  const JsonType: string := "application/json"
  const MultipartType: string := "multipart/form-data"
  const UnsupportedMessage: string := "Unsupported content type"
  const NoImageMessage: string := "少なくとも1つの画像が必要です"

  /** The two prompts of this route; the second names the user's language. */
  datatype Prompt = DetectLanguagePrompt | MenuAnalysisPrompt(userLanguage: string)

  /** The generative model: a prompt and image parts to reply text, or a throw. */
  type Model = (Prompt, seq<Part>) -> Outcome<string>

  /** English language names to the Japanese names used in the prompt. */
  const LanguageMap: map<string, string> := map[
    "Japanese" := "日本語",
    "Spanish" := "スペイン語",
    "French" := "フランス語",
    "German" := "ドイツ語",
    "Korean" := "韓国語",
    "Vietnamese" := "ベトナム語",
    "Thai" := "タイ語",
    "English" := "英語",
    "Chinese" := "中国語"]

  /** `languageMap[translatedLanguage] || "日本語"`. Every value of the table
      is non-empty, so the fallback applies exactly to names outside it. */
  function UserLanguage(translatedLanguage: string): (r: string)
    ensures r in LanguageMap.Values
    ensures r == "日本語" <==> translatedLanguage !in LanguageMap || translatedLanguage == "Japanese"
    ensures translatedLanguage in LanguageMap ==> r == LanguageMap[translatedLanguage]
  {
    assert LanguageMap["Japanese"] == "日本語";
    if translatedLanguage in LanguageMap then LanguageMap[translatedLanguage] else "日本語"
  }

  /** The option values of the user-language selector are Japanese names, not
      keys of the table, so each of them falls back to "日本語". */
  lemma SelectorLanguagesFallBack()
    ensures forall i :: 0 <= i < |Selectors.LanguageOptions| ==>
              Selectors.LanguageOptions[i] !in LanguageMap
              && UserLanguage(Selectors.LanguageOptions[i]) == "日本語"
  {
  }

  /** `formData.get("translatedLanguage") || "Japan"`. */
  function TranslatedLanguage(form: Form): (r: string)
    ensures r == "Japan" <==> FormGet(form, "translatedLanguage") in {None, Some(""), Some("Japan")}
    ensures r != "" && (r != "Japan" ==> FormGet(form, "translatedLanguage") == Some(r))
  {
    match FormGet(form, "translatedLanguage")
    case Some(s) => if s != "" then s else "Japan"
    case None => "Japan"
  }

  /** The default "Japan" is not a key of the table either. */
  lemma DefaultLanguageFallsBack(form: Form)
    requires FormGet(form, "translatedLanguage") in {None, Some("")}
    ensures UserLanguage(TranslatedLanguage(form)) == "日本語"
  {
  }

  /** What is handed to `JSON.parse`: the strict fence's content when there
      is one, else the whole reply. */
  function Candidate(raw: string): (r: string)
    ensures StrictFence(raw).Some? ==> r == StrictFence(raw).value
    ensures StrictFence(raw).None? ==> r == raw
  {
    StrictFence(raw).GetOr(raw)
  }

  lemma CandidateOfFencedReply(pre: string, body: string, post: string)
    requires '`' !in pre && '`' !in body
    ensures Candidate(pre + StrictOpen + body + StrictClose + post) == body
  {
    StrictFenceRoundTrip(pre, body, post);
  }

  lemma CandidateOfPlainReply(raw: string)
    requires '`' !in raw
    ensures Candidate(raw) == raw
  {
    NoTickNoFence(raw);
  }

  /** `detectedLanguage` before `.trim()`: "Unknown" when parsing throws,
      when the parsed value is null (the property read throws and is caught)
      and when the field is falsy. */
  function DetectedValue(raw: string, parse: Parse): (r: Value)
    ensures Truthy(r)
    ensures r != Str("Unknown") ==>
              parse(Candidate(raw)).Returned? && !Nullish(parse(Candidate(raw)).value)
              && r == Member(parse(Candidate(raw)).value, "detectedLanguage").value
    ensures parse(Candidate(raw)).Returned? && !Nullish(parse(Candidate(raw)).value)
            && Truthy(Member(parse(Candidate(raw)).value, "detectedLanguage").value) ==>
              r == Member(parse(Candidate(raw)).value, "detectedLanguage").value
  {
    match parse(Candidate(raw))
    case Threw(_) => Str("Unknown")
    case Returned(v) =>
      match Member(v, "detectedLanguage")
      case None => Str("Unknown")
      case Some(d) => Or(d, Str("Unknown"))
  }

  /** The fields of a successful reply. */
  const MenuFields: set<string> := {"detectedLanguage", "userLanguage", "menuData"}

  function MenuBody(detected: string, userLanguage: string, menuData: string): (r: Value)
    ensures r.Obj? && r.fields.Keys == MenuFields
  {
    Obj(map["detectedLanguage" := Str(detected), "userLanguage" := Str(userLanguage), "menuData" := Str(menuData)])
  }

  /** The multipart branch once the form has been read. */
  function Analyse(form: Form, model: Model, parse: Parse): (r: Reply)
    ensures r.Respond?
    ensures |form.images| == 0 ==> r == Fail(400, NoImageMessage)
    ensures r.status == 200 ==>
              |form.images| > 0
              && model(DetectLanguagePrompt, InlineParts(form.images)).Returned?
              && DetectedValue(model(DetectLanguagePrompt, InlineParts(form.images)).value, parse).Str?
              && model(MenuAnalysisPrompt(UserLanguage(TranslatedLanguage(form))), InlineParts(form.images)).Returned?
              && r.body == MenuBody(
                   Trim(DetectedValue(model(DetectLanguagePrompt, InlineParts(form.images)).value, parse).s),
                   UserLanguage(TranslatedLanguage(form)),
                   model(MenuAnalysisPrompt(UserLanguage(TranslatedLanguage(form))), InlineParts(form.images)).value)
    ensures r.status != 200 ==> r.status in {400, 500} && r.body.Obj? && "error" in r.body.fields
    ensures |form.images| > 0 ==>
              var parts := InlineParts(form.images);
              var userLanguage := UserLanguage(TranslatedLanguage(form));
              var detection := model(DetectLanguagePrompt, parts);
              (detection.Threw? ==> r == Fail(500, detection.message))
              && (detection.Returned? && !DetectedValue(detection.value, parse).Str? ==>
                    r == Fail(500, TypeErrorMessage))
              && (detection.Returned? && DetectedValue(detection.value, parse).Str? ==>
                    var menu := model(MenuAnalysisPrompt(userLanguage), parts);
                    (menu.Threw? ==> r == Fail(500, menu.message))
                    && (menu.Returned? ==>
                          r == Respond(200, MenuBody(Trim(DetectedValue(detection.value, parse).s),
                                                     userLanguage, menu.value))))
  {
    if |form.images| == 0 then Fail(400, NoImageMessage)
    else
      var parts := InlineParts(form.images);
      match model(DetectLanguagePrompt, parts)
      case Threw(e) => Fail(500, e)
      case Returned(languageRaw) =>
        var detected := DetectedValue(languageRaw, parse);
        if !detected.Str? then Fail(500, TypeErrorMessage)
        else
          var userLanguage := UserLanguage(TranslatedLanguage(form));
          match model(MenuAnalysisPrompt(userLanguage), parts)
          case Threw(e) => Fail(500, e)
          case Returned(menuRaw) => Respond(200, MenuBody(Trim(detected.s), userLanguage, menuRaw))
  }

  /** `POST`. A JSON request is read (its failures are 500s) and then refused
      like any other request that is not multipart; a request whose type names
      both is read as JSON and then has no images. */
  function Post(req: Request, model: Model, parse: Parse): (r: Reply)
    ensures r.Respond?
    ensures HasContentType(req, JsonType) && req.json.Threw? ==> r == Fail(500, req.json.message)
    ensures HasContentType(req, JsonType) && req.json.Returned? && Nullish(req.json.value) ==>
              r == Fail(500, TypeErrorMessage)
    ensures HasContentType(req, JsonType) && req.json.Returned? && !Nullish(req.json.value) ==>
              r == Fail(400, if HasContentType(req, MultipartType) then NoImageMessage else UnsupportedMessage)
    ensures !HasContentType(req, JsonType) && !HasContentType(req, MultipartType) ==>
              r == Fail(400, UnsupportedMessage)
    ensures !HasContentType(req, JsonType) && HasContentType(req, MultipartType) ==>
              if req.form.Threw? then r == Fail(500, req.form.message)
              else r == Analyse(req.form.value, model, parse)
    ensures r.status == 200 ==> !HasContentType(req, JsonType) && HasContentType(req, MultipartType)
    ensures IsOk(r.status) ==> r.status == 200 && r.body.Obj? && r.body.fields.Keys == MenuFields
  {
    if HasContentType(req, JsonType) then
      match req.json
      case Threw(e) => Fail(500, e)
      case Returned(body) =>
        if Nullish(body) then Fail(500, TypeErrorMessage)
        else if !HasContentType(req, MultipartType) then Fail(400, UnsupportedMessage)
        else Fail(400, NoImageMessage)
    else if HasContentType(req, MultipartType) then
      match req.form
      case Threw(e) => Fail(500, e)
      case Returned(f) => Analyse(f, model, parse)
    else Fail(400, UnsupportedMessage)
  }

  /** With photos, a detection reply that fences an object whose
      `detectedLanguage` is a non-empty string, and a menu reply, the route
      answers 200 with that language trimmed, the user's language and the menu
      reply as it came. */
  lemma AnalyseReportsFencedLanguage(form: Form, model: Model, parse: Parse,
                                     pre: string, body: string, post: string, language: string)
    requires |form.images| > 0
    requires '`' !in pre && '`' !in body && language != ""
    requires model(DetectLanguagePrompt, InlineParts(form.images))
             == Returned(pre + StrictOpen + body + StrictClose + post)
    requires parse(body) == Returned(Obj(map["detectedLanguage" := Str(language)]))
    requires model(MenuAnalysisPrompt(UserLanguage(TranslatedLanguage(form))), InlineParts(form.images)).Returned?
    ensures Analyse(form, model, parse)
            == Respond(200, MenuBody(Trim(language), UserLanguage(TranslatedLanguage(form)),
                 model(MenuAnalysisPrompt(UserLanguage(TranslatedLanguage(form))), InlineParts(form.images)).value))
  {
    var raw := pre + StrictOpen + body + StrictClose + post;
    CandidateOfFencedReply(pre, body, post);
    assert DetectedValue(raw, parse) == Str(language);
  }

  lemma UnknownTrimmed()
    ensures Trim("Unknown") == "Unknown"
  {
    TrimOfTrimmed("Unknown");
  }

  /** The language field of a successful reply is trimmed, and it is
      "Unknown" whenever the detection reply does not parse. */
  lemma DetectedLanguageTrimmed(raw: string, parse: Parse)
    requires DetectedValue(raw, parse).Str?
    ensures var d := Trim(DetectedValue(raw, parse).s);
            Trim(d) == d && (parse(Candidate(raw)).Threw? ==> d == "Unknown")
  {
    TrimIdempotent(DetectedValue(raw, parse).s);
    UnknownTrimmed();
  }
}
