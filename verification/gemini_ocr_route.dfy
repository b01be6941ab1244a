/** The POST handler of the OCR route: detects the menu's language and
    extracts dish names and prices from the uploaded images with two calls to a
    generative model, whose replies are free text holding JSON. */
module GeminiOcrRoute {
  import opened Wrappers
  import opened Text
  import opened JsValues
  import opened Fences
  import opened Http

  /** The span from the first "[" to the last "]", when the last "]" lies after
      the first "[". */
  function BracketSpan(raw: string): (r: Option<string>)
    ensures r.Some? ==> |r.value| >= 2 && r.value[0] == '[' && r.value[|r.value| - 1] == ']'
    ensures r.Some? ==> IsSubstring(r.value, raw)
    ensures r.None? <==> (IndexOf(raw, '[').None? || LastIndexOf(raw, ']').None?
                          || LastIndexOf(raw, ']').value <= IndexOf(raw, '[').value)
  {
    match (IndexOf(raw, '['), LastIndexOf(raw, ']'))
    case (Some(first), Some(last)) =>
      if last > first then
        assert raw[first..last + 1][0] == raw[first];
        Some(raw[first..last + 1])
      else None
    case _ => None
  }

  /** True when a candidate is `undefined` or the empty string, the two values
      on which `!s` holds for a `string | undefined`. */
  predicate Falsy(s: Option<string>) {
    s.None? || s.value == ""
  }

  /** `extractJson`: the loose fence's content if non-empty, else the trimmed
      text if it starts with "[", else the bracket span; `None` is `null`. An
      empty fence survives as "" when nothing else matches, because `??` only
      replaces `undefined`. */
  function ExtractJson(raw: string): (r: Option<string>)
    ensures r.Some? ==> IsSubstring(r.value, raw)
    ensures !Falsy(LooseFence(raw)) ==> r == LooseFence(raw)
    ensures Falsy(LooseFence(raw)) && StartsWith(Trim(raw), "[") ==> r == Some(Trim(raw))
    ensures Falsy(LooseFence(raw)) && !StartsWith(Trim(raw), "[") && BracketSpan(raw).Some? ==>
              r == BracketSpan(raw)
    ensures r == Some("") <==>
              (LooseFence(raw) == Some("") && !StartsWith(Trim(raw), "[") && BracketSpan(raw).None?)
    ensures r.None? <==>
              (LooseFence(raw).None? && !StartsWith(Trim(raw), "[") && BracketSpan(raw).None?)
  {
    var s := LooseFence(raw);
    var s := if Falsy(s) && StartsWith(Trim(raw), "[") then Some(Trim(raw)) else s;
    if Falsy(s) && BracketSpan(raw).Some? then BracketSpan(raw) else s
  }

  /** Text without a backtick that has nothing but a JSON array after
      whitespace is taken whole. */
  lemma ExtractBareArray(x: string)
    requires |x| >= 2 && x[0] == '[' && x[|x| - 1] == ']' && '`' !in x
    ensures ExtractJson(x) == Some(x)
  {
    NoTickNoFence(x);
    TrimOfTrimmed(x);
  }

  /** The loose fence finds a backtick-free text inside a strict fence,
      stripped of the two newlines. */
  lemma LooseFenceOfStrict(x: string)
    requires '`' !in x && |x| > 0 && !IsSpace(x[0]) && !IsSpace(x[|x| - 1])
    ensures LooseFence(StrictOpen + x + StrictClose) == Some(x)
  {
    var raw := StrictOpen + x + StrictClose;
    var body := "\n" + x + "\n";
    var k := |raw| - |Ticks|;
    assert raw == LooseOpen + body + Ticks by {
      assert StrictOpen == LooseOpen + "\n" && StrictClose == "\n" + Ticks;
    }
    assert raw[0..|LooseOpen|] == LooseOpen;
    assert raw[k..k + |Ticks|] == Ticks;
    assert raw[|LooseOpen|..k] == body;
    assert OccursAt(raw, LooseOpen, 0) && OccursAt(raw, Ticks, k);
    assert forall i :: |LooseOpen| <= i < k ==> raw[i] != '`' by {
      forall i | |LooseOpen| <= i < k
        ensures raw[i] != '`'
      {
        assert raw[i] == body[i - |LooseOpen|];
        assert body[i - |LooseOpen|] == '\n' || body[i - |LooseOpen|] == x[i - |LooseOpen| - 1];
      }
    }
    LooseFenceAt(raw, 0, k, body);
    TrimPadded(body, "\n", x, "\n");
  }

  /** The same array in a "```json" fence is recovered by the first strategy. */
  lemma ExtractFencedArray(x: string)
    requires |x| >= 2 && x[0] == '[' && x[|x| - 1] == ']' && '`' !in x
    ensures ExtractJson(StrictOpen + x + StrictClose) == Some(x)
  {
    LooseFenceOfStrict(x);
  }

  lemma FirstBracketAt(pre: string, x: string, post: string)
    requires '[' !in pre && |x| > 0 && x[0] == '['
    ensures IndexOf(pre + x + post, '[') == Some(|pre|)
  {
    var raw := pre + x + post;
    assert raw[|pre|] == '[';
    assert forall i :: 0 <= i < |pre| ==> raw[i] == pre[i];
  }

  lemma LastBracketAt(pre: string, x: string, post: string)
    requires ']' !in post && |x| > 0 && x[|x| - 1] == ']'
    ensures LastIndexOf(pre + x + post, ']') == Some(|pre| + |x| - 1)
  {
    var raw := pre + x + post;
    assert raw[|pre| + |x| - 1] == ']';
    assert forall i :: |pre| + |x| <= i < |raw| ==> raw[i] == post[i - |pre| - |x|];
  }

  /** Prose with a non-space character and no "[" keeps the trimmed text from
      starting with "[". */
  lemma TrimStartsInProse(pre: string, rest: string)
    requires '[' !in pre && !AllSpaces(pre)
    ensures !StartsWith(Trim(pre + rest), "[")
  {
    var raw := pre + rest;
    var j :| 0 <= j < |pre| && !IsSpace(pre[j]);
    assert raw[j] == pre[j];
    if Trim(raw) != [] {
      TrimFirst(raw);
      assert raw[LeadingSpaces(raw)] == pre[LeadingSpaces(raw)];
    }
  }

  /** The same array between prose that has no brackets or backticks is
      recovered by the bracket-span strategy. */
  lemma ExtractEmbeddedArray(pre: string, x: string, post: string)
    requires |x| >= 2 && x[0] == '[' && x[|x| - 1] == ']' && '`' !in x
    requires '`' !in pre && '[' !in pre && ']' !in pre && !AllSpaces(pre)
    requires '`' !in post && ']' !in post
    ensures ExtractJson(pre + x + post) == Some(x)
  {
    var raw := pre + x + post;
    assert '`' !in raw;
    NoTickNoFence(raw);
    TrimStartsInProse(pre, x + post);
    assert pre + (x + post) == raw;
    FirstBracketAt(pre, x, post);
    LastBracketAt(pre, x, post);
    assert raw[|pre|..|pre| + |x|] == x;
  }

  /** The two fixed prompts of this route. */
  datatype Prompt = DetectLanguagePrompt | MenuExtractionPrompt

  /** The generative model: a prompt and image parts to reply text, or a throw. */
  type Model = (Prompt, seq<Part>) -> Outcome<string>

  /** Each upload as an inline part; a file without a type is sent as JPEG. */
  function ToParts(images: seq<Image>): (parts: seq<Part>)
    ensures |parts| == |images|
    ensures forall i :: 0 <= i < |images| ==> parts[i].bytes == images[i].bytes
    ensures forall i :: 0 <= i < |images| ==>
              parts[i].mimeType == (if images[i].mimeType != "" then images[i].mimeType else "image/jpeg")
  {
    seq(|images|, i requires 0 <= i < |images| =>
      InlineData(images[i].bytes, if images[i].mimeType != "" then images[i].mimeType else "image/jpeg"))
  }

  /** The language read from the detection reply: "Unknown" unless extraction
      yields a non-empty string that parses to a value whose
      `detectedLanguage` is neither null nor undefined. */
  function DetectedLanguage(raw: string, parse: Parse): (r: Value)
    ensures !Nullish(r)
    ensures r != Str("Unknown") ==>
              ExtractJson(raw).Some? && ExtractJson(raw).value != ""
              && parse(ExtractJson(raw).value).Returned?
              && !Nullish(parse(ExtractJson(raw).value).value)
              && r == Member(parse(ExtractJson(raw).value).value, "detectedLanguage").value
    ensures (ExtractJson(raw).Some? && ExtractJson(raw).value != ""
             && parse(ExtractJson(raw).value).Returned?
             && Member(parse(ExtractJson(raw).value).value, "detectedLanguage").Some?
             && !Nullish(Member(parse(ExtractJson(raw).value).value, "detectedLanguage").value)) ==>
              r == Member(parse(ExtractJson(raw).value).value, "detectedLanguage").value
  {
    match ExtractJson(raw)
    case None => Str("Unknown")
    case Some(j) =>
      if j == "" then Str("Unknown")
      else match parse(j)
        case Threw(_) => Str("Unknown")
        case Returned(v) =>
          match Member(v, "detectedLanguage")
          case None => Str("Unknown")
          case Some(d) => Coalesce(d, Str("Unknown"))
  }

  /** A detection reply that fences an object reports its
      `detectedLanguage` field, or "Unknown" when the field is null or
      undefined. */
  lemma DetectedLanguageOfFence(pre: string, body: string, post: string, parse: Parse, field: Value)
    requires '`' !in pre && '`' !in body && Trim(body) != ""
    requires parse(Trim(body)) == Returned(Obj(map["detectedLanguage" := field]))
    ensures DetectedLanguage(pre + LooseOpen + body + Ticks + post, parse)
            == (if Nullish(field) then Str("Unknown") else field)
  {
    ExtractFencedBody(pre, body, post);
    DetectedLanguageOfText(pre + LooseOpen + body + Ticks + post, Trim(body), parse, field);
  }

  lemma ExtractFencedBody(pre: string, body: string, post: string)
    requires '`' !in pre && '`' !in body && Trim(body) != ""
    ensures ExtractJson(pre + LooseOpen + body + Ticks + post) == Some(Trim(body))
  {
    LooseFenceRoundTrip(pre, body, post);
  }

  lemma DetectedLanguageOfText(raw: string, text: string, parse: Parse, field: Value)
    requires ExtractJson(raw) == Some(text) && text != ""
    requires parse(text) == Returned(Obj(map["detectedLanguage" := field]))
    ensures DetectedLanguage(raw, parse) == (if Nullish(field) then Str("Unknown") else field)
  {
    assert Member(Obj(map["detectedLanguage" := field]), "detectedLanguage") == Some(field);
  }

  const NoImageMessage: string := "画像がありません"
  const MenuParseMessage: string := "メニュー JSON 解析に失敗しました"

  /** `POST`. The handler has no try block: a failing `formData()` or model
      call rejects the handler. */
  function Post(form: Outcome<Form>, model: Model, parse: Parse): (r: Reply)
    ensures form.Threw? ==> r.Rejected?
    ensures form.Returned? && |form.value.images| == 0 ==> r == Fail(400, NoImageMessage)
    ensures r.Respond? && r.status == 200 ==>
              form.Returned? && |form.value.images| > 0
              && model(DetectLanguagePrompt, ToParts(form.value.images)).Returned?
              && model(MenuExtractionPrompt, ToParts(form.value.images)).Returned?
              && r.body.Obj? && "menuList" in r.body.fields
              && "detectedLanguage" in r.body.fields && "translatedLanguage" in r.body.fields
              && r.body.fields["detectedLanguage"]
                 == DetectedLanguage(model(DetectLanguagePrompt, ToParts(form.value.images)).value, parse)
              && r.body.fields["translatedLanguage"] == Str(FormGet(form.value, "translatedLanguage").GetOr("日本語"))
    ensures r.Respond? ==> r.status in {200, 400, 500}
    ensures form.Returned? && |form.value.images| > 0 ==>
              var parts := ToParts(form.value.images);
              (model(DetectLanguagePrompt, parts).Threw?
               || (model(DetectLanguagePrompt, parts).Returned? && model(MenuExtractionPrompt, parts).Threw?))
              ==> r.Rejected?
  {
    match form
    case Threw(e) => Rejected(e)
    case Returned(f) =>
      var translatedLanguage := FormGet(f, "translatedLanguage").GetOr("日本語");
      if |f.images| == 0 then Fail(400, NoImageMessage)
      else
        var parts := ToParts(f.images);
        match model(DetectLanguagePrompt, parts)
        case Threw(e) => Rejected(e)
        case Returned(detectRaw) =>
          var detectedLanguage := DetectedLanguage(detectRaw, parse);
          match model(MenuExtractionPrompt, parts)
          case Threw(e) => Rejected(e)
          case Returned(menuRaw) =>
            var success := (menuList: Value) => Respond(200, Obj(map[
              "detectedLanguage" := detectedLanguage,
              "translatedLanguage" := Str(translatedLanguage),
              "menuList" := menuList]));
            match ExtractJson(menuRaw)
            case None => success(Arr([]))
            case Some(j) =>
              if j == "" then success(Arr([]))
              else match parse(j)
                case Threw(_) => Respond(500, Obj(map["error" := Str(MenuParseMessage), "raw" := Str(menuRaw)]))
                case Returned(v) => success(v)
  }

  /** No extractable JSON is an empty menu, not an error; extracted JSON that
      does not parse is a 500 carrying the raw reply. */
  lemma MenuListOutcomes(f: Form, model: Model, parse: Parse)
    requires |f.images| > 0
    requires model(DetectLanguagePrompt, ToParts(f.images)).Returned?
    requires model(MenuExtractionPrompt, ToParts(f.images)).Returned?
    ensures var menuRaw := model(MenuExtractionPrompt, ToParts(f.images)).value;
            var r := Post(Returned(f), model, parse);
            && (Falsy(ExtractJson(menuRaw)) ==> r.Respond? && r.status == 200 && r.body.fields["menuList"] == Arr([]))
            && (!Falsy(ExtractJson(menuRaw)) && parse(ExtractJson(menuRaw).value).Threw? ==>
                  r == Respond(500, Obj(map["error" := Str(MenuParseMessage), "raw" := Str(menuRaw)])))
            && (!Falsy(ExtractJson(menuRaw)) && parse(ExtractJson(menuRaw).value).Returned? ==>
                  r.Respond? && r.status == 200 && r.body.fields["menuList"] == parse(ExtractJson(menuRaw).value).value)
  {
  }
}
