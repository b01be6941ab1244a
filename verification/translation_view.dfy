/** The component that shows one order phrase with its translation from the
    Gemini translation route and reads it aloud in the language the menu was
    written in. */
module TranslationView {
  import opened Wrappers
  import opened Text
  import opened JsValues
  import opened Http
  import TranslateRoute

  /** Language names, in lower case, to BCP 47 tags for speech: each language
      under its ISO 639-1 code, its English name and its Japanese name. */
  const SpeechTags: map<string, string> := map[
    "japanese" := "ja-JP", "english" := "en-US", "spanish" := "es-ES",
    "french" := "fr-FR", "german" := "de-DE", "korean" := "ko-KR",
    "vietnamese" := "vi-VN", "thai" := "th-TH", "chinese" := "zh-CN",
    "日本語" := "ja-JP", "英語" := "en-US", "スペイン語" := "es-ES",
    "フランス語" := "fr-FR", "ドイツ語" := "de-DE", "韓国語" := "ko-KR",
    "ベトナム語" := "vi-VN", "タイ語" := "th-TH", "中国語" := "zh-CN",
    "ja" := "ja-JP", "en" := "en-US", "es" := "es-ES",
    "fr" := "fr-FR", "de" := "de-DE", "ko" := "ko-KR",
    "vi" := "vi-VN", "th" := "th-TH", "zh" := "zh-CN"]

  /** The nine tags the component can speak in. */
  const Tags: set<string> := {"ja-JP", "en-US", "es-ES", "fr-FR", "de-DE", "ko-KR", "vi-VN", "th-TH", "zh-CN"}

  /** `detectedLanguage.trim().toLowerCase()` */
  function Normalize(name: string): (r: string)
    ensures Trim(r) == r && ToLower(r) == r
  {
    LowerKeepsEnds(Trim(name));
    TrimOfTrimmed(ToLower(Trim(name)));
    ToLowerIdempotent(Trim(name));
    ToLower(Trim(name))
  }

  /** `norm.replace(/語$/, "")`: one "語" removed from the end. */
  function StripGo(s: string): (r: string)
    ensures |s| > 0 && s[|s| - 1] == '語' ==> s == r + "語"
    ensures (|s| == 0 || s[|s| - 1] != '語') ==> r == s
  {
    if |s| > 0 && s[|s| - 1] == '語' then s[..|s| - 1] else s
  }

  /** The speech tag for a language name: a direct lookup of the normalised
      name, else a lookup without a trailing "語", else "ja-JP". */
  function SpeechTag(detectedLanguage: string): (tag: string)
    ensures tag in Tags
    ensures Normalize(detectedLanguage) in SpeechTags ==> tag == SpeechTags[Normalize(detectedLanguage)]
    ensures Normalize(detectedLanguage) !in SpeechTags && StripGo(Normalize(detectedLanguage)) in SpeechTags ==>
              tag == SpeechTags[StripGo(Normalize(detectedLanguage))]
    ensures Normalize(detectedLanguage) !in SpeechTags && StripGo(Normalize(detectedLanguage)) !in SpeechTags ==>
              tag == "ja-JP"
  {
    var norm := Normalize(detectedLanguage);
    if norm in SpeechTags then SpeechTags[norm]
    else if StripGo(norm) in SpeechTags then SpeechTags[StripGo(norm)]
    else "ja-JP"
  }

  /** A name that trimming and lower-casing leave unchanged. */
  predicate Clean(s: string) {
    |s| > 0 && !IsSpace(s[0]) && !IsSpace(s[|s| - 1]) && forall i :: 0 <= i < |s| ==> LowerChar(s[i]) == s[i]
  }

  lemma NormalizeClean(s: string)
    requires Clean(s)
    ensures Normalize(s) == s
  {
    TrimOfTrimmed(s);
    assert ToLower(s) == s;
  }

  /** Names that differ only in letter case normalise alike. */
  lemma NormalizeIgnoresCase(s: string)
    ensures Normalize(ToLower(s)) == Normalize(s)
  {
    TrimToLowerCommute(s);
    ToLowerIdempotent(Trim(s));
  }

  /** Names that differ only in surrounding whitespace normalise alike. */
  lemma NormalizeIgnoresPadding(pre: string, s: string, post: string)
    requires AllSpaces(pre) && AllSpaces(post)
    ensures Normalize(pre + s + post) == Normalize(s)
  {
    TrimIgnoresPadding(pre, s, post);
  }

  /** A key of the table is found by the direct lookup. */
  lemma KeyReached(k: string)
    requires k in SpeechTags && Clean(k)
    ensures SpeechTag(k) == SpeechTags[k]
  {
    NormalizeClean(k);
  }

  /** The three ways the table names a language. */
  const Codes: set<string> := {"ja", "en", "es", "fr", "de", "ko", "vi", "th", "zh"}
  const EnglishNames: set<string> :=
    {"japanese", "english", "spanish", "french", "german", "korean", "vietnamese", "thai", "chinese"}
  const JapaneseNames: set<string> :=
    {"日本語", "英語", "スペイン語", "フランス語", "ドイツ語", "韓国語", "ベトナム語", "タイ語", "中国語"}

  lemma KeysByKind(k: string)
    requires k in SpeechTags
    ensures k in Codes || k in EnglishNames || k in JapaneseNames
  {
  }

  lemma CodeClean(k: string)
    requires k in Codes
    ensures Clean(k)
  {
  }

  lemma EnglishNameClean(k: string)
    requires k in EnglishNames
    ensures Clean(k)
  {
  }

  lemma JapaneseNameClean(k: string)
    requires k in JapaneseNames
    ensures Clean(k)
  {
  }

  /** Every name of the table is found by the direct lookup. */
  lemma EveryKeyReachable(k: string)
    requires k in SpeechTags
    ensures SpeechTag(k) == SpeechTags[k]
  {
    KeysByKind(k);
    if k in Codes {
      CodeClean(k);
    } else if k in EnglishNames {
      EnglishNameClean(k);
    } else {
      JapaneseNameClean(k);
    }
    KeyReached(k);
  }

  lemma TableTagsKnown()
    ensures forall k :: k in SpeechTags ==> SpeechTags[k] in Tags
  {
  }

  lemma EveryTagInTable()
    ensures forall t :: t in Tags ==> t in SpeechTags.Values
  {
    assert SpeechTags["ja"] == "ja-JP" && SpeechTags["en"] == "en-US" && SpeechTags["es"] == "es-ES";
    assert SpeechTags["fr"] == "fr-FR" && SpeechTags["de"] == "de-DE" && SpeechTags["ko"] == "ko-KR";
    assert SpeechTags["vi"] == "vi-VN" && SpeechTags["th"] == "th-TH" && SpeechTags["zh"] == "zh-CN";
  }

  /** The tags of the table are exactly the tags the component can speak in. */
  lemma TableTags()
    ensures SpeechTags.Values == Tags
  {
    TableTagsKnown();
    EveryTagInTable();
  }

  /** Letter case does not matter. */
  lemma SpeechTagIgnoresCase(s: string)
    ensures SpeechTag(ToLower(s)) == SpeechTag(s)
  {
    NormalizeIgnoresCase(s);
  }

  /** Surrounding whitespace does not matter. */
  lemma SpeechTagIgnoresPadding(pre: string, s: string, post: string)
    requires AllSpaces(pre) && AllSpaces(post)
    ensures SpeechTag(pre + s + post) == SpeechTag(s)
  {
    NormalizeIgnoresPadding(pre, s, post);
  }

  /** The request body: exactly one phrase, and the detected language under
      the name `detectedLanguage`. */
  function RequestBody(japanese: string, detectedLanguage: string): (r: Value)
    ensures Member(r, "phrases") == Some(Arr([Str(japanese)]))
    ensures Member(r, "detectedLanguage") == Some(Str(detectedLanguage))
  {
    Obj(map["phrases" := Arr([Str(japanese)]), "detectedLanguage" := Str(detectedLanguage)])
  }

  /** The translation route reads `selectedCountry`, which this request does
      not carry, so it always translates into Japanese, whatever the detected
      language, and lists the one phrase as "1. …". */
  lemma AlwaysTranslatesToJapanese(japanese: string, detectedLanguage: string,
                                   model: TranslateRoute.Model, parse: Parse)
    ensures TranslateRoute.Post(Returned(RequestBody(japanese, detectedLanguage)), model, parse)
            == TranslateRoute.Answer(model(TranslateRoute.TranslatePrompt("日本語", "1. " + japanese)), parse)
  {
    var body := RequestBody(japanese, detectedLanguage);
    assert Member(body, "selectedCountry") == Some(Undefined);
    TranslateRoute.MissingCountryTargetsJapanese();
    TranslateRoute.PhraseListSingle(Str(japanese));
  }

  /** The component's state after the fetch: the translation shown (`Null`
      when there is none) and the loading flag. */
  datatype ViewState = ViewState(translation: Value, loading: bool)

  /** `setTranslation(data.translatedPhrases?.[0] ?? null)` inside a try whose
      finally clears loading, starting from the translation shown so far. A
      throw of the call, of `res.json()` or of the read on a null body is
      caught and leaves the translation as it was. The status is not
      checked. */
  function Receive(current: Value, result: Outcome<Response>): (r: ViewState)
    ensures !r.loading
    ensures (result.Threw? || result.value.json.Threw? || Nullish(result.value.json.value)) ==>
              r.translation == current
    ensures (result.Returned? && result.value.json.Returned? && !Nullish(result.value.json.value)) ==>
              var phrase := OptionalMember(Member(result.value.json.value, "translatedPhrases").value, "0");
              r.translation == (if Nullish(phrase) then Null else phrase)
    ensures (result.Returned? && result.value.json.Returned? && !Nullish(result.value.json.value)
             && Member(result.value.json.value, "translatedPhrases").value.Arr?
             && |Member(result.value.json.value, "translatedPhrases").value.items| > 0
             && !Nullish(Member(result.value.json.value, "translatedPhrases").value.items[0])) ==>
              r.translation == Member(result.value.json.value, "translatedPhrases").value.items[0]
  {
    match result
    case Threw(_) => ViewState(current, false)
    case Returned(response) =>
      match response.json
      case Threw(_) => ViewState(current, false)
      case Returned(data) =>
        if Nullish(data) then ViewState(current, false)
        else ViewState(Coalesce(OptionalMember(Member(data, "translatedPhrases").value, "0"), Null), false)
  }

  /** An error reply of the route shows no translation. */
  lemma ErrorReplyShowsNothing(current: Value, message: string, status: int)
    ensures Receive(current, Returned(Delivered(Fail(status, message)))).translation == Null
  {
  }
}
