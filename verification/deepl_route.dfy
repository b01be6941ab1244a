/** The POST handler of the DeepL translation route: validates the phrases,
    maps the selected country to a DeepL target language and translates each
    phrase with its own service call. A failing call yields an error entry for
    its phrase and leaves the other phrases alone. The calls run concurrently
    in the source; here they are a sequential map. */
module DeepLRoute {
  import opened Wrappers
  import opened JsValues
  import opened Http

  const MissingPhrasesMessage: string := "翻訳する文章が必要です"
  const TranslationErrorText: string := "翻訳エラー"
  const NoPronunciationText: string := "(発音データなし)"

  /** Country names to DeepL target-language codes. */
  const LanguageMap: map<string, string> := map[
    "Japan" := "JA",
    "Spain" := "ES",
    "France" := "FR",
    "Germany" := "DE",
    "Korea" := "KO"]

  /** `languageMap[selectedCountry] || "ES"` */
  function TargetLang(selectedCountry: Value): (r: string)
    ensures r in LanguageMap.Values
    ensures r == "ES" <==> ToStr(selectedCountry) !in LanguageMap || ToStr(selectedCountry) == "Spain"
    ensures ToStr(selectedCountry) in LanguageMap ==> r == LanguageMap[ToStr(selectedCountry)]
  {
    assert LanguageMap["Spain"] == "ES";
    var key := ToStr(selectedCountry);
    if key in LanguageMap then LanguageMap[key] else "ES"
  }

  /** The translation service: the phrase text and the target language to
      the service's response, or a throw of `fetch`. */
  type DeepL = (string, string) -> Outcome<Response>

  function Entry(translation: string, pronunciation: string): Value {
    Obj(map["translation" := Str(translation), "pronunciation" := Str(pronunciation)])
  }

  const ErrorEntry: Value := Entry(TranslationErrorText, "")

  /** `data.translations?.[0]?.text || "翻訳エラー"` for a non-null `data`. */
  function FirstText(data: Value): (r: Value)
    requires !Nullish(data)
    ensures Truthy(r)
    ensures r != Str(TranslationErrorText) ==>
              var t := Member(data, "translations").value;
              !Nullish(t) && !Nullish(Member(t, "0").value)
              && r == Member(Member(t, "0").value, "text").value
    ensures var text := OptionalMember(OptionalMember(Member(data, "translations").value, "0"), "text");
            Truthy(text) ==> r == text
  {
    Or(OptionalMember(OptionalMember(Member(data, "translations").value, "0"), "text"), Str(TranslationErrorText))
  }

  /** The entry for one phrase. Every failure of the call, a non-ok status,
      a body that is not JSON and a null body alike give the error entry. */
  function TranslateOne(text: Value, targetLang: string, deepl: DeepL): (r: Value)
    ensures r.Obj? && "translation" in r.fields && "pronunciation" in r.fields
    ensures r == ErrorEntry <==>
              !(deepl(ToStr(text), targetLang).Returned?
                && IsOk(deepl(ToStr(text), targetLang).value.status)
                && deepl(ToStr(text), targetLang).value.json.Returned?
                && !Nullish(deepl(ToStr(text), targetLang).value.json.value))
    ensures r != ErrorEntry ==>
              r.fields["pronunciation"] == Str(NoPronunciationText)
              && r.fields["translation"] == FirstText(deepl(ToStr(text), targetLang).value.json.value)
  {
    match deepl(ToStr(text), targetLang)
    case Threw(_) => ErrorEntry
    case Returned(response) =>
      if !IsOk(response.status) then ErrorEntry
      else
        match response.json
        case Threw(_) => ErrorEntry
        case Returned(data) =>
          if Nullish(data) then ErrorEntry
          else Obj(map["translation" := FirstText(data), "pronunciation" := Str(NoPronunciationText)])
  }

  /** One entry per phrase, in order. */
  function TranslateAll(phrases: seq<Value>, targetLang: string, deepl: DeepL): (r: seq<Value>)
    ensures |r| == |phrases|
    ensures forall i :: 0 <= i < |phrases| ==> r[i] == TranslateOne(phrases[i], targetLang, deepl)
  {
    if |phrases| == 0 then []
    else [TranslateOne(phrases[0], targetLang, deepl)] + TranslateAll(phrases[1..], targetLang, deepl)
  }

  /** Translating a concatenation translates the parts separately. */
  lemma TranslateAllAppend(ps: seq<Value>, qs: seq<Value>, targetLang: string, deepl: DeepL)
    ensures TranslateAll(ps + qs, targetLang, deepl)
            == TranslateAll(ps, targetLang, deepl) + TranslateAll(qs, targetLang, deepl)
  {
  }

  /** A service that fails for one phrase changes only that phrase's entry:
      two services that agree on every other phrase give the same entries
      there. */
  lemma FailureIsolated(phrases: seq<Value>, targetLang: string, d1: DeepL, d2: DeepL, k: nat)
    requires k < |phrases|
    requires forall i :: 0 <= i < |phrases| && i != k ==>
               d1(ToStr(phrases[i]), targetLang) == d2(ToStr(phrases[i]), targetLang)
    ensures forall i :: 0 <= i < |phrases| && i != k ==>
              TranslateAll(phrases, targetLang, d1)[i] == TranslateAll(phrases, targetLang, d2)[i]
  {
  }

  /** `POST`. */
  function Post(json: Outcome<Value>, deepl: DeepL): (r: Reply)
    ensures r.Respond? && r.status in {200, 400, 500}
    ensures json.Threw? ==> r == Fail(500, json.message)
    ensures json.Returned? && Nullish(json.value) ==> r == Fail(500, TypeErrorMessage)
    ensures r.status == 400 <==>
              json.Returned? && !Nullish(json.value) && !IsNonEmptyArray(Member(json.value, "phrases").value)
    ensures r.status == 400 ==> r == Fail(400, MissingPhrasesMessage)
    ensures r.status == 200 ==>
              var phrases := Member(json.value, "phrases").value.items;
              var target := TargetLang(Member(json.value, "selectedCountry").value);
              r.body == Obj(map["translatedPhrases" := Arr(TranslateAll(phrases, target, deepl))])
    ensures json.Returned? && !Nullish(json.value) && IsNonEmptyArray(Member(json.value, "phrases").value) ==>
              var phrases := Member(json.value, "phrases").value.items;
              var target := TargetLang(Member(json.value, "selectedCountry").value);
              r == Respond(200, Obj(map["translatedPhrases" := Arr(TranslateAll(phrases, target, deepl))]))
  {
    match json
    case Threw(e) => Fail(500, e)
    case Returned(body) =>
      if Nullish(body) then Fail(500, TypeErrorMessage)
      else
        var phrases := Member(body, "phrases").value;
        if !IsNonEmptyArray(phrases) then Fail(400, MissingPhrasesMessage)
        else
          var target := TargetLang(Member(body, "selectedCountry").value);
          Respond(200, Obj(map["translatedPhrases" := Arr(TranslateAll(phrases.items, target, deepl))]))
  }
}
