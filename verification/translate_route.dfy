/** The POST handler of the Gemini translation route: validates the phrases,
    picks the target language from the selected country, sends the phrases as
    a numbered list and accepts only a reply with a strict JSON fence. Every
    exception becomes a 500. */
module TranslateRoute {
  import opened Wrappers
  import opened Text
  import opened Numerals
  import opened JsValues
  import opened Fences
  import opened Http
  import Selectors

  const MissingPhrasesMessage: string := "翻訳する文章が必要です"
  const ParseFailedMessage: string := "翻訳データの解析に失敗しました"

  /** The prompt: the target language and the numbered phrase list. */
  datatype Prompt = TranslatePrompt(targetLanguage: string, phraseList: string)

  type Model = Prompt -> Outcome<string>

  /** Country names to the Japanese names of their languages. */
  const LanguageMap: map<string, string> := map[
    "Japan" := "日本語",
    "Spain" := "スペイン語",
    "France" := "フランス語",
    "Germany" := "ドイツ語",
    "Korea" := "韓国語",
    "Vietnam" := "ベトナム語",
    "Thailand" := "タイ語",
    "English" := "英語",
    "Chinese" := "中国語"]

  /** `languageMap[selectedCountry] || "日本語"`; the property key is the
      country rendered as a string. */
  function TargetLanguage(selectedCountry: Value): (r: string)
    ensures r in LanguageMap.Values
    ensures r == "日本語" <==> ToStr(selectedCountry) !in LanguageMap || ToStr(selectedCountry) == "Japan"
    ensures ToStr(selectedCountry) in LanguageMap ==> r == LanguageMap[ToStr(selectedCountry)]
  {
    assert LanguageMap["Japan"] == "日本語";
    var key := ToStr(selectedCountry);
    if key in LanguageMap then LanguageMap[key] else "日本語"
  }

  /** Every country of the selector is a key except "China", which falls back
      to Japanese. */
  lemma SelectorCountries()
    ensures forall i :: 0 <= i < |Selectors.CountryOptions| ==>
              (Selectors.CountryOptions[i] in LanguageMap <==> Selectors.CountryOptions[i] != "China")
    ensures TargetLanguage(Str("China")) == "日本語" && TargetLanguage(Str("Chinese")) == "中国語"
  {
  }

  /** A request without `selectedCountry` is translated into Japanese. */
  lemma MissingCountryTargetsJapanese()
    ensures TargetLanguage(Undefined) == "日本語"
  {
    assert ToStr(Undefined) !in LanguageMap;
  }

  /** `${i + 1}. ${phrase}` for every phrase, in order. */
  function NumberedLines(phrases: seq<Value>): (r: seq<string>)
    ensures |r| == |phrases|
    ensures forall i :: 0 <= i < |phrases| ==> r[i] == NatToString(i + 1) + ". " + ToStr(phrases[i])
  {
    seq(|phrases|, i requires 0 <= i < |phrases| => NatToString(i + 1) + ". " + ToStr(phrases[i]))
  }

  /** The list the prompt carries: the numbered lines joined by newlines. */
  function PhraseList(phrases: seq<Value>): (r: string)
    ensures r == "" <==> |phrases| == 0
    ensures |phrases| > 0 ==> StartsWith(r, "1. " + ToStr(phrases[0]))
    ensures |phrases| > 0 ==>
              var last := NatToString(|phrases|) + ". " + ToStr(phrases[|phrases| - 1]);
              |last| <= |r| && r[|r| - |last|..] == last
  {
    if |phrases| == 0 then ""
    else
      var lines := NumberedLines(phrases);
      JoinEnds(lines, "\n");
      assert NatToString(1) == "1";
      assert lines[0] == "1. " + ToStr(phrases[0]);
      Join(lines, "\n")
  }

  /** A one-phrase list is that phrase numbered 1. */
  lemma PhraseListSingle(phrase: Value)
    ensures PhraseList([phrase]) == "1. " + ToStr(phrase)
  {
    var lines := NumberedLines([phrase]);
    assert NatToString(0 + 1) == "1";
    assert lines[0] == "1. " + ToStr(phrase);
    assert lines == ["1. " + ToStr(phrase)];
  }

  /** When no phrase spans several lines, line i of the list is phrase i
      numbered from 1, so the list has one line per phrase. */
  lemma PhraseListLines(phrases: seq<Value>)
    requires |phrases| > 0
    requires forall i :: 0 <= i < |phrases| ==> '\n' !in ToStr(phrases[i])
    ensures Split(PhraseList(phrases), '\n') == NumberedLines(phrases)
    ensures |Split(PhraseList(phrases), '\n')| == |phrases|
  {
    var lines := NumberedLines(phrases);
    forall k | 0 <= k < |lines|
      ensures '\n' !in lines[k]
    {
      NumeralLacks(k + 1, '\n');
      assert lines[k] == NatToString(k + 1) + ". " + ToStr(phrases[k]);
    }
    SplitJoin(lines, '\n');
  }

  /** What the handler makes of the model's reply. */
  function Answer(reply: Outcome<string>, parse: Parse): (r: Reply)
    ensures r.Respond? && r.status in {200, 500}
    ensures reply.Threw? ==> r == Fail(500, reply.message)
    ensures reply.Returned? && StrictFence(reply.value).None? ==> r == Fail(500, ParseFailedMessage)
    ensures r.status == 200 <==>
              reply.Returned? && StrictFence(reply.value).Some? && parse(StrictFence(reply.value).value).Returned?
    ensures r.status == 200 ==>
              r.body == Obj(map["translatedPhrases" := parse(StrictFence(reply.value).value).value])
  {
    match reply
    case Threw(e) => Fail(500, e)
    case Returned(text) =>
      match StrictFence(text)
      case None => Fail(500, ParseFailedMessage)
      case Some(j) =>
        match parse(j)
        case Threw(_) => Fail(500, ParseFailedMessage)
        case Returned(v) => Respond(200, Obj(map["translatedPhrases" := v]))
  }

  /** A reply that fences a parsable body is answered with the parsed body,
      whatever surrounds the fence; a reply without any fence is an error. */
  lemma FencedAnswer(pre: string, body: string, post: string, parse: Parse)
    requires '`' !in pre && '`' !in body && parse(body).Returned?
    ensures Answer(Returned(pre + StrictOpen + body + StrictClose + post), parse)
            == Respond(200, Obj(map["translatedPhrases" := parse(body).value]))
    ensures '`' !in pre ==> Answer(Returned(pre), parse) == Fail(500, ParseFailedMessage)
  {
    StrictFenceRoundTrip(pre, body, post);
    NoTickNoFence(pre);
  }

  /** `POST`. */
  function Post(json: Outcome<Value>, model: Model, parse: Parse): (r: Reply)
    ensures r.Respond?
    ensures json.Threw? ==> r == Fail(500, json.message)
    ensures json.Returned? && Nullish(json.value) ==> r == Fail(500, TypeErrorMessage)
    ensures json.Returned? && !Nullish(json.value) ==>
              var body := json.value;
              if !IsNonEmptyArray(Member(body, "phrases").value) then r == Fail(400, MissingPhrasesMessage)
              else r == Answer(model(TranslatePrompt(
                               TargetLanguage(Member(body, "selectedCountry").value),
                               PhraseList(Member(body, "phrases").value.items))), parse)
  {
    match json
    case Threw(e) => Fail(500, e)
    case Returned(body) =>
      if Nullish(body) then Fail(500, TypeErrorMessage)
      else
        var phrases := Member(body, "phrases").value;
        if !IsNonEmptyArray(phrases) then Fail(400, MissingPhrasesMessage)
        else
          var target := TargetLanguage(Member(body, "selectedCountry").value);
          Answer(model(TranslatePrompt(target, PhraseList(phrases.items))), parse)
  }
}
