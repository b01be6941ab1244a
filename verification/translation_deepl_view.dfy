/** The component that shows one order phrase with its DeepL translation. A
    translation is cached in browser storage under a key built from the phrase
    and the country; a cached entry is shown without asking the route again. */
module TranslationDeepLView {
  import opened Wrappers
  import opened Text
  import opened JsValues
  import opened Http
  import Numerals
  import DeepLRoute
  import opened BrowserStorage

  /** Country names to BCP 47 tags for speech. */
  const SpeechTags: map<string, string> := map[
    "Japan" := "ja-JP",
    "Spain" := "es-ES",
    "France" := "fr-FR",
    "Germany" := "de-DE",
    "Korea" := "ko-KR"]

  /** `languageMap[selectedCountry] || "es-ES"` */
  function SpeechTag(selectedCountry: string): (tag: string)
    ensures tag in SpeechTags.Values
    ensures selectedCountry in SpeechTags ==> tag == SpeechTags[selectedCountry]
    ensures selectedCountry !in SpeechTags ==> tag == "es-ES"
  {
    assert SpeechTags["Spain"] == "es-ES";
    if selectedCountry in SpeechTags then SpeechTags[selectedCountry] else "es-ES"
  }

  /** The component speaks in the language the route translates into: the
      route's target code is the lower-cased language part of the speech tag,
      for every country, including the ones both fall back on. */
  lemma SpeechFollowsTarget(selectedCountry: string)
    ensures ToLower(DeepLRoute.TargetLang(Str(selectedCountry))) == SpeechTag(selectedCountry)[..2]
  {
    assert DeepLRoute.LanguageMap.Keys == SpeechTags.Keys;
    var code := DeepLRoute.TargetLang(Str(selectedCountry));
    assert ToLower(code) == [LowerChar(code[0]), LowerChar(code[1])];
  }

  /** `translation_${japanese}_${selectedCountry}` */
  function CacheKey(japanese: string, selectedCountry: string): (key: string)
    ensures StartsWith(key, "translation_")
    ensures |key| == |"translation_"| + |japanese| + 1 + |selectedCountry|
  {
    "translation_" + japanese + "_" + selectedCountry
  }

  /** The underscore before a country without one is the key's last. */
  lemma LastUnderscore(japanese: string, selectedCountry: string)
    requires '_' !in selectedCountry
    ensures LastIndexOf(CacheKey(japanese, selectedCountry), '_') == Some(|"translation_"| + |japanese|)
  {
    var k := CacheKey(japanese, selectedCountry);
    var p := |"translation_"| + |japanese|;
    assert k[p] == '_';
    assert forall j :: p < j < |k| ==> k[j] == selectedCountry[j - p - 1];
    var r := LastIndexOf(k, '_');
    assert r.Some? && r.value >= p;
  }

  /** Countries without an underscore, as every country of the selector is,
      never share a cache key with another phrase or country. */
  lemma CacheKeyInjective(j1: string, c1: string, j2: string, c2: string)
    requires '_' !in c1 && '_' !in c2
    requires CacheKey(j1, c1) == CacheKey(j2, c2)
    ensures j1 == j2 && c1 == c2
  {
    var k := CacheKey(j1, c1);
    LastUnderscore(j1, c1);
    LastUnderscore(j2, c2);
    var n := |"translation_"|;
    assert k[n..n + |j1|] == j1 && k[n..n + |j2|] == j2;
    assert k[n + |j1| + 1..] == c1 && k[n + |j2| + 1..] == c2;
  }

  /** An underscore in the phrase lets two requests share a key. */
  lemma CacheKeyCollides()
    ensures CacheKey("a_b", "c") == CacheKey("a", "b_c")
  {
    assert CacheKey("a_b", "c") == "translation_a_b_c";
    assert CacheKey("a", "b_c") == "translation_a_b_c";
  }

  /** `JSON.stringify`: the text of a value, or `None` for `undefined`. */
  type Stringify = Value -> Option<string>

  /** The route call: the request body to the response, or a throw of `fetch`. */
  type Fetch = Value -> Outcome<Response>

  /** `{ phrases: [japanese], selectedCountry }` */
  function RequestBody(japanese: string, selectedCountry: string): (body: Value)
    ensures Member(body, "phrases") == Some(Arr([Str(japanese)]))
    ensures Member(body, "selectedCountry") == Some(Str(selectedCountry))
  {
    Obj(map["phrases" := Arr([Str(japanese)]), "selectedCountry" := Str(selectedCountry)])
  }

  /** The component after its effect has run: the translation shown (`Null`
      when there is none), the loading flag and the storage. */
  datatype ViewState = ViewState(translation: Value, loading: bool, storage: Storage)

  /** True when the storage holds a non-empty entry under the key. */
  predicate Cached(storage: Storage, key: string) {
    key in storage && storage[key] != ""
  }

  /** `data.translatedPhrases[0]`, or `None` where reading it throws. */
  function FirstPhrase(data: Value): (r: Option<Value>)
    ensures r.Some? <==> !Nullish(data) && !Nullish(Member(data, "translatedPhrases").value)
    ensures r.Some? ==> Some(r.value) == Member(Member(data, "translatedPhrases").value, "0")
  {
    match Member(data, "translatedPhrases")
    case None => None
    case Some(phrases) => Member(phrases, "0")
  }

  /** The translation read from the route's answer, or `None` where the call,
      the body or the property read throws. */
  function Fetched(answer: Outcome<Response>): (r: Option<Value>)
    ensures r.Some? <==> answer.Returned? && answer.value.json.Returned?
                         && FirstPhrase(answer.value.json.value).Some?
    ensures r.Some? ==> r == FirstPhrase(answer.value.json.value)
  {
    if answer.Returned? && answer.value.json.Returned? then FirstPhrase(answer.value.json.value)
    else None
  }

  /** The effect, run while `current` is shown (`Null` on the first mount).
      A cached entry is parsed and shown; a parse failure is thrown out of the
      effect. Otherwise the route is asked; every failure is caught and leaves
      `current` shown, while a translation read from the reply is shown and
      stored as its JSON text ("undefined" for `undefined`, as storage turns
      every value into a string). Loading always ends. */
  function Mount(current: Value, japanese: string, selectedCountry: string, storage: Storage,
                                 fetch: Fetch, parse: Parse, stringify: Stringify): (r: Outcome<ViewState>)
    ensures r.Returned? ==> !r.value.loading
    ensures Cached(storage, CacheKey(japanese, selectedCountry)) ==>
              var text := storage[CacheKey(japanese, selectedCountry)];
              (parse(text).Threw? ==> r == Threw(parse(text).message))
              && (parse(text).Returned? ==> r == Returned(ViewState(parse(text).value, false, storage)))
    ensures !Cached(storage, CacheKey(japanese, selectedCountry)) ==>
              var got := Fetched(fetch(RequestBody(japanese, selectedCountry)));
              (got.None? ==> r == Returned(ViewState(current, false, storage)))
              && (got.Some? ==>
                    r == Returned(ViewState(got.value, false,
                           storage[CacheKey(japanese, selectedCountry) := stringify(got.value).GetOr("undefined")])))
  {
    var key := CacheKey(japanese, selectedCountry);
    if Cached(storage, key) then
      match parse(storage[key])
      case Threw(e) => Threw(e)
      case Returned(v) => Returned(ViewState(v, false, storage))
    else
      var none := ViewState(current, false, storage);
      match fetch(RequestBody(japanese, selectedCountry))
      case Threw(_) => Returned(none)
      case Returned(response) =>
        match response.json
        case Threw(_) => Returned(none)
        case Returned(data) =>
          match FirstPhrase(data)
          case None => Returned(none)
          case Some(t) =>
            Returned(ViewState(t, false, storage[key := stringify(t).GetOr("undefined")]))
  }

  /** A cached entry is shown without a request: the route is not consulted. */
  lemma CachedIgnoresRoute(current: Value, japanese: string, selectedCountry: string, storage: Storage,
                                           f1: Fetch, f2: Fetch, parse: Parse, stringify: Stringify)
    requires Cached(storage, CacheKey(japanese, selectedCountry))
    ensures Mount(current, japanese, selectedCountry, storage, f1, parse, stringify)
            == Mount(current, japanese, selectedCountry, storage, f2, parse, stringify)
  {
  }

  /** A translation fetched once is shown again on the next mount, from the
      storage, when its JSON text is non-empty and parses back to it. */
  lemma CacheRoundTrip(current: Value, japanese: string, selectedCountry: string, storage: Storage,
                                       fetch: Fetch, parse: Parse, stringify: Stringify, other: Fetch)
    requires !Cached(storage, CacheKey(japanese, selectedCountry))
    requires Fetched(fetch(RequestBody(japanese, selectedCountry))).Some?
    requires var t := Fetched(fetch(RequestBody(japanese, selectedCountry))).value;
             stringify(t).Some? && stringify(t).value != "" && parse(stringify(t).value) == Returned(t)
    ensures var first := Mount(current, japanese, selectedCountry, storage, fetch, parse, stringify).value;
            Mount(current, japanese, selectedCountry, first.storage, other, parse, stringify)
            == Returned(ViewState(first.translation, false, first.storage))
  {
    var key := CacheKey(japanese, selectedCountry);
    var first := Mount(current, japanese, selectedCountry, storage, fetch, parse, stringify).value;
    assert first.storage == storage[key := stringify(first.translation).value];
    assert Cached(first.storage, key);
  }

  /** A reply whose `translatedPhrases` is an empty array stores the text
      "undefined", which the next mount cannot parse back: the effect then
      throws instead of asking the route again. */
  lemma EmptyReplyPoisonsCache(current: Value, japanese: string, selectedCountry: string, storage: Storage,
                                               fetch: Fetch, parse: Parse, stringify: Stringify, other: Fetch)
    requires !Cached(storage, CacheKey(japanese, selectedCountry))
    requires fetch(RequestBody(japanese, selectedCountry)).Returned?
    requires fetch(RequestBody(japanese, selectedCountry)).value.json
             == Returned(Obj(map["translatedPhrases" := Arr([])]))
    requires stringify(Undefined) == None && parse("undefined").Threw?
    ensures var first := Mount(current, japanese, selectedCountry, storage, fetch, parse, stringify);
            first.Returned? && first.value.translation == Undefined
            && Mount(current, japanese, selectedCountry, first.value.storage, other, parse, stringify).Threw?
  {
    var key := CacheKey(japanese, selectedCountry);
    var first := Mount(current, japanese, selectedCountry, storage, fetch, parse, stringify);
    Numerals.ArrayIndexOfNatToString(0);
    assert first.value.storage == storage[key := "undefined"];
  }

  /** Through the DeepL route the shown translation is the route's entry for
      the phrase, an object with a translation and a pronunciation, so the
      empty-array reply above does not arise from it. */
  lemma ThroughRoute(current: Value, japanese: string, selectedCountry: string, storage: Storage,
                                     fetch: Fetch, parse: Parse, stringify: Stringify, deepl: DeepLRoute.DeepL)
    requires !Cached(storage, CacheKey(japanese, selectedCountry))
    requires fetch(RequestBody(japanese, selectedCountry))
             == Returned(Delivered(DeepLRoute.Post(Returned(RequestBody(japanese, selectedCountry)), deepl)))
    ensures var r := Mount(current, japanese, selectedCountry, storage, fetch, parse, stringify);
            r.Returned?
            && r.value.translation
               == DeepLRoute.TranslateOne(Str(japanese), DeepLRoute.TargetLang(Str(selectedCountry)), deepl)
  {
    var body := RequestBody(japanese, selectedCountry);
    var entries := DeepLRoute.TranslateAll([Str(japanese)], DeepLRoute.TargetLang(Str(selectedCountry)), deepl);
    assert IsNonEmptyArray(Member(body, "phrases").value);
    var data := Obj(map["translatedPhrases" := Arr(entries)]);
    assert DeepLRoute.Post(Returned(body), deepl) == Respond(200, data);
    Numerals.ArrayIndexOfNatToString(0);
    assert Member(Arr(entries), "0") == Some(entries[0]);
  }
}
