/** The second order page: it asks the translation route for the first
    ordered dish only, with the stored country, and shows the first
    translated phrase when one comes back. */
module NextPage {
  import opened Wrappers
  import opened Numerals
  import opened JsValues
  import opened Http
  import opened MenuTypes
  import opened BrowserStorage
  import TranslateRoute

  const NoOrderMessage: string := "注文データがありません。"
  const PendingMessage: string := "翻訳データを取得中..."

  /** The stored country when there is a non-empty one, else "France". */
  function Country(storage: Storage): (r: string)
    ensures "selectedCountry" in storage && storage["selectedCountry"] != "" ==> r == storage["selectedCountry"]
    ensures !("selectedCountry" in storage && storage["selectedCountry"] != "") ==> r == "France"
  {
    StoredOr(storage, "selectedCountry", "France")
  }

  /** `${translatedMenuName} を ${quantity} 個ください。` */
  function Phrase(item: MenuItemData): (r: string)
    ensures |r| > |item.translatedMenuName| + 10
    ensures r[..|item.translatedMenuName|] == item.translatedMenuName
    ensures r[|r| - 7..] == " 個ください。"
  {
    item.translatedMenuName + " を " + IntToString(item.quantity) + " 個ください。"
  }

  /** The phrase names the quantity: two dishes of one name with the same
      phrase are ordered in the same quantity. */
  lemma PhraseDeterminesQuantity(a: MenuItemData, b: MenuItemData)
    requires a.translatedMenuName == b.translatedMenuName && Phrase(a) == Phrase(b)
    ensures a.quantity == b.quantity
  {
    var n := |a.translatedMenuName|;
    assert Phrase(a)[n + 3..|Phrase(a)| - 7] == IntToString(a.quantity);
    assert Phrase(b)[n + 3..|Phrase(b)| - 7] == IntToString(b.quantity);
    IntToStringInjective(a.quantity, b.quantity);
  }

  /** The request body, or `None` when the order is empty and nothing is
      sent: a single phrase for the first dish, whatever follows it. */
  function Request(items: seq<MenuItemData>, country: string): (r: Option<Value>)
    ensures r.None? <==> |items| == 0
    ensures r.Some? ==> Member(r.value, "phrases") == Some(Arr([Str(Phrase(items[0]))]))
    ensures r.Some? ==> Member(r.value, "selectedCountry") == Some(Str(country))
  {
    if |items| == 0 then None
    else Some(Obj(map["phrases" := Arr([Str(Phrase(items[0]))]), "selectedCountry" := Str(country)]))
  }

  /** Dishes after the first do not change the request. */
  lemma RequestIgnoresRest(items: seq<MenuItemData>, more: seq<MenuItemData>, country: string)
    requires |items| > 0
    ensures Request(items + more, country) == Request(items, country)
  {
    assert (items + more)[0] == items[0];
  }

  /** `v.length > 0` for a `length` that is a number. */
  predicate HasPositiveLength(v: Value) {
    var len := Member(v, "length");
    len.Some? && len.value.Num? && len.value.n > 0
  }

  /** The `.then` step: the translated phrase becomes `translatedPhrases[0]`
      when `translatedPhrases` is truthy with a positive length; otherwise,
      and when reading the body throws (caught by `.catch`), it stays as it
      was. The status is not looked at. */
  function Receive(current: Value, json: Outcome<Value>): (r: Value)
    ensures r != current ==>
              json.Returned? && !Nullish(json.value)
              && Truthy(Member(json.value, "translatedPhrases").value)
              && HasPositiveLength(Member(json.value, "translatedPhrases").value)
              && r == Member(Member(json.value, "translatedPhrases").value, "0").value
    ensures (json.Returned? && !Nullish(json.value)
             && Truthy(Member(json.value, "translatedPhrases").value)
             && HasPositiveLength(Member(json.value, "translatedPhrases").value)) ==>
              r == Member(Member(json.value, "translatedPhrases").value, "0").value
  {
    match json
    case Threw(_) => current
    case Returned(data) =>
      if Nullish(data) then current
      else
        var phrases := Member(data, "translatedPhrases").value;
        if Truthy(phrases) && HasPositiveLength(phrases) then Member(phrases, "0").value
        else current
  }

  /** An error body of the route leaves the shown phrase as it was. */
  lemma ErrorBodyKeepsPhrase(current: Value, message: string)
    ensures Receive(current, Returned(ErrorBody(message))) == current
  {
  }

  /** A successful reply whose parsed value is a non-empty array shows its
      first element. */
  lemma FirstTranslationShown(current: Value, items: seq<Value>)
    requires |items| > 0
    ensures Receive(current, Returned(Obj(map["translatedPhrases" := Arr(items)]))) == items[0]
  {
    ArrayIndexOfNatToString(0);
  }

  /** The page's request always carries a non-empty phrase list, so the route
      never answers it with 400: it asks the model for the one numbered
      phrase in the language of the country. */
  lemma RouteAcceptsRequest(items: seq<MenuItemData>, country: string,
                            model: TranslateRoute.Model, parse: Parse)
    requires |items| > 0
    ensures var r := TranslateRoute.Post(Returned(Request(items, country).value), model, parse);
            r.Respond? && r.status != 400
            && r == TranslateRoute.Answer(model(TranslateRoute.TranslatePrompt(
                      TranslateRoute.TargetLanguage(Str(country)), "1. " + Phrase(items[0]))), parse)
  {
    var body, phrase := Request(items, country).value, Phrase(items[0]);
    assert Member(body, "phrases") == Some(Arr([Str(phrase)]));
    assert Member(body, "selectedCountry") == Some(Str(country));
    TranslateRoute.PhraseListSingle(Str(phrase));
  }

  /** What the page shows. */
  datatype Screen = NoOrder(message: string) | Pending(message: string)
                  | Shown(japanese: string, translation: Value)

  function Page(items: seq<MenuItemData>, translated: Value): (r: Screen)
    ensures r.NoOrder? <==> |items| == 0
    ensures r.Shown? <==> |items| > 0 && Truthy(translated)
    ensures r.Shown? ==> r.japanese == Phrase(items[0]) && r.translation == translated
  {
    if |items| == 0 then NoOrder(NoOrderMessage)
    else if Truthy(translated) then Shown(Phrase(items[0]), translated)
    else Pending(PendingMessage)
  }
}
