/** The order confirmation page: it joins the ordered dishes into one Japanese
    order phrase and hands it, with the stored detected language, to the
    translation component. */
module OrderPage {
  import opened Wrappers
  import opened Text
  import opened Numerals
  import opened JsValues
  import opened Http
  import opened MenuTypes
  import opened BrowserStorage
  import TranslateRoute
  import TranslationView

  const NoOrderMessage: string := "注文データがありません。"

  /** The stored detected language when there is a non-empty one, else
      "Japanese". */
  function DetectedLanguage(storage: Storage): (r: string)
    ensures "detectedLanguage" in storage && storage["detectedLanguage"] != "" ==> r == storage["detectedLanguage"]
    ensures !("detectedLanguage" in storage && storage["detectedLanguage"] != "") ==> r == "Japanese"
  {
    StoredOr(storage, "detectedLanguage", "Japanese")
  }

  /** `${translatedMenuName}を${quantity}個` */
  function Segment(item: MenuItemData): (s: string)
    ensures StartsWith(s, item.translatedMenuName) && |s| > 0 && s[|s| - 1] == '個'
    ensures 'と' !in item.translatedMenuName ==> 'と' !in s
  {
    IntNumeralLacks(item.quantity, 'と');
    item.translatedMenuName + "を" + IntToString(item.quantity) + "個"
  }

  function Segments(items: seq<MenuItemData>): (r: seq<string>)
    ensures |r| == |items|
    ensures forall i :: 0 <= i < |items| ==> r[i] == Segment(items[i])
  {
    seq(|items|, i requires 0 <= i < |items| => Segment(items[i]))
  }

  /** The segments of all dishes, in order, joined by "と". */
  function OrderPhrase(items: seq<MenuItemData>): (r: string)
    ensures r == "" <==> |items| == 0
    ensures |items| > 0 ==> StartsWith(r, items[0].translatedMenuName) && r[|r| - 1] == '個'
  {
    if |items| == 0 then ""
    else
      var segments := Segments(items);
      JoinEnds(segments, "と");
      StartsWithTransitive(Join(segments, "と"), segments[0], items[0].translatedMenuName);
      Join(segments, "と")
  }

  /** When no dish name contains "と", cutting the phrase at every "と" gives
      back one segment per dish, in order: the phrase holds exactly
      `|items| - 1` separators. */
  lemma OrderPhraseSplits(items: seq<MenuItemData>)
    requires |items| > 0
    requires forall i :: 0 <= i < |items| ==> 'と' !in items[i].translatedMenuName
    ensures Split(OrderPhrase(items), 'と') == Segments(items)
  {
    SplitJoin(Segments(items), 'と');
  }

  /** What the page shows: the no-order message, or the translation component
      for the phrase and the language. */
  datatype Screen = NoOrder(message: string) | Translating(japanese: string, detectedLanguage: string)

  function Page(items: seq<MenuItemData>, storage: Storage): (r: Screen)
    ensures r.NoOrder? <==> |items| == 0
    ensures r.NoOrder? ==> r.message == NoOrderMessage
    ensures r.Translating? ==>
              r.japanese == OrderPhrase(items) + "ください。" && r.detectedLanguage == DetectedLanguage(storage)
  {
    if |items| == 0 then NoOrder(NoOrderMessage)
    else Translating(OrderPhrase(items) + "ください。", DetectedLanguage(storage))
  }

  /** Whatever language was detected, the phrase this page shows goes to the
      translation route as the single line "1. …ください。" with Japanese as
      the target. */
  lemma OrderTranslatedIntoJapanese(items: seq<MenuItemData>, storage: Storage,
                                    model: TranslateRoute.Model, parse: Parse)
    requires |items| > 0
    ensures var s := Page(items, storage);
            TranslateRoute.Post(Returned(TranslationView.RequestBody(s.japanese, s.detectedLanguage)), model, parse)
            == TranslateRoute.Answer(model(TranslateRoute.TranslatePrompt(
                 "日本語", "1. " + OrderPhrase(items) + "ください。")), parse)
  {
    var s := Page(items, storage);
    TranslationView.AlwaysTranslatesToJapanese(s.japanese, s.detectedLanguage, model, parse);
    assert "1. " + s.japanese == "1. " + OrderPhrase(items) + "ください。";
  }
}
