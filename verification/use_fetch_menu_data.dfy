/** The client hook that uploads menu photos to the menu-analysis route,
    pulls the dish list out of the reply's strict JSON fence and numbers the
    dishes. */
module UseFetchMenuData {
  import opened Wrappers
  import opened Numerals
  import opened JsValues
  import opened Fences
  import opened Http
  import GeminiRoute

  /** The hook's state: the dishes (as the plain objects the page renders),
      the loading flag and whether the last call succeeded. */
  datatype HookState = HookState(menuItems: seq<Value>, loading: bool, apiStatus: bool)

  /** `fetch("/api/gemini", …)` with the photos and the user's language as a
      multipart form. */
  type Fetch = (seq<Image>, string) -> Outcome<Response>

  /** `addImagesToMenuItems`, which the hook calls but does not define: the
      dishes to the dishes with photos, or a throw. */
  type Enrich = seq<Value> -> Outcome<seq<Value>>

  /** The id of the dish at index `i`. */
  function DishId(i: nat): (r: string)
    ensures |r| > 5 && r[..5] == "menu-"
    ensures AllDigits(r[5..]) && DigitsValue(r[5..]) == i + 1
  {
    ValueOfNatToString(i + 1);
    assert ("menu-" + NatToString(i + 1))[5..] == NatToString(i + 1);
    "menu-" + NatToString(i + 1)
  }

  lemma DishIdInjective(i: nat, j: nat)
    requires DishId(i) == DishId(j)
    ensures i == j
  {
    assert DishId(i)[5..] == NatToString(i + 1);
    assert DishId(j)[5..] == NatToString(j + 1);
    NatToStringInjective(i + 1, j + 1);
  }

  /** `{ ...item, id: `menu-${index + 1}`, quantity: 0 }` */
  function Numbered(item: Value, i: nat): (r: Value)
    ensures r.Obj?
    ensures r.fields.Keys == Spread(item).Keys + {"id", "quantity"}
    ensures r.fields["id"] == Str(DishId(i)) && r.fields["quantity"] == Num(0)
    ensures forall k :: k in Spread(item) && k != "id" && k != "quantity" ==> r.fields[k] == Spread(item)[k]
  {
    Obj(Spread(item)["id" := Str(DishId(i))]["quantity" := Num(0)])
  }

  /** The parsed dish list with ids and zero quantities. */
  function NumberAll(parsed: seq<Value>): (r: seq<Value>)
    ensures |r| == |parsed|
    ensures forall i :: 0 <= i < |parsed| ==> r[i] == Numbered(parsed[i], i)
  {
    seq(|parsed|, i requires 0 <= i < |parsed| => Numbered(parsed[i], i))
  }

  /** No two dishes of one fetch share an id. */
  lemma NumberedIdsDistinct(parsed: seq<Value>, i: nat, j: nat)
    requires i < |parsed| && j < |parsed| && i != j
    ensures NumberAll(parsed)[i].fields["id"] != NumberAll(parsed)[j].fields["id"]
  {
    if DishId(i) == DishId(j) {
      DishIdInjective(i, j);
    }
  }

  /** Starting a fetch clears the dishes and sets the loading flag. */
  function Begin(s: HookState): (r: HookState)
    ensures r.menuItems == [] && r.loading && r.apiStatus == s.apiStatus
  {
    s.(menuItems := [], loading := true)
  }

  /** The dish-list text of a reply body: `data.response.match(fence)?.[1]`
      when it is non-empty. `None` is a falsy result; `Threw` is a TypeError
      because `data` is null or `data.response` is not a string. */
  function ListText(data: Value): (r: Outcome<Option<string>>)
    ensures r.Threw? <==> Nullish(data) || !Member(data, "response").value.Str?
    ensures r.Returned? && r.value.Some? ==>
              StrictFence(Member(data, "response").value.s) == r.value && r.value.value != ""
    ensures r.Returned? && r.value.None? ==>
              StrictFence(Member(data, "response").value.s) in {None, Some("")}
  {
    if Nullish(data) then Threw(TypeErrorMessage)
    else
      match Member(data, "response").value
      case Str(text) =>
        (match StrictFence(text)
         case Some(g) => if g != "" then Returned(Some(g)) else Returned(None)
         case None => Returned(None))
      case _ => Threw(TypeErrorMessage)
  }

  /** What the hook ends in after an ok reply body. */
  function Load(data: Value, parse: Parse, enrich: Enrich): (r: HookState)
    ensures !r.loading
    ensures r.apiStatus ==> ListText(data).Returned?
    ensures ListText(data).Threw? ==> r == HookState([], false, false)
    ensures ListText(data).Returned? && ListText(data).value.None? ==> r == HookState([], false, true)
    ensures ListText(data).Returned? && ListText(data).value.Some?
            && (parse(ListText(data).value.value).Threw? || !parse(ListText(data).value.value).value.Arr?) ==>
              r == HookState([], false, false)
    ensures ListText(data).Returned? && ListText(data).value.Some?
            && parse(ListText(data).value.value).Returned? && parse(ListText(data).value.value).value.Arr? ==>
              var dishes := NumberAll(parse(ListText(data).value.value).value.items);
              (enrich(dishes).Returned? ==> r == HookState(enrich(dishes).value, false, true))
              && (enrich(dishes).Threw? ==> r == HookState(dishes, false, false))
    ensures r.menuItems != [] ==>
              ListText(data).Returned? && ListText(data).value.Some?
              && parse(ListText(data).value.value).Returned?
              && parse(ListText(data).value.value).value.Arr?
              && var dishes := NumberAll(parse(ListText(data).value.value).value.items);
              && (if enrich(dishes).Returned? then r == HookState(enrich(dishes).value, false, true)
                  else r == HookState(dishes, false, false))
  {
    match ListText(data)
    case Threw(_) => HookState([], false, false)
    case Returned(None) => HookState([], false, true)
    case Returned(Some(text)) =>
      match parse(text)
      case Threw(_) => HookState([], false, false)
      case Returned(parsed) =>
        if !parsed.Arr? then HookState([], false, false)
        else
          var dishes := NumberAll(parsed.items);
          match enrich(dishes)
          case Threw(_) => HookState(dishes, false, false)
          case Returned(withImages) => HookState(withImages, false, true)
  }

  /** `fetchMenuData(images, translatedLanguage)` from state `s`. Loading ends
      false on every path; a failed call or a non-ok response clears the
      success flag and leaves no dishes. */
  function FetchMenuData(s: HookState, images: seq<Image>, translatedLanguage: string,
                         fetch: Fetch, parse: Parse, enrich: Enrich): (r: HookState)
    ensures !r.loading
    ensures fetch(images, translatedLanguage).Threw? ==> r == HookState([], false, false)
    ensures (fetch(images, translatedLanguage).Returned?
             && (fetch(images, translatedLanguage).value.json.Threw?
                 || !IsOk(fetch(images, translatedLanguage).value.status))) ==> r == HookState([], false, false)
    ensures r.apiStatus || r.menuItems != [] ==>
              fetch(images, translatedLanguage).Returned?
              && IsOk(fetch(images, translatedLanguage).value.status)
              && fetch(images, translatedLanguage).value.json.Returned?
              && r == Load(fetch(images, translatedLanguage).value.json.value, parse, enrich)
    ensures fetch(images, translatedLanguage).Returned?
            && IsOk(fetch(images, translatedLanguage).value.status)
            && fetch(images, translatedLanguage).value.json.Returned? ==>
              r == Load(fetch(images, translatedLanguage).value.json.value, parse, enrich)
  {
    var started := Begin(s);
    match fetch(images, translatedLanguage)
    case Threw(_) => started.(loading := false, apiStatus := false)
    case Returned(response) =>
      match response.json
      case Threw(_) => started.(loading := false, apiStatus := false)
      case Returned(data) =>
        if IsOk(response.status) then Load(data, parse, enrich)
        else started.(loading := false, apiStatus := false)
  }

  /** An ok reply whose `response` fences a JSON array of dishes loads those
      dishes, numbered and enriched, and sets the success flag. */
  lemma LoadsFencedList(s: HookState, images: seq<Image>, translatedLanguage: string,
                        fetch: Fetch, parse: Parse, enrich: Enrich,
                        status: int, pre: string, body: string, post: string, items: seq<Value>)
    requires IsOk(status)
    requires fetch(images, translatedLanguage)
             == Returned(Response(status, Returned(Obj(map["response" := Str(pre + StrictOpen + body + StrictClose + post)]))))
    requires '`' !in pre && '`' !in body && body != ""
    requires parse(body) == Returned(Arr(items))
    requires enrich(NumberAll(items)).Returned?
    ensures FetchMenuData(s, images, translatedLanguage, fetch, parse, enrich)
            == HookState(enrich(NumberAll(items)).value, false, true)
  {
    var data := Obj(map["response" := Str(pre + StrictOpen + body + StrictClose + post)]);
    StrictFenceRoundTrip(pre, body, post);
    assert Member(data, "response") == Some(Str(pre + StrictOpen + body + StrictClose + post));
    assert ListText(data) == Returned(Some(body));
  }

  /** A reply whose ok body has no `response` field leaves no dishes and
      the failure flag. */
  lemma NoResponseField(s: HookState, images: seq<Image>, translatedLanguage: string,
                        fetch: Fetch, parse: Parse, enrich: Enrich, reply: Reply)
    requires fetch(images, translatedLanguage) == Returned(Delivered(reply))
    requires reply.Respond? && IsOk(reply.status) ==> reply.body.Obj? && "response" !in reply.body.fields
    ensures FetchMenuData(s, images, translatedLanguage, fetch, parse, enrich) == HookState([], false, false)
  {
  }

  /** The menu-analysis route names its reply text `menuData`, while the hook
      reads `response`: whatever the route answers, the hook ends without
      dishes and with the failure flag. */
  lemma NothingLoadsFromMenuRoute(s: HookState, images: seq<Image>, translatedLanguage: string,
                                  fetch: Fetch, parse: Parse, enrich: Enrich,
                                  req: Request, model: GeminiRoute.Model, routeParse: Parse)
    requires fetch(images, translatedLanguage) == Returned(Delivered(GeminiRoute.Post(req, model, routeParse)))
    ensures FetchMenuData(s, images, translatedLanguage, fetch, parse, enrich) == HookState([], false, false)
  {
    var reply := GeminiRoute.Post(req, model, routeParse);
    assert "response" !in GeminiRoute.MenuFields;
    NoResponseField(s, images, translatedLanguage, fetch, parse, enrich, reply);
  }
}
