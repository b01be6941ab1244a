/** The client helper that looks up a photo for a dish through the
    image-search route. It never rejects: every failure is `null`. */
module ImageSearchClient {
  import opened Wrappers
  import opened JsValues
  import opened Http
  import opened MenuTypes
  import ImageSearchRoute

  /** `${item.originalMenuName} food image` */
  function SearchQuery(item: MenuItemData): (q: string)
    ensures |q| > |item.originalMenuName| && q[..|item.originalMenuName|] == item.originalMenuName
    ensures q[|item.originalMenuName|..] == " food image"
  {
    item.originalMenuName + " food image"
  }

  function RequestBody(item: MenuItemData): Value {
    Obj(map["query" := Str(SearchQuery(item))])
  }

  /** `fetch("/api/imageSearch", …)` with a JSON body. */
  type Fetch = Value -> Outcome<Response>

  /** `searchImageForMenuItem`: the `imageUrl` of an ok response when it is
      truthy, `None` (null) for every other response and every exception. */
  function SearchImage(item: MenuItemData, fetch: Fetch): (r: Option<Value>)
    ensures r.Some? <==>
              fetch(RequestBody(item)).Returned?
              && IsOk(fetch(RequestBody(item)).value.status)
              && fetch(RequestBody(item)).value.json.Returned?
              && !Nullish(fetch(RequestBody(item)).value.json.value)
              && Truthy(Member(fetch(RequestBody(item)).value.json.value, "imageUrl").value)
    ensures r.Some? ==> r.value == Member(fetch(RequestBody(item)).value.json.value, "imageUrl").value
  {
    match fetch(RequestBody(item))
    case Threw(_) => None
    case Returned(response) =>
      match response.json
      case Threw(_) => None
      case Returned(data) =>
        if IsOk(response.status) && !Nullish(data) && Truthy(Member(data, "imageUrl").value)
        then Some(Member(data, "imageUrl").value)
        else None
  }

  /** Through the route, a photo is found exactly when the service is
      configured, the search for the query returns a first item, and that
      item's link is truthy; the photo is that link. */
  lemma SearchThroughRoute(item: MenuItemData, fetch: Fetch, config: ImageSearchRoute.Config,
                           search: ImageSearchRoute.Search)
    requires fetch(RequestBody(item))
             == Returned(Delivered(ImageSearchRoute.Post(Returned(RequestBody(item)), config, search)))
    ensures var data := search(config.apiKey.GetOr(""), config.engineId.GetOr(""), SearchQuery(item));
            var found := ImageSearchRoute.Configured(config) && data.Returned? && !Nullish(data.value)
                         && !ImageSearchRoute.NoItems(data.value)
                         && !Nullish(Member(Member(data.value, "items").value, "0").value);
            && (SearchImage(item, fetch).Some? <==>
                  found && Truthy(Member(Member(Member(data.value, "items").value, "0").value, "link").value))
            && (SearchImage(item, fetch).Some? ==>
                  SearchImage(item, fetch).value
                  == Member(Member(Member(data.value, "items").value, "0").value, "link").value)
  {
    var body := RequestBody(item);
    assert Member(body, "query").value == Str(SearchQuery(item));
    assert Truthy(Str(SearchQuery(item)));
  }
}
