/** The POST handler of the image-search route: validates the query and the
    service configuration, asks the search service for one image and answers
    with the first result's link. Every exception becomes the same 500. */
module ImageSearchRoute {
  import opened Wrappers
  import opened JsValues
  import opened Http

  const SearchFailedMessage: string := "画像検索中にエラーが発生しました"
  const MissingQueryMessage: string := "検索クエリが必要です"
  const NotConfiguredMessage: string := "APIキーまたはエンジンIDが設定されていません"
  const NotFoundMessage: string := "画像が見つかりませんでした"

  /** The API key and the search-engine id from the environment. */
  datatype Config = Config(apiKey: Option<string>, engineId: Option<string>)

  /** `!GOOGLE_API_KEY || !GOOGLE_CSE_ID` is false. */
  predicate Configured(config: Config) {
    config.apiKey.Some? && config.apiKey.value != "" && config.engineId.Some? && config.engineId.value != ""
  }

  /** The search service: key, engine id and query text to the parsed JSON
      of its response, or a throw of `fetch` or `response.json()`. The
      response status is not consulted. */
  type Search = (string, string, string) -> Outcome<Value>

  /** `!data.items || data.items.length === 0` for a non-null `data`. */
  predicate NoItems(data: Value)
    requires !Nullish(data)
  {
    var items := Member(data, "items").value;
    !Truthy(items) || Member(items, "length").value == Num(0)
  }

  /** The reply for the parsed search result of a query. */
  function Found(data: Value, query: Value): (r: Reply)
    requires !Nullish(data)
    ensures r.Respond? && r.status in {200, 404, 500}
    ensures r.status == 404 <==> NoItems(data)
    ensures r.status == 404 ==> r.body == Obj(map["error" := Str(NotFoundMessage), "query" := query])
    ensures r.status == 200 ==>
              var first := Member(Member(data, "items").value, "0").value;
              !Nullish(first)
              && r.body == Obj(map["imageUrl" := Member(first, "link").value, "query" := query])
    ensures r.status == 500 ==> r == Fail(500, SearchFailedMessage)
    ensures !NoItems(data) ==>
              var first := Member(Member(data, "items").value, "0").value;
              (Nullish(first) ==> r == Fail(500, SearchFailedMessage))
              && (!Nullish(first) ==>
                    r == Respond(200, Obj(map["imageUrl" := Member(first, "link").value, "query" := query])))
  {
    if NoItems(data) then Respond(404, Obj(map["error" := Str(NotFoundMessage), "query" := query]))
    else
      var first := Member(Member(data, "items").value, "0").value;
      if Nullish(first) then Fail(500, SearchFailedMessage)
      else Respond(200, Obj(map["imageUrl" := Member(first, "link").value, "query" := query]))
  }

  /** `POST`. */
  function Post(json: Outcome<Value>, config: Config, search: Search): (r: Reply)
    ensures r.Respond? && r.status in {200, 400, 404, 500}
    ensures json.Threw? || (json.Returned? && Nullish(json.value)) ==> r == Fail(500, SearchFailedMessage)
    ensures r.status == 400 <==>
              json.Returned? && !Nullish(json.value) && !Truthy(Member(json.value, "query").value)
    ensures r.status == 400 ==> r == Fail(400, MissingQueryMessage)
    ensures (json.Returned? && !Nullish(json.value) && Truthy(Member(json.value, "query").value)
             && !Configured(config)) ==> r == Fail(500, NotConfiguredMessage)
    ensures r.status in {200, 404} ==>
              json.Returned? && !Nullish(json.value) && Configured(config)
              && var query := Member(json.value, "query").value;
              && var data := search(config.apiKey.value, config.engineId.value, ToStr(query));
              && data.Returned? && !Nullish(data.value) && r == Found(data.value, query)
    ensures json.Returned? && !Nullish(json.value) && Truthy(Member(json.value, "query").value)
            && Configured(config) ==>
              var query := Member(json.value, "query").value;
              var data := search(config.apiKey.value, config.engineId.value, ToStr(query));
              (data.Threw? || Nullish(data.value) ==> r == Fail(500, SearchFailedMessage))
              && (data.Returned? && !Nullish(data.value) ==> r == Found(data.value, query))
  {
    match json
    case Threw(_) => Fail(500, SearchFailedMessage)
    case Returned(body) =>
      if Nullish(body) then Fail(500, SearchFailedMessage)
      else
        var query := Member(body, "query").value;
        if !Truthy(query) then Fail(400, MissingQueryMessage)
        else if !Configured(config) then Fail(500, NotConfiguredMessage)
        else
          match search(config.apiKey.value, config.engineId.value, ToStr(query))
          case Threw(_) => Fail(500, SearchFailedMessage)
          case Returned(data) =>
            if Nullish(data) then Fail(500, SearchFailedMessage)
            else Found(data, query)
  }
}
