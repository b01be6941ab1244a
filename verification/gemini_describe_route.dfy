/** The POST handler of the dish-description route: renders the dishes as a
    numbered "name - price" list, asks a generative model to describe them and
    parses the reply. The handler has no try block around reading the request
    or calling the model, so those failures reject it. */
module GeminiDescribeRoute {
  import opened Wrappers
  import opened Text
  import opened Numerals
  import opened JsValues
  import opened Fences
  import opened Http

  const EmptyItemsMessage: string := "menuItems が空です"
  const DescribeParseMessage: string := "詳細 JSON の解析に失敗しました"

  /** The prompt: the language to write in and the dish list. */
  datatype Prompt = DescribePrompt(language: string, dishList: string)

  type Model = Prompt -> Outcome<string>

  /** `${i + 1}. ${m.name} - ${m.price}` for a dish that is not null. */
  function DishLine(i: nat, dish: Value): (r: string)
    requires !Nullish(dish)
    ensures StartsWith(r, NatToString(i + 1))
    ensures IndexOf(r, '.') == Some(|NatToString(i + 1)|)
  {
    var number := NatToString(i + 1);
    var rest := ToStr(Member(dish, "name").value) + " - " + ToStr(Member(dish, "price").value);
    NumeralLacks(i + 1, '.');
    IndexOfAfter(number, '.', " " + rest);
    assert number + ". " + rest == number + ['.'] + (" " + rest);
    number + ". " + rest
  }

  /** Lines of different positions differ, whatever the dishes: the number
      before the first "." is the position plus one. */
  lemma DishLineNumbersDistinct(i: nat, j: nat, a: Value, b: Value)
    requires !Nullish(a) && !Nullish(b) && i != j
    ensures DishLine(i, a) != DishLine(j, b)
  {
    var line := DishLine(i, a);
    if line == DishLine(j, b) {
      var m, n := NatToString(i + 1), NatToString(j + 1);
      assert |m| == |n| by {
        assert IndexOf(line, '.') == Some(|m|) == Some(|n|);
      }
      assert m == line[..|m|] == n;
      NatToStringInjective(i + 1, j + 1);
    }
  }

  /** The lines of all dishes, or `None` when one of them is null or
      undefined, where reading `m.name` throws. */
  function DishLines(dishes: seq<Value>): (r: Option<seq<string>>)
    ensures r.Some? <==> forall i :: 0 <= i < |dishes| ==> !Nullish(dishes[i])
    ensures r.Some? ==> |r.value| == |dishes|
    ensures r.Some? ==> forall i :: 0 <= i < |dishes| ==> r.value[i] == DishLine(i, dishes[i])
  {
    if exists i :: 0 <= i < |dishes| && Nullish(dishes[i]) then None
    else Some(seq(|dishes|, i requires 0 <= i < |dishes| => DishLine(i, dishes[i])))
  }

  /** When no name or price spans several lines, the list splits back into
      one numbered line per dish. */
  lemma DishListLines(dishes: seq<Value>)
    requires |dishes| > 0 && DishLines(dishes).Some?
    requires forall i :: 0 <= i < |dishes| ==>
               '\n' !in ToStr(Member(dishes[i], "name").value) && '\n' !in ToStr(Member(dishes[i], "price").value)
    ensures Split(Join(DishLines(dishes).value, "\n"), '\n') == DishLines(dishes).value
  {
    var lines := DishLines(dishes).value;
    forall k | 0 <= k < |lines|
      ensures '\n' !in lines[k]
    {
      DishLineSingle(k, dishes[k]);
    }
    SplitJoin(lines, '\n');
  }

  lemma DishLineSingle(i: nat, dish: Value)
    requires !Nullish(dish)
    requires '\n' !in ToStr(Member(dish, "name").value) && '\n' !in ToStr(Member(dish, "price").value)
    ensures '\n' !in DishLine(i, dish)
  {
    NumeralLacks(i + 1, '\n');
  }

  /** `body.translatedLanguage ?? "日本語"` as the prompt renders it. */
  function Language(body: Value): (r: string)
    requires !Nullish(body)
    ensures Nullish(Member(body, "translatedLanguage").value) ==> r == "日本語"
    ensures !Nullish(Member(body, "translatedLanguage").value) ==> r == ToStr(Member(body, "translatedLanguage").value)
  {
    ToStr(Coalesce(Member(body, "translatedLanguage").value, Str("日本語")))
  }

  /** `raw.match(fence)?.[1] || raw`: the fence's content unless there is
      none or it is empty. */
  function JsonText(raw: string): (r: string)
    ensures StrictFence(raw).Some? && StrictFence(raw).value != "" ==> r == StrictFence(raw).value
    ensures StrictFence(raw).None? || StrictFence(raw).value == "" ==> r == raw
  {
    match StrictFence(raw)
    case Some(g) => if g != "" then g else raw
    case None => raw
  }

  /** A reply without backticks is parsed whole. */
  lemma PlainReplyParsedWhole(raw: string)
    requires '`' !in raw
    ensures JsonText(raw) == raw
  {
    NoTickNoFence(raw);
  }

  lemma FencedReplyParsedInside(pre: string, body: string, post: string)
    requires '`' !in pre && '`' !in body && body != ""
    ensures JsonText(pre + StrictOpen + body + StrictClose + post) == body
  {
    StrictFenceRoundTrip(pre, body, post);
  }

  /** What the handler makes of the model's reply text. */
  function Answer(raw: string, parse: Parse): (r: Reply)
    ensures r.Respond? && r.status in {200, 500}
    ensures r.status == 200 <==> parse(JsonText(raw)).Returned?
    ensures r.status == 200 ==> r.body == Obj(map["detailedMenus" := parse(JsonText(raw)).value])
    ensures r.status == 500 ==> r.body == Obj(map["error" := Str(DescribeParseMessage), "raw" := Str(raw)])
  {
    match parse(JsonText(raw))
    case Threw(_) => Respond(500, Obj(map["error" := Str(DescribeParseMessage), "raw" := Str(raw)]))
    case Returned(v) => Respond(200, Obj(map["detailedMenus" := v]))
  }

  /** `POST`. A dish list that has a truthy length but is not an array (a
      string, an object) has no `map` method and rejects the handler. */
  function Post(json: Outcome<Value>, model: Model, parse: Parse): (r: Reply)
    ensures json.Threw? ==> r == Rejected(json.message)
    ensures json.Returned? && Nullish(json.value) ==> r == Rejected(TypeErrorMessage)
    ensures r == Fail(400, EmptyItemsMessage) <==>
              json.Returned? && !Nullish(json.value)
              && !Truthy(OptionalMember(Member(json.value, "menuItems").value, "length"))
    ensures r.Respond? && r.status != 400 ==>
              json.Returned? && !Nullish(json.value)
              && var dishes := Member(json.value, "menuItems").value;
              && IsNonEmptyArray(dishes) && DishLines(dishes.items).Some?
              && var reply := model(DescribePrompt(Language(json.value), Join(DishLines(dishes.items).value, "\n")));
              && reply.Returned? && r == Answer(reply.value, parse)
    ensures json.Returned? && !Nullish(json.value) && IsNonEmptyArray(Member(json.value, "menuItems").value)
            && DishLines(Member(json.value, "menuItems").value.items).Some? ==>
              var reply := model(DescribePrompt(Language(json.value),
                                                Join(DishLines(Member(json.value, "menuItems").value.items).value, "\n")));
              (reply.Returned? ==> r == Answer(reply.value, parse))
              && (reply.Threw? ==> r == Rejected(reply.message))
    ensures r.Rejected? <==>
              json.Threw? || Nullish(json.value)
              || (var dishes := Member(json.value, "menuItems").value;
                  Truthy(OptionalMember(dishes, "length"))
                  && (!dishes.Arr? || DishLines(dishes.items).None?
                      || model(DescribePrompt(Language(json.value), Join(DishLines(dishes.items).value, "\n"))).Threw?))
  {
    match json
    case Threw(e) => Rejected(e)
    case Returned(body) =>
      if Nullish(body) then Rejected(TypeErrorMessage)
      else
        var dishes := Member(body, "menuItems").value;
        if !Truthy(OptionalMember(dishes, "length")) then Fail(400, EmptyItemsMessage)
        else if !dishes.Arr? then Rejected(TypeErrorMessage)
        else
          match DishLines(dishes.items)
          case None => Rejected(TypeErrorMessage)
          case Some(lines) =>
            match model(DescribePrompt(Language(body), Join(lines, "\n")))
            case Threw(e) => Rejected(e)
            case Returned(raw) => Answer(raw, parse)
  }

  /** A non-empty list of dishes, none of them null, whose model reply has no
      backticks and parses, is answered 200 with the parsed reply. */
  lemma PostAnswersPlainReply(json: Outcome<Value>, model: Model, parse: Parse, raw: string)
    requires json.Returned? && !Nullish(json.value)
    requires IsNonEmptyArray(Member(json.value, "menuItems").value)
    requires forall i :: 0 <= i < |Member(json.value, "menuItems").value.items| ==>
               !Nullish(Member(json.value, "menuItems").value.items[i])
    requires model(DescribePrompt(Language(json.value),
                                  Join(DishLines(Member(json.value, "menuItems").value.items).value, "\n")))
             == Returned(raw)
    requires '`' !in raw && parse(raw).Returned?
    ensures Post(json, model, parse) == Respond(200, Obj(map["detailedMenus" := parse(raw).value]))
  {
    PlainReplyParsedWhole(raw);
  }
}
