/** `MealDBClient` (Foodi/MealDBClient.swift) and its response envelope
    `MealListResponse` (Foodi/Models/MealListResponse.swift).

    The client builds TheMealDB URLs, decodes responses into meals and
    keeps an in-memory set of meals whose details it has fetched. The
    network is not modelled: each fetch receives the reply it would have
    received, either a failure before decoding or a decoded JSON body, and
    returns the URL it would have requested. Calls are sequential. */
module MealDB {
  import opened Wrappers
  import opened Text
  import opened Decimal
  import opened Json
  import opened Meals

  // ---------------------------------------------------------------------
  // Endpoints, categories and URLs

  datatype Endpoint = List | Lookup

  /** The endpoint's raw value. */
  function EndpointPath(e: Endpoint): string {
    match e
    case List => "filter.php"
    case Lookup => "lookup.php"
  }

  datatype Category = Dessert

  function CategoryName(c: Category): string {
    match c
    case Dessert => "Dessert"
  }

  datatype QueryItem = QueryItem(name: string, value: string)

  /** `Category.queryItem()`: the item `c=<raw value>`. */
  function CategoryQueryItem(c: Category): QueryItem {
    QueryItem("c", CategoryName(c))
  }

  const BaseURL: string := "https://www.themealdb.com/api/json/v1/1/"

  function Pair(item: QueryItem): string {
    item.name + "=" + item.value
  }

  /** The query of a `URLComponents` whose `queryItems` are `items`
      (values are taken as needing no percent-encoding). */
  function QueryString(items: seq<QueryItem>): string {
    Join(seq(|items|, i requires 0 <= i < |items| => Pair(items[i])), '&')
  }

  /** `url(for:parameters:)`. Setting `queryItems`, even to an empty list,
      makes the URL carry a `?`. */
  function Url(e: Endpoint, items: seq<QueryItem>): string {
    BaseURL + EndpointPath(e) + "?" + QueryString(items)
  }

  /** Reading a query back: split on `&`, then each pair at its first `=`. */
  function ParseQueryItem(pair: string): QueryItem {
    var parts := Split(pair, '=');
    QueryItem(parts[0], Join(parts[1..], '='))
  }

  function ParseQuery(query: string): seq<QueryItem> {
    var pairs := Split(query, '&');
    seq(|pairs|, i requires 0 <= i < |pairs| => ParseQueryItem(pairs[i]))
  }

  /** An item whose name has no `=` and whose name and value have no `&`
      can be read back from the query. */
  predicate PlainItem(item: QueryItem) {
    '=' !in item.name && '&' !in item.name && '&' !in item.value
  }

  lemma PairReadsBack(item: QueryItem)
    requires PlainItem(item)
    ensures ParseQueryItem(Pair(item)) == item
    ensures '&' !in Pair(item)
  {
    SplitAfterPiece(item.name, '=', item.value);
    assert Pair(item) == item.name + ['='] + item.value;
    SplitJoin(item.value, '=');
  }

  /** The query lists the items in order, and parsing gives them back. */
  lemma QueryRoundTrip(items: seq<QueryItem>)
    requires |items| >= 1
    requires forall i :: 0 <= i < |items| ==> PlainItem(items[i])
    ensures ParseQuery(QueryString(items)) == items
  {
    var pairs := seq(|items|, i requires 0 <= i < |items| => Pair(items[i]));
    forall i | 0 <= i < |items|
      ensures '&' !in pairs[i] && ParseQueryItem(pairs[i]) == items[i]
    {
      PairReadsBack(items[i]);
    }
    JoinSplit(pairs, '&');
  }

  /** Every URL is the base, the endpoint's path, `?` and the query. */
  lemma UrlParts(e: Endpoint, items: seq<QueryItem>)
    ensures |Url(e, items)| > |BaseURL| + |EndpointPath(e)|
    ensures Url(e, items)[..|BaseURL|] == BaseURL
    ensures Url(e, items)[|BaseURL|..|BaseURL| + |EndpointPath(e)|] == EndpointPath(e)
    ensures Url(e, items)[|BaseURL| + |EndpointPath(e)|] == '?'
    ensures Url(e, items)[|BaseURL| + |EndpointPath(e)| + 1..] == QueryString(items)
    ensures items == [] ==> Url(e, items) == BaseURL + EndpointPath(e) + "?"
  {
  }

  /** The lookup request for a meal id: `i=<decimal id>`. */
  function LookupUrl(id: int): string {
    Url(Lookup, [QueryItem("i", IntToDecimal(id))])
  }

  lemma QueryStringSingle(item: QueryItem)
    ensures QueryString([item]) == item.name + "=" + item.value
  {
    var pairs := seq(1, i requires 0 <= i < 1 => Pair([item][i]));
    assert pairs == [Pair(item)];
  }

  /** For every category, the list request is `filter.php?c=<raw value>`,
      and its query reads back as that one item. */
  lemma CategoryUrl(c: Category)
    ensures Url(List, [CategoryQueryItem(c)]) == BaseURL + "filter.php?c=" + CategoryName(c)
    ensures ParseQuery(QueryString([CategoryQueryItem(c)])) == [QueryItem("c", CategoryName(c))]
  {
    var item := CategoryQueryItem(c);
    QueryStringSingle(item);
    assert PlainItem(item);
    QueryRoundTrip([item]);
  }

  lemma ListUrlExample()
    ensures Url(List, [CategoryQueryItem(Dessert)]) == "https://www.themealdb.com/api/json/v1/1/filter.php?c=Dessert"
  {
    QueryStringSingle(CategoryQueryItem(Dessert));
  }

  lemma LookupUrlExample()
    ensures LookupUrl(1) == "https://www.themealdb.com/api/json/v1/1/lookup.php?i=1"
  {
    assert IntToDecimal(1) == "1";
    QueryStringSingle(QueryItem("i", "1"));
  }

  // ---------------------------------------------------------------------
  // Errors

  datatype MealDBError = RequestFailed | InvalidResponse | InvalidData | InvalidURL


  // ---------------------------------------------------------------------
  // The response envelope

  datatype MealListResponse = MealListResponse(meals: seq<Meal>)

  /** The `meals` member of a body: required, non-null, an array. An
      error about the top-level value itself is reported with key "": a
      null body is a missing value, any other non-object a type mismatch. */
  function MealsField(body: JsonValue): Result<seq<JsonValue>, DecodeError> {
    if body.JNull? then Failure(ValueNotFound(""))
    else if !body.JObj? then Failure(TypeMismatch(""))
    else if "meals" !in body.fields then Failure(KeyNotFound("meals"))
    else match body.fields["meals"]
      case JArr(items) => Success(items)
      case JNull => Failure(ValueNotFound("meals"))
      case _ => Failure(TypeMismatch("meals"))
  }

  /** The error of the first element, front to back, that is not an
      object or does not decode as a meal: a null element is a missing
      value, any other non-object a type mismatch. */
  function ElementFailure(items: seq<JsonValue>): Option<DecodeError> {
    if items == [] then None
    else match items[0]
      case JObj(fields) =>
        if DecodeFailure(fields).Some? then DecodeFailure(fields) else ElementFailure(items[1..])
      case JNull => Some(ValueNotFound("meals"))
      case _ => Some(TypeMismatch("meals"))
  }

  function EnvelopeFailure(body: JsonValue): Option<DecodeError> {
    match MealsField(body)
    case Failure(e) => Some(e)
    case Success(items) => ElementFailure(items)
  }

  /** `meals` decodes `items` element by element, in order. */
  ghost predicate DecodesAll(items: seq<JsonValue>, meals: seq<Meal>) {
    |meals| == |items| &&
    forall i :: 0 <= i < |items| ==> items[i].JObj? && IsDecodingOf(items[i].fields, meals[i])
  }

  /** The decodable `MealListResponse`. */
  method DecodeMealListResponse(body: JsonValue) returns (r: Result<MealListResponse, DecodeError>)
    ensures r.Failure? <==> EnvelopeFailure(body).Some?
    ensures r.Failure? ==> r.error == EnvelopeFailure(body).value
    ensures r.Success? ==> DecodesAll(MealsField(body).value, r.value.meals)
  {
    var field := MealsField(body);
    if field.Failure? {
      return Failure(field.error);
    }
    var items := field.value;
    var meals: seq<Meal> := [];
    var i := 0;
    while i < |items|
      invariant 0 <= i <= |items|
      invariant ElementFailure(items) == ElementFailure(items[i..])
      invariant DecodesAll(items[..i], meals)
    {
      assert items[i..][1..] == items[i + 1..];
      if items[i].JNull? {
        return Failure(ValueNotFound("meals"));
      } else if !items[i].JObj? {
        return Failure(TypeMismatch("meals"));
      }
      var meal := DecodeMeal(items[i].fields);
      if meal.Failure? {
        return Failure(meal.error);
      }
      meals := meals + [meal.value];
      i := i + 1;
      assert items[..i] == items[..i - 1] + [items[i - 1]];
    }
    assert items[..i] == items;
    r := Success(MealListResponse(meals));
  }

  /** An unknown id gets `{"meals": null}`, which the envelope rejects
      because `meals` is not optional; an empty list is accepted. A null
      body or a null element is a missing value, not a type mismatch. */
  lemma EnvelopeExamples()
    ensures EnvelopeFailure(JObj(map["meals" := JNull])) == Some(ValueNotFound("meals"))
    ensures EnvelopeFailure(JObj(map[])) == Some(KeyNotFound("meals"))
    ensures EnvelopeFailure(JObj(map["meals" := JArr([])])) == None
    ensures EnvelopeFailure(JArr([])) == Some(TypeMismatch(""))
    ensures EnvelopeFailure(JNull) == Some(ValueNotFound(""))
    ensures EnvelopeFailure(JObj(map["meals" := JArr([JNull])])) == Some(ValueNotFound("meals"))
    ensures EnvelopeFailure(JObj(map["meals" := JArr([JStr("x")])])) == Some(TypeMismatch("meals"))
  {
  }

  // ---------------------------------------------------------------------
  // The client

  /** What the network delivers for a request: nothing decodable (the
      request failed or the status was rejected), or a JSON body. */
  datatype Reply = NoValue | Body(json: JsonValue)

  /** The reply decodes to an envelope. */
  predicate Decodes(reply: Reply) {
    reply.Body? && EnvelopeFailure(reply.json).None?
  }

  class MealDBClient {
    /** Meals whose details have been fetched. */
    var cache: set<Meal>

    constructor()
      ensures cache == {}
    {
      cache := {};
    }

    /** Some cached meal has this id. */
    predicate Cached(id: int)
      reads this
    {
      exists m :: m in cache && m.id == id
    }

    /** `fetchFromCache(id:)`: some cached meal with the id, if any. When
        several cached meals share the id, which one is returned is not
        specified. */
    method FetchFromCache(id: int) returns (r: Option<Meal>)
      ensures r.Some? <==> Cached(id)
      ensures r.Some? ==> r.value in cache && r.value.id == id
    {
      if m :| m in cache && m.id == id {
        r := Some(m);
      } else {
        r := None;
      }
    }

    /** `updateCache(with:)`: set union. */
    method UpdateCache(meals: seq<Meal>)
      modifies this
      ensures cache == old(cache) + set m | m in meals
    {
      cache := cache + set m | m in meals;
    }

    /** `fetchMeals(forCategory:)`: requests the list endpoint for the
        category; `invalidResponse` unless the reply decodes, and otherwise
        the decoded meals in reply order. The cache is not involved. */
    method FetchMeals(category: Category, reply: Reply) returns (request: string, r: Result<seq<Meal>, MealDBError>)
      ensures request == Url(List, [CategoryQueryItem(category)])
      ensures r.Success? <==> Decodes(reply)
      ensures r.Failure? ==> r.error == InvalidResponse
      ensures r.Success? ==> DecodesAll(MealsField(reply.json).value, r.value)
    {
      request := Url(List, [CategoryQueryItem(category)]);
      if reply.NoValue? {
        return request, Failure(InvalidResponse);
      }
      var response := DecodeMealListResponse(reply.json);
      if response.Failure? {
        return request, Failure(InvalidResponse);
      }
      r := Success(response.value.meals);
    }

    /** `fetchMealDetails(for:)`. A cached meal with the id is returned with
        no request; otherwise the lookup URL is requested, a reply that does
        not decode or holds no meal gives `invalidData`, and the first meal
        of the reply is returned and added to the cache. Its id is not
        compared with the requested one. */
    method FetchMealDetails(id: int, reply: Reply) returns (request: Option<string>, r: Result<Meal, MealDBError>)
      modifies this
      ensures old(Cached(id)) ==>
                request == None && r.Success? && r.value in old(cache) && r.value.id == id &&
                cache == old(cache)
      ensures !old(Cached(id)) ==> request == Some(LookupUrl(id))
      ensures !old(Cached(id)) ==>
                (r.Success? <==> Decodes(reply) && |MealsField(reply.json).value| > 0)
      ensures !old(Cached(id)) && r.Failure? ==> r.error == InvalidData && cache == old(cache)
      ensures !old(Cached(id)) && r.Success? ==>
                IsDecodingOf(MealsField(reply.json).value[0].fields, r.value) &&
                cache == old(cache) + {r.value}
    {
      var hit := FetchFromCache(id);
      if hit.Some? {
        return None, Success(hit.value);
      }
      request := Some(LookupUrl(id));
      if reply.NoValue? {
        return request, Failure(InvalidData);
      }
      var response := DecodeMealListResponse(reply.json);
      if response.Failure? || |response.value.meals| == 0 {
        return request, Failure(InvalidData);
      }
      var meal := response.value.meals[0];
      UpdateCache([meal]);
      assert (set m | m in [meal]) == {meal};
      r := Success(meal);
    }
  }

  /** A second lookup of an id whose first lookup succeeded with a meal of
      that id issues no request and returns a cached meal of that id. */
  method RefetchIsServedFromCache(id: int, first: Reply, second: Reply)
    returns (request1: Option<string>, r1: Result<Meal, MealDBError>,
             request2: Option<string>, r2: Result<Meal, MealDBError>)
    ensures request1 == Some(LookupUrl(id))
    ensures r1.Success? && r1.value.id == id ==> request2 == None && r2 == r1
  {
    var client := new MealDBClient();
    request1, r1 := client.FetchMealDetails(id, first);
    request2, r2 := client.FetchMealDetails(id, second);
  }

  /** The cache compares whole meals: two meals with one id but different
      fields are both kept, and adding a meal already present changes
      nothing. */
  method SameIdMealsCoexist() returns (cache: set<Meal>, again: set<Meal>)
    ensures |cache| == 2 && forall m :: m in cache ==> m.id == Placeholder.id
    ensures again == cache
  {
    var client := new MealDBClient();
    var other := Placeholder.(name := "Apple Frangipan Tart");
    client.UpdateCache([Placeholder, other]);
    assert (set m | m in [Placeholder, other]) == {Placeholder, other};
    cache := client.cache;
    client.UpdateCache([other]);
    assert (set m | m in [other]) == {other};
    again := client.cache;
  }
}
