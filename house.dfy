/**
  The house endpoint of the serverless IoT platform
  (11-serverless-iot-platform/iot-function-app/house/__init__.py): GET
  looks a house up in the Cosmos container, POST stores a new one.

  The container is two given functions: what a query returns for its text,
  and whether an insert succeeds. A document is a JSON object.
*/
module HouseFunction {
  import opened Wrappers
  import opened PyJson

  type Doc = map<string, Json>

  /** The bookkeeping properties Cosmos adds to every stored document. */
  const SystemKeys: set<string> := {"_rid", "_self", "_etag", "_attachments", "_ts"}

  // ---------------------------------------------------------------------
  // Stripping the system properties (lines 34-42)

  /** `item.pop(key, None)`: remove the key if it is there, do nothing otherwise. */
  function Pop(item: Doc, key: string): (out: Doc)
    ensures out.Keys == item.Keys - {key}
    ensures forall k | k in out :: out[k] == item[k]
  {
    item - {key}
  }

  /** The five pops, one after another. */
  function Strip(item: Doc): Doc {
    Pop(Pop(Pop(Pop(Pop(item, "_rid"), "_self"), "_etag"), "_attachments"), "_ts")
  }

  /** Exactly the five system keys go; every other key keeps its value. */
  lemma StripKeys(item: Doc)
    ensures Strip(item).Keys == item.Keys - SystemKeys
    ensures forall k | k in Strip(item) :: Strip(item)[k] == item[k]
  {
  }

  /** Stripping twice is stripping once. */
  lemma StripIdempotent(item: Doc)
    ensures Strip(Strip(item)) == Strip(item)
  {
    StripKeys(item);
    StripKeys(Strip(item));
  }

  /** A document without system keys comes back as it is. */
  lemma StripWithoutSystemKeys(item: Doc)
    requires item.Keys !! SystemKeys
    ensures Strip(item) == item
  {
    StripKeys(item);
  }

  function StripAll(items: seq<Doc>): (out: seq<Doc>)
    ensures |out| == |items|
    ensures forall i | 0 <= i < |items| :: out[i] == Strip(items[i])
  {
    seq(|items|, i requires 0 <= i < |items| => Strip(items[i]))
  }

  lemma StripAllIdempotent(items: seq<Doc>)
    ensures StripAll(StripAll(items)) == StripAll(items)
  {
    forall i | 0 <= i < |items| ensures StripAll(StripAll(items))[i] == StripAll(items)[i] {
      StripIdempotent(items[i]);
    }
  }

  /** The loop over `items_json`, changing each document in place. */
  method StripSystemProperties(items: array<Doc>)
    modifies items
    ensures items[..] == StripAll(old(items[..]))
  {
    var i := 0;
    while i < items.Length
      invariant 0 <= i <= items.Length
      invariant forall j | 0 <= j < i :: items[j] == Strip(old(items[j]))
      invariant forall j | i <= j < items.Length :: items[j] == old(items[j])
    {
      var item := items[i];
      item := Pop(item, "_rid");
      item := Pop(item, "_self");
      item := Pop(item, "_etag");
      item := Pop(item, "_attachments");
      item := Pop(item, "_ts");
      items[i] := item;
      i := i + 1;
    }
  }

  // ---------------------------------------------------------------------
  // The query (lines 24-27)

  const QueryPrefix := "SELECT * FROM c WHERE c.id = \""

  /** `f'SELECT * FROM c WHERE c.id = "{house_id}"'`; a missing parameter prints as None. */
  function QueryText(houseId: Option<string>): (q: string)
    ensures |q| > |QueryPrefix| && q[..|QueryPrefix|] == QueryPrefix && q[|q| - 1] == '"'
  {
    var id := if houseId.Some? then houseId.value else "None";
    QueryPrefix + id + "\""
  }

  /** The id stands between the quotes exactly as given: nothing is escaped. */
  lemma QueryEmbedsId(houseId: string)
    ensures var q := QueryText(Some(houseId)); q[|QueryPrefix|..|q| - 1] == houseId
  {
    var q := QueryText(Some(houseId));
    assert q == QueryPrefix + houseId + "\"";
  }

  /** A missing `house_id` looks for the house whose id is the text None. */
  lemma MissingIdQueriesNone()
    ensures QueryText(None) == QueryText(Some("None"))
  {
  }

  /**
    Nothing escapes a quote in the id: it reaches the query unchanged, before
    the closing quote, so it ends the string literal early and the rest of
    the id becomes part of the query.
  */
  lemma QuoteInIdReachesQuery(houseId: string, i: nat)
    requires i < |houseId| && houseId[i] == '"'
    ensures var q := QueryText(Some(houseId));
      |QueryPrefix| + i < |q| - 1 && q[|QueryPrefix| + i] == '"'
  {
    QueryEmbedsId(houseId);
    var q := QueryText(Some(houseId));
    assert q[|QueryPrefix|..|q| - 1][i] == houseId[i];
  }

  // ---------------------------------------------------------------------
  // The house record (lines 85-90)

  /** `dict.get`: the value, or None. */
  function Get(body: Doc, key: string): (v: Json)
    ensures key in body ==> v == body[key]
    ensures key !in body ==> v == JNull
  {
    if key in body then body[key] else JNull
  }

  function HouseRecord(body: Doc): (house: Doc)
    ensures house.Keys == {"id", "houseid", "location"}
    ensures house["id"] == Get(body, "id")
    ensures house["houseid"] == Get(body, "name")
    ensures house["location"] == Get(body, "location")
  {
    map["id" := Get(body, "id"), "houseid" := Get(body, "name"), "location" := Get(body, "location")]
  }

  // ---------------------------------------------------------------------
  // Requests and responses (lines 20-118)

  /** What `req.get_json()` makes of the body: a JSON value, or the ValueError of invalid JSON. */
  datatype RequestBody = InvalidJson | Parsed(value: Json)

  datatype Request = Request(httpMethod: string, houseId: Option<string>, body: RequestBody)

  /** What the container does with a query or an insert. */
  datatype QueryResult = Items(items: seq<Doc>) | QueryError
  /**
    An insert succeeds, fails with `CosmosHttpResponseError`, raises a
    `ValueError` (which the handler reports as an invalid body), or raises
    any other exception, which nothing catches.
  */
  datatype CreateResult = Created | CosmosError | CreateValueError | CreateRaised

  datatype Body = Text(text: string) | JsonBody(json: Json)

  datatype Response =
    | Response(status: int, body: Body, headers: map<string, string>, mimetype: string)
      /** An exception the handler does not catch; the Functions host answers it. */
    | Unhandled

  /** The answer, and the record handed to the container if the handler got that far. */
  datatype Outcome = Outcome(response: Response, inserted: Option<Doc>)

  const CorsHeaders: map<string, string> := map[
    "Access-Control-Allow-Origin" := "*",
    "Access-Control-Allow-Methods" := "GET, POST, OPTIONS",
    "Access-Control-Allow-Headers" := "Content-Type"]

  const JsonMime := "application/json"
  /** `HttpResponse`'s default mimetype. */
  const PlainMime := "text/plain"

  const QueryFailed := Response(500, Text("Error querying Cosmos DB"), map[], PlainMime)
  const NotPost := Response(400, Text("Please make a POST request"), map[], JsonMime)
  const CreatedReply := Response(201, Text("{\"message\": \"House entity created successfully\"}"), CorsHeaders, JsonMime)
  const CreateFailed := Response(500, Text("{\"error\": \"Failed to create house entity\"}"), map[], JsonMime)
  const InvalidBody := Response(400, Text("{\"error\": \"Invalid request body\"}"), map[], JsonMime)

  function Found(items: seq<Doc>): Response {
    Response(200, JsonBody(JArr(seq(|items|, i requires 0 <= i < |items| => JObj(items[i])))), CorsHeaders, JsonMime)
  }

  /** What `main` answers, for given container behaviour. */
  function Reply(req: Request, query: string -> QueryResult, create: Doc -> CreateResult): (out: Outcome)
    ensures req.httpMethod != "POST" ==> out.inserted.None?
    ensures out.response.Response? && out.response.status == 200 ==> req.httpMethod == "GET"
    ensures out.response.Response? && out.response.status == 201 ==> req.httpMethod == "POST" && out.inserted.Some?
  {
    if req.httpMethod == "GET" then
      match query(QueryText(req.houseId))
      case QueryError => Outcome(QueryFailed, None)
      case Items(items) => Outcome(Found(StripAll(items)), None)
    else if req.httpMethod != "POST" then Outcome(NotPost, None)
    else
      match req.body
      case InvalidJson => Outcome(InvalidBody, None)
      case Parsed(value) =>
        if !value.JObj? then Outcome(Unhandled, None)  // `.get` on a list, string, number or None
        else
          var house := HouseRecord(value.fields);
          match create(house)
          case Created => Outcome(CreatedReply, Some(house))
          case CosmosError => Outcome(CreateFailed, Some(house))
          case CreateValueError => Outcome(InvalidBody, Some(house))
          case CreateRaised => Outcome(Unhandled, Some(house))
  }

  /** The handler: query, copy the items into a list, strip them in place, answer. */
  method Handle(req: Request, query: string -> QueryResult, create: Doc -> CreateResult) returns (out: Outcome)
    ensures out == Reply(req, query, create)
  {
    if req.httpMethod == "GET" {
      var result := query(QueryText(req.houseId));
      if result.QueryError? {
        return Outcome(QueryFailed, None);
      }
      var items := new Doc[|result.items|](i requires 0 <= i < |result.items| => result.items[i]);
      assert items[..] == result.items;
      StripSystemProperties(items);
      return Outcome(Found(items[..]), None);
    }
    out := Reply(req, query, create);
  }

  // ---------------------------------------------------------------------
  // Properties of the answers

  /** GET answers 200 with the stripped documents, in order, and the CORS headers, or 500 on any error. */
  lemma GetAnswers(houseId: Option<string>, body: RequestBody, query: string -> QueryResult, create: Doc -> CreateResult)
    ensures var out := Reply(Request("GET", houseId, body), query, create);
      match query(QueryText(houseId))
      case QueryError => out.response == QueryFailed && out.response.status == 500
      case Items(items) =>
        && out.response.status == 200 && out.response.headers == CorsHeaders
        && out.response.body.JsonBody? && out.response.body.json.JArr?
        && |out.response.body.json.items| == |items|
        && (forall i | 0 <= i < |items| ::
              && out.response.body.json.items[i] == JObj(Strip(items[i]))
              && out.response.body.json.items[i].fields.Keys == items[i].Keys - SystemKeys
              && (forall k | k in out.response.body.json.items[i].fields ::
                    out.response.body.json.items[i].fields[k] == items[i][k]))
  {
    match query(QueryText(houseId))
    case QueryError =>
    case Items(items) =>
      forall i | 0 <= i < |items|
        ensures Strip(items[i]).Keys == items[i].Keys - SystemKeys
        ensures forall k | k in Strip(items[i]) :: Strip(items[i])[k] == items[i][k]
      {
        StripKeys(items[i]);
      }
  }

  /** Any method but GET and POST gets 400 and leaves the container alone. */
  lemma OtherMethodsRejected(req: Request, query: string -> QueryResult, create: Doc -> CreateResult)
    requires req.httpMethod != "GET" && req.httpMethod != "POST"
    ensures Reply(req, query, create) == Outcome(NotPost, None)
  {
  }

  /**
    POST with a JSON object hands exactly its id, name and location to the
    container; the answer is 201 on success, 500 on a Cosmos error, 400 on a
    ValueError, and nothing the handler answers on any other exception.
  */
  lemma PostObjectAnswers(houseId: Option<string>, fields: Doc, query: string -> QueryResult, create: Doc -> CreateResult)
    ensures var out := Reply(Request("POST", houseId, Parsed(JObj(fields))), query, create);
      && out.inserted == Some(HouseRecord(fields))
      && (create(HouseRecord(fields)).Created? ==> out.response == CreatedReply)
      && (create(HouseRecord(fields)).CosmosError? ==> out.response == CreateFailed)
      && (create(HouseRecord(fields)).CreateValueError? ==> out.response == InvalidBody)
      && (create(HouseRecord(fields)).CreateRaised? ==> out.response == Unhandled)
  {
  }

  /** A body that is not JSON gets 400 before anything is stored. */
  lemma InvalidJsonRejected(houseId: Option<string>, query: string -> QueryResult, create: Doc -> CreateResult)
    ensures Reply(Request("POST", houseId, InvalidJson), query, create) == Outcome(InvalidBody, None)
  {
  }

  /** Both successes carry the same CORS headers; no failure carries any. */
  lemma CorsOnSuccessOnly(req: Request, query: string -> QueryResult, create: Doc -> CreateResult)
    ensures var r := Reply(req, query, create).response;
      r.Response? ==> (r.headers == CorsHeaders <==> r.status in {200, 201})
  {
    assert "Access-Control-Allow-Origin" in CorsHeaders;
  }
}
