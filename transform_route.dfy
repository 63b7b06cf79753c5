/**
 * The client's `POST /api/transform` route
 * (apps/client/src/pages/api/transform.ts): it validates the JSON body,
 * normalises snake_case and camelCase field names into the request the
 * transform service expects, forwards it, and maps the outcome to a
 * response. The service call and the catalog read are inputs: `upstream`
 * answers the forwarded request and `dataset` is what the catalog read
 * returns.
 */
module TransformRoute {
  import opened Wrappers
  import opened JsText

  /** A JSON value; property names are kept as Dafny strings. */
  datatype Json =
    | JUndefined
    | JNull
    | JBool(b: bool)
    | JNumber(n: int)
    | JString(s: JsString)
    | JStringArray(items: seq<JsString>)
    | JObject(fields: map<string, Json>)

  /** The request body: not valid JSON, or the value it parses to. */
  datatype Body = Malformed | Parsed(value: Json)

  /** `value.key` on a value that is not `null` or `undefined`. */
  function Get(value: Json, key: string): Json {
    if value.JObject? && key in value.fields then value.fields[key] else JUndefined
  }

  predicate Nullish(v: Json) { v.JUndefined? || v.JNull? }

  /** `a ?? b`. */
  function Coalesce(a: Json, b: Json): (r: Json)
    ensures !Nullish(a) ==> r == a
    ensures Nullish(a) ==> r == b
  {
    if Nullish(a) then b else a
  }

  /** The body the route sends to the transform service. */
  datatype TransformRequest = TransformRequest(
    pageUrl: JsString,
    displayName: Json,
    description: Json,
    customCategories: Json,
    language: Json,
    postLimit: Json)

  /** What the transform service call yields: a rejected fetch, or a response with its `ok` flag and text. */
  datatype UpstreamResult = NetworkError(message: JsString) | UpstreamReply(ok: bool, text: JsString)

  /** What `readDb()` yields: a failure with its message, or the catalog snapshot's top-level fields. */
  datatype DbRead =
    | DbError(message: JsString)
    | Dataset(store: Json, categories: Json, products: Json, lastSyncedAt: Json)

  /** Error messages and the success message's prefix are the route's own ASCII literals. */
  datatype ResponseBody =
    | ErrorBody(error: string, details: Option<JsString>)
    | SuccessBody(message: JsString, store: Json, categories: Json, products: Json, lastSyncedAt: Json)
    | Unhandled

  datatype Response = Response(status: int, body: ResponseBody)

  /** The route's answer and the request it forwarded, if it forwarded one. */
  datatype Outcome = Outcome(response: Response, sent: Option<TransformRequest>)

  // ---------------------------------------------------------------------------
  // Normalisation

  /** `payload.page_url ?? payload.pageUrl`, accepted only as a non-empty string. */
  function PageUrl(payload: Json): Option<JsString> {
    var v := Coalesce(Get(payload, "page_url"), Get(payload, "pageUrl"));
    if v.JString? && v.s != [] then Some(v.s) else None
  }

  /** The `requestBody` literal: each field from its snake_case name, else its camelCase one, else its default. */
  function Normalize(payload: Json, pageUrl: JsString): (r: TransformRequest)
    ensures r.pageUrl == pageUrl
    ensures !Nullish(r.customCategories) && !Nullish(r.language) && !Nullish(r.postLimit)
  {
    TransformRequest(
      pageUrl,
      Coalesce(Get(payload, "display_name"), Get(payload, "displayName")),
      Get(payload, "description"),
      Coalesce(Coalesce(Get(payload, "custom_categories"), Get(payload, "customCategories")), JStringArray([])),
      Coalesce(Get(payload, "language"), JString([0x62, 0x6E])),
      Coalesce(Coalesce(Get(payload, "post_limit"), Get(payload, "postLimit")), JNumber(100)))
  }

  /** `JSON.stringify(requestBody)` drops the fields that are `undefined`. */
  function RequestFields(req: TransformRequest): (m: map<string, Json>)
    ensures "page_url" in m && m["page_url"] == JString(req.pageUrl)
    ensures "display_name" in m <==> !req.displayName.JUndefined?
    ensures "description" in m <==> !req.description.JUndefined?
    ensures "custom_categories" in m <==> !req.customCategories.JUndefined?
    ensures "language" in m <==> !req.language.JUndefined?
    ensures "post_limit" in m <==> !req.postLimit.JUndefined?
    ensures "display_name" in m ==> m["display_name"] == req.displayName
    ensures "description" in m ==> m["description"] == req.description
    ensures "custom_categories" in m ==> m["custom_categories"] == req.customCategories
    ensures "language" in m ==> m["language"] == req.language
    ensures "post_limit" in m ==> m["post_limit"] == req.postLimit
    ensures m.Keys <= {"page_url", "display_name", "description", "custom_categories", "language", "post_limit"}
  {
    var m0 := map["page_url" := JString(req.pageUrl)];
    var m1 := if req.displayName.JUndefined? then m0 else m0["display_name" := req.displayName];
    var m2 := if req.description.JUndefined? then m1 else m1["description" := req.description];
    var m3 := if req.customCategories.JUndefined? then m2 else m2["custom_categories" := req.customCategories];
    var m4 := if req.language.JUndefined? then m3 else m3["language" := req.language];
    if req.postLimit.JUndefined? then m4 else m4["post_limit" := req.postLimit]
  }

  // ---------------------------------------------------------------------------
  // The route

  const STORE_WORD: JsString := [0x73, 0x74, 0x6F, 0x72, 0x65]

  /** `${value}` for the JSON values a display name can hold. */
  function TemplateText(v: Json): JsString {
    match v
    case JUndefined => [0x75, 0x6E, 0x64, 0x65, 0x66, 0x69, 0x6E, 0x65, 0x64]
    case JNull => [0x6E, 0x75, 0x6C, 0x6C]
    case JBool(b) => if b then [0x74, 0x72, 0x75, 0x65] else [0x66, 0x61, 0x6C, 0x73, 0x65]
    case JNumber(n) => if n < 0 then [HYPHEN] + DecimalString(-n) else DecimalString(n)
    case JString(s) => s
    case JStringArray(items) => Join(items, [COMMA])
    case JObject(_) => OBJECT_STRING
  }

  /** `dataset.store?.displayName ?? 'store'`, as text. */
  function StoreName(store: Json): JsString {
    var name := if Nullish(store) then JUndefined else Get(store, "displayName");
    TemplateText(Coalesce(name, JString(STORE_WORD)))
  }

  /** The text `Transformation completed for ` in UTF-16. */
  function CompletedPrefix(): JsString {
    Ascii("Transformation completed for ")
  }

  /** Forwarding a valid request: the service's answer, then (on success) the catalog read. */
  function Forward(req: TransformRequest, upstream: TransformRequest -> UpstreamResult, dataset: DbRead): (r: Response)
    ensures r.status in {200, 500, 502}
    ensures r.status == 200 <==> upstream(req).UpstreamReply? && upstream(req).ok && dataset.Dataset?
    ensures r.status == 502 <==> upstream(req).UpstreamReply? && !upstream(req).ok
    ensures r.body.SuccessBody? <==> r.status == 200
  {
    match upstream(req)
    case NetworkError(message) => Response(500, ErrorBody("Unexpected server error", Some(message)))
    case UpstreamReply(ok, text) =>
      if !ok then Response(502, ErrorBody("MCP transform failed", Some(text)))
      else match dataset
        case DbError(message) => Response(500, ErrorBody("Unexpected server error", Some(message)))
        case Dataset(store, categories, products, lastSyncedAt) =>
          Response(200, SuccessBody(CompletedPrefix() + StoreName(store), store, categories, products, lastSyncedAt))
  }

  /** `POST(request)`: a JSON `null` body throws before any response is built. */
  function Transform(body: Body, upstream: TransformRequest -> UpstreamResult, dataset: DbRead): (r: Outcome)
    ensures body.Malformed? ==> r.response.status == 400 && r.sent.None?
  {
    match body
    case Malformed => Outcome(Response(400, ErrorBody("Invalid JSON body", None)), None)
    case Parsed(payload) =>
      if payload.JNull? then Outcome(Response(500, Unhandled), None)
      else match PageUrl(payload)
        case None => Outcome(Response(400, ErrorBody("page_url is required", None)), None)
        case Some(url) =>
          var req := Normalize(payload, url);
          Outcome(Forward(req, upstream, dataset), Some(req))
  }

  // ---------------------------------------------------------------------------
  // Properties

  /**
   * A parsed body is forwarded exactly when its page URL (snake_case first)
   * is a non-empty string; otherwise the answer is 400 and nothing is sent.
   */
  lemma ValidationGate(payload: Json, upstream: TransformRequest -> UpstreamResult, dataset: DbRead)
    requires !payload.JNull?
    ensures var r := Transform(Parsed(payload), upstream, dataset);
      && (r.sent.Some? <==> PageUrl(payload).Some?)
      && (PageUrl(payload).None? ==> r.response == Response(400, ErrorBody("page_url is required", None)))
      && (r.sent.Some? ==> r.sent.value == Normalize(payload, PageUrl(payload).value))
  {
  }

  /** The page URL is accepted exactly when the first non-nullish of the two names holds a non-empty string. */
  lemma PageUrlCases(payload: Json)
    ensures PageUrl(payload).Some? <==>
      var v := if Nullish(Get(payload, "page_url")) then Get(payload, "pageUrl") else Get(payload, "page_url");
      v.JString? && v.s != []
    ensures PageUrl(payload).Some? ==> PageUrl(payload).value != []
  {
  }

  /** An empty `page_url` is rejected even when `pageUrl` holds a valid URL: `??` only skips null and undefined. */
  lemma EmptySnakeCaseShadowsCamelCase(fields: map<string, Json>, url: JsString, upstream: TransformRequest -> UpstreamResult, dataset: DbRead)
    requires url != []
    ensures var payload := JObject(fields["page_url" := JString([])]["pageUrl" := JString(url)]);
      Transform(Parsed(payload), upstream, dataset).response.status == 400
      && Transform(Parsed(payload), upstream, dataset).sent.None?
  {
    var payload := JObject(fields["page_url" := JString([])]["pageUrl" := JString(url)]);
    assert Get(payload, "page_url") == JString([]);
  }

  /**
   * The forwarded request takes each field from its snake_case name when
   * that is not nullish, else from its camelCase one, else the default
   * (no categories, language `bn`, 100 posts); a falsy value such as a
   * limit of 0 is kept, and the description has no camelCase alias.
   */
  lemma NormalizeFields(payload: Json, url: JsString)
    ensures var req := Normalize(payload, url);
      && req.pageUrl == url
      && req.displayName == (if Nullish(Get(payload, "display_name")) then Get(payload, "displayName") else Get(payload, "display_name"))
      && req.description == Get(payload, "description")
      && (!Nullish(Get(payload, "custom_categories")) ==> req.customCategories == Get(payload, "custom_categories"))
      && (Nullish(Get(payload, "custom_categories")) && !Nullish(Get(payload, "customCategories")) ==> req.customCategories == Get(payload, "customCategories"))
      && (Nullish(Get(payload, "custom_categories")) && Nullish(Get(payload, "customCategories")) ==> req.customCategories == JStringArray([]))
      && (Nullish(Get(payload, "language")) ==> req.language == JString([0x62, 0x6E]))
      && (!Nullish(Get(payload, "language")) ==> req.language == Get(payload, "language"))
      && (!Nullish(Get(payload, "post_limit")) ==> req.postLimit == Get(payload, "post_limit"))
      && (Nullish(Get(payload, "post_limit")) && !Nullish(Get(payload, "postLimit")) ==> req.postLimit == Get(payload, "postLimit"))
      && (Nullish(Get(payload, "post_limit")) && Nullish(Get(payload, "postLimit")) ==> req.postLimit == JNumber(100))
  {
  }

  /**
   * A failing service answer gives 502 with the service's text as details,
   * a rejected call or a failed catalog read gives 500 with the error's
   * message, and success gives 200 with the catalog's fields and a message
   * naming the store.
   */
  lemma ForwardOutcomes(req: TransformRequest, upstream: TransformRequest -> UpstreamResult, dataset: DbRead)
    ensures var r := Forward(req, upstream, dataset);
      match upstream(req)
      case NetworkError(message) => r.status == 500 && r.body.details == Some(message)
      case UpstreamReply(ok, text) =>
        && (!ok ==> r.status == 502 && r.body == ErrorBody("MCP transform failed", Some(text)))
        && (ok && dataset.DbError? ==> r.status == 500 && r.body.details == Some(dataset.message))
        && (ok && dataset.Dataset? ==>
              && r.status == 200
              && r.body.store == dataset.store
              && r.body.categories == dataset.categories
              && r.body.products == dataset.products
              && r.body.lastSyncedAt == dataset.lastSyncedAt
              && r.body.message == CompletedPrefix() + StoreName(dataset.store)
              && IsPrefix(CompletedPrefix(), r.body.message))
  {
    var r := Forward(req, upstream, dataset);
    if upstream(req).UpstreamReply? && upstream(req).ok && dataset.Dataset? {
      var m := CompletedPrefix() + StoreName(dataset.store);
      assert m[..|CompletedPrefix()|] == CompletedPrefix();
    }
  }

  /** The serialised request of a normalised body always carries the categories, the language and the post limit. */
  lemma SerialisedDefaults(payload: Json, url: JsString)
    ensures var m := RequestFields(Normalize(payload, url));
      && "page_url" in m && "custom_categories" in m && "language" in m && "post_limit" in m
  {
  }

  /** The store's display name when it is a string, else `store`. */
  lemma StoreNameCases(store: Json)
    ensures Nullish(store) ==> StoreName(store) == STORE_WORD
    ensures store.JObject? && "displayName" in store.fields && store.fields["displayName"].JString? ==>
      StoreName(store) == store.fields["displayName"].s
    ensures store.JObject? && "displayName" !in store.fields ==> StoreName(store) == STORE_WORD
  {
  }
}
