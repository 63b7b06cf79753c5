/**
 * The read side of the catalog service (apps/products-api/src/index.ts):
 * the `/products` listing with its category, search and limit query
 * parameters, and the `/products/:id` lookup, over the catalog's product
 * list read from storage.
 */
module ProductsApi {
  import opened Wrappers
  import opened JsText
  import opened SeqUtil
  import opened ProductGenerator

  /** A query-string parameter as the server parses it: absent, one string, a repeated key, or a nested object. */
  datatype QueryValue = Absent | Str(s: JsString) | Many(items: seq<JsString>) | Nested

  datatype ProductsQuery = ProductsQuery(categoryId: QueryValue, search: QueryValue, limit: QueryValue)

  /** A response: a status code and either a product list, one product, or an error message (an ASCII literal of the service). */
  datatype Reply =
    | ListReply(products: seq<ProductRecord>)
    | ItemReply(product: ProductRecord)
    | ErrorReply(status: int, error: string)
  {
    function Status(): int {
      match this
      case ErrorReply(code, _) => code
      case _ => 200
    }
  }

  // ---------------------------------------------------------------------------
  // Number.parseInt(String(limit ?? ''), 10)

  /** `String(value ?? '')`: an array joins its items with commas, an object prints as `[object Object]`. */
  function QueryString(v: QueryValue): JsString {
    match v
    case Absent => []
    case Str(s) => s
    case Many(items) => Join(items, [COMMA])
    case Nested => OBJECT_STRING
  }

  /**
   * `Number.parseInt(s, 10)`: leading white space, an optional sign, then
   * the longest run of decimal digits; `None` stands for `NaN`.
   */
  function ParseInt(s: JsString): (r: Option<int>)
    ensures (forall k :: 0 <= k < |s| ==> !IsDigit(s[k])) ==> r == None
    ensures r.Some? && r.value < 0 ==> TrimStart(s) != [] && TrimStart(s)[0] == HYPHEN
  {
    var t := TrimStart(s);
    var negative := t != [] && t[0] == HYPHEN;
    var rest := if t != [] && (t[0] == HYPHEN || t[0] == 0x2B) then t[1..] else t;
    var e := DigitRunEnd(rest, 0);
    assert rest == [] || rest[0] == s[|s| - |rest|];
    if e == 0 then None
    else
      var n: int := DigitsValue(rest[..e]);
      Some(if negative then -n else n)
  }

  /** The digit run starting at `j` ends at the first non-digit. */
  lemma DigitRunEndsAt(s: JsString, j: nat, e: nat)
    requires j <= e <= |s|
    requires forall k :: j <= k < e ==> IsDigit(s[k])
    requires e == |s| || !IsDigit(s[e])
    ensures DigitRunEnd(s, j) == e
  {
  }

  /** `parseInt` reads back every decimal numeral, whatever non-digit follows it. */
  lemma ParseIntDecimal(n: nat, tail: JsString)
    requires tail == [] || !IsDigit(tail[0])
    ensures ParseInt(DecimalString(n) + tail) == Some(n)
  {
    var d := DecimalString(n);
    var s := d + tail;
    assert s[0] == d[0];
    assert !IsSpace(s[0]) && s[0] != HYPHEN && s[0] != 0x2B;
    assert TrimStart(s) == s;
    assert forall k :: 0 <= k < |d| ==> IsDigit(s[k]) by {
      forall k | 0 <= k < |d| ensures IsDigit(s[k]) { assert s[k] == d[k]; }
    }
    assert |s| == |d| || s[|d|] == tail[0];
    DigitRunEndsAt(s, 0, |d|);
    assert s[..|d|] == d;
    DecimalRoundTrip(n);
  }

  /** The limit in force: a parsed value above zero. */
  function Limit(v: QueryValue): Option<nat> {
    match ParseInt(QueryString(v))
    case Some(n) => if n > 0 then Some(n) else None
    case None => None
  }

  // ---------------------------------------------------------------------------
  // GET /products

  /** A parameter that is a single string with something besides white space in it. */
  predicate ActiveText(v: QueryValue) {
    v.Str? && Trim(v.s) != []
  }

  /** The search term matches the title, the description or some tag, ignoring ASCII case. */
  predicate SearchMatches(p: ProductRecord, term: JsString) {
    || Contains(ToLower(p.title), term)
    || Contains(ToLower(p.description), term)
    || exists i | 0 <= i < |p.tags| :: Contains(ToLower(p.tags[i]), term)
  }

  function ByCategory(products: seq<ProductRecord>, v: QueryValue): seq<ProductRecord> {
    if ActiveText(v) then
      var id := Trim(v.s);
      Filter(products, (p: ProductRecord) => p.categoryId == id)
    else products
  }

  function BySearch(products: seq<ProductRecord>, v: QueryValue): seq<ProductRecord> {
    if ActiveText(v) then
      var term := ToLower(Trim(v.s));
      Filter(products, (p: ProductRecord) => SearchMatches(p, term))
    else products
  }

  function ByLimit(products: seq<ProductRecord>, v: QueryValue): seq<ProductRecord> {
    match Limit(v)
    case Some(n) => if n < |products| then products[..n] else products
    case None => products
  }

  /**
   * The product list `/products` answers for a query: catalog products
   * that pass the category and search filters, never more than a limit in
   * force.
   */
  function QueryProducts(products: seq<ProductRecord>, q: ProductsQuery): (r: seq<ProductRecord>)
    ensures forall p :: p in r ==> p in products && PassesFilters(p, q)
    ensures |r| <= |products|
    ensures Limit(q.limit).Some? ==> |r| <= Limit(q.limit).value
  {
    var filtered := BySearch(ByCategory(products, q.categoryId), q.search);
    FiltersExact(products, q);
    ByLimit(filtered, q.limit)
  }

  /** `GET /products`; `catalog` is `None` when the catalog cannot be read. */
  function GetProducts(catalog: Option<seq<ProductRecord>>, q: ProductsQuery): (r: Reply)
    ensures catalog.None? ==> r.Status() == 500
    ensures catalog.Some? ==> r == ListReply(QueryProducts(catalog.value, q))
  {
    match catalog
    case None => ErrorReply(500, "Unable to load products")
    case Some(products) => ListReply(QueryProducts(products, q))
  }

  /** The answer keeps the catalog's order and only drops products. */
  lemma QueryIsSubsequence(products: seq<ProductRecord>, q: ProductsQuery)
    ensures IsSubsequence(QueryProducts(products, q), products)
  {
    var a := ByCategory(products, q.categoryId);
    var b := BySearch(a, q.search);
    var c := ByLimit(b, q.limit);
    if ActiveText(q.categoryId) {
      var id := Trim(q.categoryId.s);
      FilterIsSubsequence(products, (p: ProductRecord) => p.categoryId == id);
    } else {
      SubsequenceReflexive(products);
    }
    if ActiveText(q.search) {
      var term := ToLower(Trim(q.search.s));
      FilterIsSubsequence(a, (p: ProductRecord) => SearchMatches(p, term));
    } else {
      SubsequenceReflexive(a);
    }
    if Limit(q.limit).Some? && Limit(q.limit).value < |b| {
      PrefixIsSubsequence(b, Limit(q.limit).value);
    } else {
      SubsequenceReflexive(b);
    }
    SubsequenceTransitive(b, a, products);
    SubsequenceTransitive(c, b, products);
  }

  /** Whether a product passes the category and search filters of a query. */
  predicate PassesFilters(p: ProductRecord, q: ProductsQuery) {
    && (ActiveText(q.categoryId) ==> p.categoryId == Trim(q.categoryId.s))
    && (ActiveText(q.search) ==> SearchMatches(p, ToLower(Trim(q.search.s))))
  }

  lemma FiltersExact(products: seq<ProductRecord>, q: ProductsQuery)
    ensures forall p :: p in BySearch(ByCategory(products, q.categoryId), q.search) <==> p in products && PassesFilters(p, q)
  {
    var a := ByCategory(products, q.categoryId);
    if ActiveText(q.categoryId) {
      var id := Trim(q.categoryId.s);
      FilterMembers(products, (p: ProductRecord) => p.categoryId == id);
    }
    if ActiveText(q.search) {
      var term := ToLower(Trim(q.search.s));
      FilterMembers(a, (p: ProductRecord) => SearchMatches(p, term));
    }
  }

  /**
   * Without a limit in force the answer holds exactly the catalog's
   * products that pass the category and search filters; with one it
   * holds the first `limit` of them (all, when there are fewer).
   */
  lemma QueryContents(products: seq<ProductRecord>, q: ProductsQuery)
    ensures var filtered := BySearch(ByCategory(products, q.categoryId), q.search);
      && (forall p :: p in filtered <==> p in products && PassesFilters(p, q))
      && (Limit(q.limit).None? ==> QueryProducts(products, q) == filtered)
      && (Limit(q.limit).Some? ==>
            && |QueryProducts(products, q)| == Min(Limit(q.limit).value, |filtered|)
            && QueryProducts(products, q) == filtered[..|QueryProducts(products, q)|])
  {
    FiltersExact(products, q);
  }

  /** With no query parameters the whole catalog comes back unchanged. */
  lemma NoParametersNoChange(products: seq<ProductRecord>)
    ensures QueryProducts(products, ProductsQuery(Absent, Absent, Absent)) == products
  {
    assert QueryString(Absent) == [];
    assert ParseInt([]) == None;
  }

  /** A decimal limit above zero caps the answer at that many products. */
  lemma DecimalLimit(products: seq<ProductRecord>, categoryId: QueryValue, search: QueryValue, n: nat)
    requires n > 0
    ensures |QueryProducts(products, ProductsQuery(categoryId, search, Str(DecimalString(n))))| <= n
  {
    var limit := Str(DecimalString(n));
    ParseIntDecimal(n, []);
    assert DecimalString(n) + [] == DecimalString(n);
    assert QueryString(limit) == DecimalString(n);
    assert Limit(limit) == Some(n);
    var filtered := BySearch(ByCategory(products, categoryId), search);
    assert QueryProducts(products, ProductsQuery(categoryId, search, limit)) == ByLimit(filtered, limit);
  }

  // ---------------------------------------------------------------------------
  // GET /products/:id

  /** `data.products.find((item) => item.id === id)`. */
  function FindById(products: seq<ProductRecord>, id: JsString): Option<ProductRecord> {
    Find(products, (p: ProductRecord) => p.id == id)
  }

  /** The first product with the id, and none exactly when no product has it. */
  lemma FindByIdFirst(products: seq<ProductRecord>, id: JsString)
    ensures FindById(products, id).None? <==> forall i :: 0 <= i < |products| ==> products[i].id != id
    ensures FindById(products, id).Some? ==>
      exists k :: 0 <= k < |products| && products[k] == FindById(products, id).value
                  && products[k].id == id && forall i :: 0 <= i < k ==> products[i].id != id
  {
    FindFirst(products, (p: ProductRecord) => p.id == id);
  }

  /** `GET /products/:id`: the first product with that id, else 404. */
  function GetProduct(catalog: Option<seq<ProductRecord>>, id: JsString): (r: Reply)
    ensures catalog.None? ==> r.Status() == 500
    ensures catalog.Some? ==> r.Status() == 200 || r.Status() == 404
  {
    match catalog
    case None => ErrorReply(500, "Unable to load product")
    case Some(products) =>
      match FindById(products, id)
      case Some(p) => ItemReply(p)
      case None => ErrorReply(404, "Product not found")
  }

  /**
   * The lookup answers 404 exactly when no product has the id, and
   * otherwise the first product that has it.
   */
  lemma GetProductFirstMatch(products: seq<ProductRecord>, id: JsString)
    ensures GetProduct(Some(products), id).Status() == 404 <==> forall i :: 0 <= i < |products| ==> products[i].id != id
    ensures GetProduct(Some(products), id).ItemReply? ==>
      exists k :: 0 <= k < |products| && products[k] == GetProduct(Some(products), id).product
                  && products[k].id == id && forall i :: 0 <= i < k ==> products[i].id != id
  {
    FindByIdFirst(products, id);
  }
}
