/**
 * The single-product endpoint: the product row is read by its key; when it
 * exists, the stock row is read by the same key and its count is added, 0
 * when there is none. The reads the handler makes are recorded alongside the
 * response.
 */
module GetProductById {
  import opened Wrappers
  import opened Json
  import opened Http
  import opened ProductStore
  import opened GetProductsList

  /** A `GetCommand` on one of the two tables, with the key it asks for. */
  datatype TableRead = ProductsGet(key: string) | StocksGet(key: string)

  /** The response and the reads made, in order. */
  datatype Reply = Reply(response: Response, trace: seq<TableRead>)

  const IdRequired: string := "Product ID is required"
  const NotFound: string := "Product not found"

  /** A copy of the product whose `count` is the stock row's count when that is truthy, and 0 otherwise or without a stock row. */
  function WithStock(product: Item, stock: Option<Item>): Value {
    var count := if stock.Some? then Attr(stock.value, "count") else Undefined;
    Obj(product["count" := Or(count, Num(0.0))])
  }

  /** The row stored under `key`, if any. */
  function Lookup(table: map<string, Item>, key: string): Option<Item> {
    if key in table then Some(table[key]) else None
  }

  /**
   * The handler, given the path parameter (absent when the path has none),
   * the two tables, and whether each table's read is rejected.
   */
  function GetProductById(productId: Option<string>, products: map<string, Item>, stocks: map<string, Item>,
                          productsFail: bool, stocksFail: bool): Reply
  {
    if productId.None? || productId.value == "" then Reply(Response(400, Cors, MessageBody(IdRequired)), [])
    else
      var id := productId.value;
      if productsFail then Reply(ServerError, [ProductsGet(id)])
      else if id !in products then Reply(Response(404, Cors, MessageBody(NotFound)), [ProductsGet(id)])
      else if stocksFail then Reply(ServerError, [ProductsGet(id), StocksGet(id)])
      else Reply(Response(200, Cors, WithStock(products[id], Lookup(stocks, id))), [ProductsGet(id), StocksGet(id)])
  }

  /** A missing or empty id is refused with 400, and no table is read. */
  lemma MissingIdRefused(productId: Option<string>, products: map<string, Item>, stocks: map<string, Item>,
                         productsFail: bool, stocksFail: bool)
    requires productId.None? || productId.value == ""
    ensures var r := GetProductById(productId, products, stocks, productsFail, stocksFail);
      && r.response.statusCode == 400
      && Message(r.response) == Str(IdRequired)
      && r.trace == []
  {
  }

  /** An id with no product row gives 404, and the stocks table is not read. */
  lemma AbsentProductNotFound(id: string, products: map<string, Item>, stocks: map<string, Item>, stocksFail: bool)
    requires id != "" && id !in products
    ensures var r := GetProductById(Some(id), products, stocks, false, stocksFail);
      && r.response.statusCode == 404
      && Message(r.response) == Str(NotFound)
      && r.trace == [ProductsGet(id)]
  {
  }

  /**
   * The answer is 200 exactly when the id is given, both reads succeed and
   * the product exists; the body is then the product row with `count` set to
   * the stock row's count when that is truthy, and to 0 otherwise or when
   * there is no stock row.
   */
  lemma FoundProduct(productId: Option<string>, products: map<string, Item>, stocks: map<string, Item>,
                     productsFail: bool, stocksFail: bool)
    ensures var r := GetProductById(productId, products, stocks, productsFail, stocksFail);
      && (r.response.statusCode == 200 <==>
            productId.Some? && productId.value != "" && !productsFail && !stocksFail && productId.value in products)
      && (r.response.statusCode == 200 ==>
            var id := productId.value;
            var body := r.response.body;
            && body.Obj?
            && body.fields.Keys == products[id].Keys + {"count"}
            && (forall k :: k in products[id] && k != "count" ==> body.fields[k] == products[id][k])
            && (id in stocks && Truthy(Attr(stocks[id], "count")) ==> body.fields["count"] == Attr(stocks[id], "count"))
            && (id !in stocks || !Truthy(Attr(stocks[id], "count")) ==> body.fields["count"] == Num(0.0)))
  {
  }

  /**
   * Both reads use the same key, the path parameter; the stocks table is
   * read only after the product row was found.
   */
  lemma ReadsUseOneKey(productId: Option<string>, products: map<string, Item>, stocks: map<string, Item>,
                       productsFail: bool, stocksFail: bool)
    ensures var r := GetProductById(productId, products, stocks, productsFail, stocksFail);
      && (forall j :: 0 <= j < |r.trace| ==> r.trace[j].key == productId.value)
      && (forall j :: 0 <= j < |r.trace| && r.trace[j].StocksGet? ==>
            j == 1 && r.trace[0] == ProductsGet(productId.value) && !productsFail && productId.value in products)
  {
  }

  /** The read is rejected. */
  predicate Rejected(read: TableRead, productsFail: bool, stocksFail: bool) {
    if read.ProductsGet? then productsFail else stocksFail
  }

  /**
   * A rejected read gives 500 "Internal server error"; the answer is 500
   * exactly when a read that was made was rejected.
   */
  lemma ReadFailureIsServerError(productId: Option<string>, products: map<string, Item>, stocks: map<string, Item>,
                                 productsFail: bool, stocksFail: bool)
    ensures var r := GetProductById(productId, products, stocks, productsFail, stocksFail);
      && (r.response.statusCode == 500 <==>
            exists j :: 0 <= j < |r.trace| && Rejected(r.trace[j], productsFail, stocksFail))
      && (r.response.statusCode == 500 ==> Message(r.response) == Str("Internal server error"))
  {
    var r := GetProductById(productId, products, stocks, productsFail, stocksFail);
    if r.response.statusCode == 500 {
      var j := if productsFail then 0 else 1;
      assert Rejected(r.trace[j], productsFail, stocksFail);
    }
  }

  /** Every response carries the CORS headers. */
  lemma ByIdAllowsCors(productId: Option<string>, products: map<string, Item>, stocks: map<string, Item>,
                       productsFail: bool, stocksFail: bool)
    ensures AllowsCors(GetProductById(productId, products, stocks, productsFail, stocksFail).response)
  {
  }

  /**
   * The two endpoints agree: when the stocks table is keyed by `product_id`
   * and the stocks scan lists exactly its rows, a product fetched by id is
   * the same object as its entry in the listing.
   */
  lemma ByIdAgreesWithList(id: string, products: map<string, Item>, stocks: map<string, Item>, scanned: seq<Item>)
    requires id != "" && id in products && Attr(products[id], "id") == Str(id)
    requires Keyed(stocks, "product_id")
    requires forall j :: 0 <= j < |scanned| ==> scanned[j] in stocks.Values
    requires id in stocks ==> stocks[id] in scanned
    ensures GetProductById(Some(id), products, stocks, false, false).response.body == WithCount(products[id], scanned)
  {
    var key := Str(id);
    forall j | 0 <= j < |scanned| && Matches(scanned[j], key)
      ensures scanned[j] == stocks[id]
    {
      var k :| k in stocks && stocks[k] == scanned[j];
      assert Attr(stocks[k], "product_id") == Str(k);
    }
    if id in stocks {
      var j :| 0 <= j < |scanned| && scanned[j] == stocks[id];
      var f := FindStock(scanned, key);
      assert f.Some?;
      CountIsFirstMatch(products[id], scanned, f.value);
    } else {
      CountDefaultsToZero(products[id], scanned);
    }
  }
}
