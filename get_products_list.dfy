/**
 * The product list endpoint: both tables are scanned, and every product is
 * returned with the count of its stock row added, 0 when it has none. Stock
 * rows are matched to products with `===` on `product_id` and `id`.
 */
module GetProductsList {
  import opened Wrappers
  import opened Json
  import opened Http

  /** What a scan gives back: a rejection, or a page whose `Items` may be absent. */
  datatype Scan = ScanFailed | Scanned(items: Option<seq<Item>>)

  /** The stock row's `product_id` is strictly equal to the id. */
  predicate Matches(stock: Item, id: Value) {
    StrictEquals(Attr(stock, "product_id"), id)
  }

  /** Where the search through the stock rows stops: the index of the first row that matches the id, if any. */
  function FindStock(stocks: seq<Item>, id: Value): (r: Option<nat>)
    ensures r.Some? ==> r.value < |stocks| && Matches(stocks[r.value], id)
    ensures r.Some? ==> forall j :: 0 <= j < r.value ==> !Matches(stocks[j], id)
    ensures r.None? <==> forall j :: 0 <= j < |stocks| ==> !Matches(stocks[j], id)
  {
    if stocks == [] then None
    else if Matches(stocks[0], id) then Some(0)
    else
      match FindStock(stocks[1..], id)
      case None => None
      case Some(j) => Some(j + 1)
  }

  /** The count of the first matching stock row when it is truthy, and 0 otherwise or when no row matches. */
  function CountFor(product: Item, stocks: seq<Item>): Value {
    match FindStock(stocks, Attr(product, "id"))
    case None => Num(0.0)
    case Some(j) => Or(Attr(stocks[j], "count"), Num(0.0))
  }

  /** A copy of the product with its `count` field set. */
  function WithCount(product: Item, stocks: seq<Item>): Value {
    Obj(product["count" := CountFor(product, stocks)])
  }

  /** Every product, in scan order, with its count. */
  function Join(products: seq<Item>, stocks: seq<Item>): (r: seq<Value>)
    ensures |r| == |products|
    ensures forall j :: 0 <= j < |products| ==> r[j] == WithCount(products[j], stocks)
  {
    seq(|products|, j requires 0 <= j < |products| => WithCount(products[j], stocks))
  }

  /** The handler, given the outcome of the products scan and of the stocks scan. */
  function GetProductsList(products: Scan, stocks: Scan): Response {
    if products.ScanFailed? || stocks.ScanFailed? then Response(500, JsonCors, InternalErrorBody)
    else Response(200, JsonCors, Arr(Join(products.items.GetOr([]), stocks.items.GetOr([]))))
  }

  /**
   * The count is the count of the first stock row whose `product_id` is
   * strictly equal to the product's `id` when that count is truthy, and 0
   * otherwise; without a matching row it is 0.
   */
  lemma CountIsFirstMatch(product: Item, stocks: seq<Item>, j: nat)
    requires j < |stocks| && Matches(stocks[j], Attr(product, "id"))
    requires forall i :: 0 <= i < j ==> !Matches(stocks[i], Attr(product, "id"))
    ensures var c := Attr(stocks[j], "count");
      CountFor(product, stocks) == if Truthy(c) then c else Num(0.0)
  {
    var r := FindStock(stocks, Attr(product, "id"));
    assert r.Some? && r.value == j;
  }

  lemma CountDefaultsToZero(product: Item, stocks: seq<Item>)
    requires forall i :: 0 <= i < |stocks| ==> !Matches(stocks[i], Attr(product, "id"))
    ensures CountFor(product, stocks) == Num(0.0)
  {
  }

  /**
   * Each entry keeps every field of its product unchanged and adds `count`,
   * which replaces a `count` field the product row may have had.
   */
  lemma JoinKeepsProductFields(products: seq<Item>, stocks: seq<Item>, j: nat)
    requires j < |products|
    ensures var e := Join(products, stocks)[j];
      && e.Obj?
      && e.fields.Keys == products[j].Keys + {"count"}
      && (forall k :: k in products[j] && k != "count" ==> e.fields[k] == products[j][k])
      && e.fields["count"] == CountFor(products[j], stocks)
  {
  }

  /** A stock row that matches no product does not change the count of any. */
  lemma UnmatchedStockIgnored(product: Item, before: seq<Item>, extra: Item, after: seq<Item>)
    requires !Matches(extra, Attr(product, "id"))
    ensures CountFor(product, before + [extra] + after) == CountFor(product, before + after)
  {
    UnmatchedStockFound(before, extra, after, Attr(product, "id"));
  }

  /** Where the search lands, with and without an unmatched row in the middle. */
  lemma UnmatchedStockFound(before: seq<Item>, extra: Item, after: seq<Item>, id: Value)
    requires !Matches(extra, id)
    ensures var f := FindStock(before + [extra] + after, id);
      var g := FindStock(before + after, id);
      && (f.None? <==> g.None?)
      && (f.Some? ==> (before + [extra] + after)[f.value] == (before + after)[g.value])
  {
    var with := before + [extra] + after;
    var without := before + after;
    var f := FindStock(with, id);
    var g := FindStock(without, id);
    if f.Some? {
      if f.value < |before| {
        assert with[f.value] == without[f.value];
        assert forall j :: 0 <= j < f.value ==> with[j] == without[j];
        assert g.Some? && g.value == f.value;
      } else {
        assert f.value > |before| by { assert with[|before|] == extra; }
        assert with[f.value] == without[f.value - 1];
        forall j | 0 <= j < f.value - 1 ensures !Matches(without[j], id) {
          if j < |before| { assert without[j] == with[j]; } else { assert without[j] == with[j + 1]; }
        }
        assert g.Some? && g.value == f.value - 1;
      }
    } else {
      forall j | 0 <= j < |without| ensures !Matches(without[j], id) {
        if j < |before| { assert without[j] == with[j]; } else { assert without[j] == with[j + 1]; }
      }
    }
  }

  /** The listing does not change when a stock row matching no product is added anywhere in the scan. */
  lemma UnmatchedStockIrrelevant(products: seq<Item>, before: seq<Item>, extra: Item, after: seq<Item>)
    requires forall j :: 0 <= j < |products| ==> !Matches(extra, Attr(products[j], "id"))
    ensures Join(products, before + [extra] + after) == Join(products, before + after)
  {
    forall j | 0 <= j < |products|
      ensures WithCount(products[j], before + [extra] + after) == WithCount(products[j], before + after)
    {
      UnmatchedStockIgnored(products[j], before, extra, after);
    }
  }

  /**
   * The listing is 200 with one entry per scanned product, in scan order,
   * exactly when both scans succeed; an absent `Items` counts as empty, so
   * no products gives an empty list; any failed scan gives 500.
   */
  lemma ListResponse(products: Scan, stocks: Scan)
    ensures var r := GetProductsList(products, stocks);
      && AllowsCors(r)
      && r.headers["Content-Type"] == Str("application/json")
      && (r.statusCode == 200 <==> products.Scanned? && stocks.Scanned?)
      && (r.statusCode != 200 ==> r.statusCode == 500 && r.body == InternalErrorBody)
      && (r.statusCode == 200 ==> r.body.Arr? && |r.body.items| == |products.items.GetOr([])|)
      && (products == Scanned(None) && stocks.Scanned? ==> r.body == Arr([]))
  {
  }
}
