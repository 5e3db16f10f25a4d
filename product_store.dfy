/**
 * The product service's durable state: the products table keyed by `id`, the
 * stocks table keyed by `product_id`, and the notification topic, whose
 * published messages form an append-only log.
 */
module ProductStore {
  import opened Json

  /** A message published to the product topic. */
  datatype Notification =
    | Created(message: string, product: Item, price: Value)
    | Failed(message: string, error: string)
  {
    /** The subject line the message is published with. */
    function Subject(): string {
      if Created? then "New Product Created" else "Error Creating Products"
    }
  }

  /** The abstract value of the tables and the topic. */
  datatype Store = Store(products: map<string, Item>, stocks: map<string, Item>, published: seq<Notification>)

  /** `{ id, title, description, price }` as a products-table row. */
  function ProductItem(id: string, title: Value, description: Value, price: Value): Item {
    map["id" := Str(id), "title" := title, "description" := description, "price" := price]
  }

  /** `{ product_id, count }` as a stocks-table row. */
  function StockItem(id: string, count: Value): Item {
    map["product_id" := Str(id), "count" := count]
  }

  /** Every row of `table` is stored under the key its attribute `attr` names. */
  predicate Keyed(table: map<string, Item>, attr: string) {
    forall id :: id in table ==> Attr(table[id], attr) == Str(id)
  }

  /**
   * Every product row has a stock row and every stock row a product row, each
   * stored under the key its own key attribute names.
   */
  predicate Paired(s: Store) {
    && s.products.Keys == s.stocks.Keys
    && Keyed(s.products, "id")
    && Keyed(s.stocks, "product_id")
  }

  lemma PutKeepsKeyed(table: map<string, Item>, attr: string, id: string, row: Item)
    requires Keyed(table, attr) && Attr(row, attr) == Str(id)
    ensures Keyed(table[id := row], attr)
  {
    forall k | k in table[id := row] ensures Attr(table[id := row][k], attr) == Str(k) {
      if k != id {
        assert table[id := row][k] == table[k];
      }
    }
  }

  /** Writing a product row and its stock row under the same id keeps the tables paired. */
  lemma PutPairKeepsPaired(s: Store, id: string, product: Item, stock: Item)
    requires Paired(s)
    requires Attr(product, "id") == Str(id) && Attr(stock, "product_id") == Str(id)
    ensures Paired(s.(products := s.products[id := product], stocks := s.stocks[id := stock]))
  {
    PutKeepsKeyed(s.products, "id", id, product);
    PutKeepsKeyed(s.stocks, "product_id", id, stock);
    assert s.products[id := product].Keys == s.products.Keys + {id};
    assert s.stocks[id := stock].Keys == s.stocks.Keys + {id};
  }

  /** The live tables and topic that the handlers write to. */
  class Backend {
    var products: map<string, Item>
    var stocks: map<string, Item>
    var published: seq<Notification>

    function State(): Store
      reads this
    {
      Store(products, stocks, published)
    }

    constructor (initial: Store)
      ensures State() == initial
    {
      products := initial.products;
      stocks := initial.stocks;
      published := initial.published;
    }
  }
}
