/**
 * The single-product creation endpoint: the request body is checked, then
 * the product row and the stock row are written together, in one
 * transaction, under a freshly generated id, and the response echoes the id
 * and the submitted fields.
 */
module CreateProduct {
  import opened Wrappers
  import opened Json
  import opened Http
  import opened ProductStore

  const BodyRequired: string := "Product data is required"
  const FieldsRequired: string := "Missing required fields. Title, description, price, and count are required"

  /** The tables and topic after the request, and the response. */
  datatype Outcome = Outcome(store: Store, response: Response)

  /**
   * The field check: a truthy title and description, and a price and a count
   * of type number. Nothing else about them is checked.
   */
  predicate HasRequiredFields(v: Value)
    requires !ReadThrows(v)
  {
    && Truthy(Field(v, "title"))
    && Truthy(Field(v, "description"))
    && TypeOf(Field(v, "price")) == "number"
    && TypeOf(Field(v, "count")) == "number"
  }

  /** Only an object can have the required fields. */
  lemma RequiredFieldsOnlyOnObjects(v: Value)
    requires !ReadThrows(v) && HasRequiredFields(v)
    ensures v.Obj?
  {
  }

  /** The products-table row: the generated id with the submitted title, description and price. */
  function NewProductRow(id: string, v: Value): Item
    requires !ReadThrows(v)
  {
    ProductItem(id, Field(v, "title"), Field(v, "description"), Field(v, "price"))
  }

  /** The stocks-table row: the generated id with the submitted count. */
  function NewStockRow(id: string, v: Value): Item
    requires !ReadThrows(v)
  {
    StockItem(id, Field(v, "count"))
  }

  /** The echoed product: the generated id, overridden by any submitted field of the same name. */
  function Echo(id: string, v: Value): Value
    requires v.Obj?
  {
    Obj(map["id" := Str(id)] + v.fields)
  }

  /**
   * The request as the handler treats it, given the body (absent when the
   * event has none), `JSON.parse`, the generated id and whether the
   * transaction is rejected.
   */
  function Create(s: Store, body: Option<string>, parse: string -> Parsed, freshId: string, writeFails: bool): Outcome {
    if body.None? || body.value == "" then Outcome(s, Response(400, Cors, MessageBody(BodyRequired)))
    else
      match parse(body.value)
      case Malformed(_) => Outcome(s, ServerError)
      case Json(v) =>
        if ReadThrows(v) then Outcome(s, ServerError)
        else if !HasRequiredFields(v) then Outcome(s, Response(400, Cors, MessageBody(FieldsRequired)))
        else if writeFails then Outcome(s, ServerError)
        else
          var t := s.(products := s.products[freshId := NewProductRow(freshId, v)],
                      stocks := s.stocks[freshId := NewStockRow(freshId, v)]);
          Outcome(t, Response(201, Cors, Echo(freshId, v)))
  }

  /** The body the request carries parses to a value whose fields can be read. */
  predicate Readable(body: Option<string>, parse: string -> Parsed) {
    && body.Some? && body.value != ""
    && parse(body.value).Json?
    && !ReadThrows(parse(body.value).value)
  }

  /** A missing or empty body is refused with 400 and changes nothing. */
  lemma MissingBodyRefused(s: Store, body: Option<string>, parse: string -> Parsed, freshId: string, writeFails: bool)
    requires body.None? || body.value == ""
    ensures var o := Create(s, body, parse, freshId, writeFails);
      && o.store == s
      && o.response.statusCode == 400
      && Message(o.response) == Str(BodyRequired)
  {
  }

  /**
   * A readable body is refused with 400 "Missing required fields..." exactly
   * when the field check fails, and then nothing changes.
   */
  lemma MissingFieldsRefused(s: Store, body: Option<string>, parse: string -> Parsed, freshId: string, writeFails: bool)
    requires Readable(body, parse)
    ensures var o := Create(s, body, parse, freshId, writeFails);
      && (o.response.statusCode == 400 <==> !HasRequiredFields(parse(body.value).value))
      && (o.response.statusCode == 400 ==> o.store == s && Message(o.response) == Str(FieldsRequired))
  {
  }

  /**
   * The request succeeds with 201 exactly when the body is readable, passes
   * the field check and the transaction is accepted. Then both rows are
   * written under the generated id and nothing else changes; otherwise
   * nothing changes at all: the transaction leaves neither row behind.
   */
  lemma CreateCommitsBothOrNeither(s: Store, body: Option<string>, parse: string -> Parsed, freshId: string, writeFails: bool)
    ensures var o := Create(s, body, parse, freshId, writeFails);
      && (o.response.statusCode == 201 <==>
            Readable(body, parse) && HasRequiredFields(parse(body.value).value) && !writeFails)
      && (o.response.statusCode == 201 ==>
            var v := parse(body.value).value;
            && o.store.products == s.products[freshId := NewProductRow(freshId, v)]
            && o.store.stocks == s.stocks[freshId := NewStockRow(freshId, v)]
            && o.store.published == s.published)
      && (o.response.statusCode != 201 ==> o.store == s)
  {
  }

  /** A write that is rejected gives 500 "Internal server error" and no rows. */
  lemma WriteFailureIsServerError(s: Store, body: Option<string>, parse: string -> Parsed, freshId: string)
    requires Readable(body, parse) && HasRequiredFields(parse(body.value).value)
    ensures var o := Create(s, body, parse, freshId, true);
      && o.store == s
      && o.response.statusCode == 500
      && Message(o.response) == Str("Internal server error")
  {
  }

  /** Every response, whatever the path, carries the CORS headers. */
  lemma CreateAllowsCors(s: Store, body: Option<string>, parse: string -> Parsed, freshId: string, writeFails: bool)
    ensures AllowsCors(Create(s, body, parse, freshId, writeFails).response)
  {
  }

  /**
   * The price is only type-checked: a zero or negative price is stored as
   * submitted.
   */
  lemma NonPositivePriceAccepted(s: Store, body: Option<string>, parse: string -> Parsed, freshId: string)
    requires Readable(body, parse)
    requires var v := parse(body.value).value;
      Truthy(Field(v, "title")) && Truthy(Field(v, "description")) && TypeOf(Field(v, "count")) == "number"
    requires Field(parse(body.value).value, "price").Num? && Field(parse(body.value).value, "price").n <= 0.0
    ensures var o := Create(s, body, parse, freshId, false);
      && o.response.statusCode == 201
      && o.store.products[freshId]["price"] == Field(parse(body.value).value, "price")
  {
  }

  /**
   * The transaction keeps the tables paired: a new id gets both its rows, or,
   * on any failure, neither table changes.
   */
  lemma CreateKeepsPaired(s: Store, body: Option<string>, parse: string -> Parsed, freshId: string, writeFails: bool)
    requires Paired(s)
    ensures Paired(Create(s, body, parse, freshId, writeFails).store)
  {
    if Readable(body, parse) && HasRequiredFields(parse(body.value).value) && !writeFails {
      PutPairKeepsPaired(s, freshId, NewProductRow(freshId, parse(body.value).value), NewStockRow(freshId, parse(body.value).value));
    }
  }

  /**
   * The 201 body holds every submitted field unchanged, and the generated id
   * unless the body itself has an `id` field, which then overrides it: the
   * id in the response is not necessarily the id the rows are stored under.
   */
  lemma EchoKeepsSubmittedFields(s: Store, body: Option<string>, parse: string -> Parsed, freshId: string)
    requires Readable(body, parse) && HasRequiredFields(parse(body.value).value)
    ensures var v := parse(body.value).value;
      var r := Create(s, body, parse, freshId, false).response.body;
      && v.Obj? && r.Obj?
      && r.fields.Keys == v.fields.Keys + {"id"}
      && (forall k :: k in v.fields ==> r.fields[k] == v.fields[k])
      && ("id" !in v.fields ==> r.fields["id"] == Str(freshId))
      && ("id" in v.fields ==> r.fields["id"] == v.fields["id"])
  {
    RequiredFieldsOnlyOnObjects(parse(body.value).value);
  }

  /** The handler as it runs against the live tables. */
  method Handler(db: Backend, body: Option<string>, parse: string -> Parsed, freshId: string, writeFails: bool)
    returns (response: Response)
    modifies db
    ensures Outcome(db.State(), response) == Create(old(db.State()), body, parse, freshId, writeFails)
  {
    if body.None? || body.value == "" {
      return Response(400, Cors, MessageBody(BodyRequired));
    }
    var parsed := parse(body.value);
    if parsed.Malformed? {
      return ServerError;
    }
    var productData := parsed.value;
    if ReadThrows(productData) {
      return ServerError;
    }
    if !HasRequiredFields(productData) {
      return Response(400, Cors, MessageBody(FieldsRequired));
    }
    if writeFails {
      return ServerError;
    }
    RequiredFieldsOnlyOnObjects(productData);
    db.products := db.products[freshId := NewProductRow(freshId, productData)];
    db.stocks := db.stocks[freshId := NewStockRow(freshId, productData)];
    response := Response(201, Cors, Echo(freshId, productData));
  }
}
