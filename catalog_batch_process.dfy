/**
 * The queue consumer that commits a batch of product messages: each message
 * body is parsed and validated, then written as a product row and a stock row
 * (two separate puts, not a transaction) and announced on the topic. The
 * first failure of any kind stops the batch, is reported once on the topic
 * and is rethrown; what was committed before it stays committed.
 */
module CatalogBatchProcess {
  import opened Wrappers
  import opened Json
  import opened Text
  import opened ProductStore

  /** The foreign functions the handler relies on. */
  datatype Runtime = Runtime(
    parse: string -> Parsed,           // JSON.parse
    coerce: Coercion,                  // Number(...) of strings, arrays and objects
    stringify: Value -> string)        // JSON.stringify

  /** The SDK calls that can fail; the index is the record's place in the batch. */
  datatype SdkCall = PutProduct(index: nat) | PutStock(index: nat) | PublishCreated(index: nat) | PublishError

  /** What the handler throws. */
  datatype BatchError =
    | SyntaxError(message: string)                 // JSON.parse rejected the body
    | TypeError(message: string)                   // validation threw: a read of `null` or a failed conversion
    | InvalidProduct(data: Value)                  // the schema check failed
    | ServiceError(call: SdkCall, message: string) // a DynamoDB or SNS call rejected

  datatype Outcome = Resolved | Rejected(error: BatchError)

  /** The state and the per-record error after processing some records. */
  datatype Progress = Progress(store: Store, error: Option<BatchError>)

  /** The state and the outcome after the whole invocation. */
  datatype Completion = Completion(store: Store, outcome: Outcome)

  const InvalidPrefix: string := "Invalid product data: "
  const FailureMessage: string := "Error occurred while creating products"
  const CreatedPrefix: string := "Successfully created product: "

  /** `error.message` of what the handler throws. */
  function ErrorMessage(e: BatchError, stringify: Value -> string): (m: string)
    ensures e.InvalidProduct? ==> StartsWith(m, "Invalid product data")
  {
    match e
    case SyntaxError(message) => message
    case TypeError(message) => message
    case InvalidProduct(data) => InvalidPrefix + stringify(data)
    case ServiceError(_, message) => message
  }

  /** What the validation gives: it holds, it fails, or it throws a TypeError. */
  datatype Check = Passes | Fails | Threw(message: string)

  /** The TypeError of reading `id` from `null`, whose `typeof` is "object". */
  const NullReadMessage: string := "Cannot read properties of null (reading 'id')"

  /**
   * `Number(v)` compared with zero: it must be above zero, or at least zero
   * when `orZero` holds. NaN fails the comparison; a conversion that throws
   * makes the whole validation throw.
   */
  function NumberCheck(v: Value, coerce: Coercion, orZero: bool): Check {
    match ToNumber(v, coerce)
    case Throws(m) => Threw(m)
    case NaN => Fails
    case Number(n) => if n > 0.0 || (orZero && n == 0.0) then Passes else Fails
  }

  /** The id, the title and the description are non-empty strings. */
  predicate HasNonEmptyText(v: Value)
    requires !ReadThrows(v)
  {
    && Field(v, "id").Str? && |Field(v, "id").s| > 0
    && Field(v, "title").Str? && |Field(v, "title").s| > 0
    && Field(v, "description").Str? && |Field(v, "description").s| > 0
  }

  /**
   * `isValidProduct`, evaluated left to right with short-circuiting: the
   * value must have `typeof` "object" (so `null` reaches the first property
   * read and throws), non-empty string id, title and description, a price
   * that converts to a number above zero and a count that converts to a
   * number that is not negative. The price is converted only when the text
   * checks pass, and the count only when the price check passes.
   */
  function Validate(v: Value, coerce: Coercion): Check {
    if TypeOf(v) != "object" then Fails
    else if v.Null? then Threw(NullReadMessage)
    else if !HasNonEmptyText(v) then Fails
    else
      match NumberCheck(Field(v, "price"), coerce, false)
      case Passes => NumberCheck(Field(v, "count"), coerce, true)
      case other => other
  }

  /** `isValidProduct` answered true. */
  predicate IsValidProduct(v: Value, coerce: Coercion) {
    Validate(v, coerce).Passes?
  }

  /** The fields the rows are built from are strings. */
  predicate HasTextFields(v: Value) {
    v.Obj? && Field(v, "id").Str? && Field(v, "title").Str? && Field(v, "description").Str?
  }

  lemma ValidHasTextFields(v: Value, coerce: Coercion)
    requires IsValidProduct(v, coerce)
    ensures HasTextFields(v)
  {
  }

  /**
   * The validation holds exactly for an object with non-empty string id,
   * title and description whose price converts to a number above zero and
   * whose count converts to a number at least zero. It throws exactly for
   * `null`, and for such an object whose price conversion throws, or whose
   * price passes and whose count conversion throws.
   */
  lemma ValidateSpec(v: Value, coerce: Coercion)
    ensures IsValidProduct(v, coerce) <==>
      && v.Obj? && HasNonEmptyText(v)
      && ToNumber(Field(v, "price"), coerce).Number? && ToNumber(Field(v, "price"), coerce).n > 0.0
      && ToNumber(Field(v, "count"), coerce).Number? && ToNumber(Field(v, "count"), coerce).n >= 0.0
    ensures Validate(v, coerce).Threw? <==>
      || v.Null?
      || (&& v.Obj? && HasNonEmptyText(v)
          && var price := ToNumber(Field(v, "price"), coerce);
             || price.Throws?
             || (price.Number? && price.n > 0.0 && ToNumber(Field(v, "count"), coerce).Throws?))
  {
  }

  function IdOf(v: Value): string
    requires HasTextFields(v)
  {
    Field(v, "id").s
  }

  /** The products-table row: the title and description trimmed, the price as sent. */
  function ProductRow(v: Value): Item
    requires HasTextFields(v)
  {
    ProductItem(IdOf(v), Str(Trim(Field(v, "title").s)), Str(Trim(Field(v, "description").s)), Field(v, "price"))
  }

  /** The stocks-table row: the count as sent. */
  function StockRow(v: Value): Item
    requires HasTextFields(v)
  {
    StockItem(IdOf(v), Field(v, "count"))
  }

  /** The "New Product Created" message, whose price attribute is the row's price. */
  function CreatedNotice(v: Value): Notification
    requires HasTextFields(v)
  {
    Created(CreatedPrefix + Trim(Field(v, "title").s), ProductRow(v), Field(v, "price"))
  }

  /** The record parses to a valid product. */
  predicate Acceptable(body: string, rt: Runtime) {
    var parsed := rt.parse(body);
    parsed.Json? && IsValidProduct(parsed.value, rt.coerce)
  }

  /** None of the three calls for the record at `k` fails. */
  predicate Unhindered(k: nat, failing: map<SdkCall, string>) {
    PutProduct(k) !in failing && PutStock(k) !in failing && PublishCreated(k) !in failing
  }

  /**
   * What the loop body does with the record at index `k`, decided before any
   * table is touched: the product row and the stock row it writes under its
   * id, the message it publishes, and the error that ends it. The calls run
   * in the order put product, put stock, publish, and the first rejected call
   * ends the record, so a later write happens only when the earlier ones did.
   */
  datatype Effect = Effect(id: string, product: Option<Item>, stock: Option<Item>, notice: Option<Notification>, error: Option<BatchError>)

  /** An effect that writes nothing and ends with `e`. */
  function Halted(e: BatchError): Effect {
    Effect("", None, None, None, Some(e))
  }

  function RecordEffect(body: string, k: nat, rt: Runtime, failing: map<SdkCall, string>): Effect {
    match rt.parse(body)
    case Malformed(m) => Halted(SyntaxError(m))
    case Json(v) =>
      match Validate(v, rt.coerce)
      case Threw(m) => Halted(TypeError(m))
      case Fails => Halted(InvalidProduct(v))
      case Passes =>
        var id := IdOf(v);
        if PutProduct(k) in failing then
          Effect(id, None, None, None, Some(ServiceError(PutProduct(k), failing[PutProduct(k)])))
        else if PutStock(k) in failing then
          Effect(id, Some(ProductRow(v)), None, None, Some(ServiceError(PutStock(k), failing[PutStock(k)])))
        else if PublishCreated(k) in failing then
          Effect(id, Some(ProductRow(v)), Some(StockRow(v)), None, Some(ServiceError(PublishCreated(k), failing[PublishCreated(k)])))
        else
          Effect(id, Some(ProductRow(v)), Some(StockRow(v)), Some(CreatedNotice(v)), None)
  }

  /** A `put` of `row` under `id`, when there is a row to put. */
  function Put(table: map<string, Item>, id: string, row: Option<Item>): map<string, Item> {
    if row.Some? then table[id := row.value] else table
  }

  /** The tables and the topic after an effect. */
  function Apply(s: Store, e: Effect): Store {
    Store(Put(s.products, e.id, e.product), Put(s.stocks, e.id, e.stock),
          if e.notice.Some? then s.published + [e.notice.value] else s.published)
  }

  /**
   * A record commits exactly when it parses to a valid product and none of
   * its three calls fails; it then writes its product row (title and
   * description trimmed) and its stock row under its id and publishes one
   * "New Product Created" message. A record that does not parse or validate
   * writes nothing; a record that fails later publishes nothing, and writes
   * its stock row only if its product row was written.
   */
  lemma RecordEffectSpec(body: string, k: nat, rt: Runtime, failing: map<SdkCall, string>)
    ensures var e := RecordEffect(body, k, rt, failing);
      && (e.error.None? <==> Acceptable(body, rt) && Unhindered(k, failing))
      && (e.error.None? ==>
            var v := rt.parse(body).value;
            e == Effect(IdOf(v), Some(ProductRow(v)), Some(StockRow(v)), Some(CreatedNotice(v)), None))
      && (!Acceptable(body, rt) ==> e.product.None? && e.stock.None? && e.notice.None?)
      && (Acceptable(body, rt) ==> e.id == IdOf(rt.parse(body).value))
      && (e.error.Some? ==> e.notice.None?)
      && (e.stock.Some? ==> e.product.Some?)
  {
  }

  /** The effects of the records of a batch, the record at index `j` being the `j`th. */
  function Effects(bodies: seq<string>, rt: Runtime, failing: map<SdkCall, string>): (es: seq<Effect>)
    ensures |es| == |bodies|
    ensures forall j :: 0 <= j < |bodies| ==> es[j] == RecordEffect(bodies[j], j, rt, failing)
  {
    seq(|bodies|, j requires 0 <= j < |bodies| => RecordEffect(bodies[j], j, rt, failing))
  }

  /** The effects of a prefix of the batch are a prefix of its effects. */
  lemma EffectsPrefix(bodies: seq<string>, i: nat, rt: Runtime, failing: map<SdkCall, string>)
    requires i <= |bodies|
    ensures Effects(bodies[..i], rt, failing) == Effects(bodies, rt, failing)[..i]
  {
  }

  /** One pass of the loop body: apply a record's effect and report its error. */
  function Step(s: Store, e: Effect): Progress {
    Progress(Apply(s, e), e.error)
  }

  /** The loop over the records' effects, stopping at the first error. */
  function Run(s: Store, es: seq<Effect>): Progress
    decreases |es|
  {
    if es == [] then Progress(s, None)
    else
      var p := Step(s, es[0]);
      if p.error.Some? then p else Run(p.store, es[1..])
  }

  /**
   * The whole invocation: the loop, then, on an error, the catch block that
   * publishes the failure message and rethrows.
   */
  function HandleBatch(s: Store, bodies: seq<string>, rt: Runtime, failing: map<SdkCall, string>): Completion
  {
    Finish(Run(s, Effects(bodies, rt, failing)), rt, failing)
  }

  /** What the handler completes with once the loop has ended in `p`. */
  function Finish(p: Progress, rt: Runtime, failing: map<SdkCall, string>): Completion
  {
    match p.error
    case None => Completion(p.store, Resolved)
    case Some(e) =>
      if PublishError in failing then
        Completion(p.store, Rejected(ServiceError(PublishError, failing[PublishError])))
      else
        Completion(p.store.(published := p.store.published + [Failed(FailureMessage, ErrorMessage(e, rt.stringify))]), Rejected(e))
  }

  /**
   * The catch block neither writes nor undoes rows. An error is reported by
   * exactly one "Error Creating Products" message carrying its message, and
   * the same error is rethrown; when that publish fails, nothing is published
   * and the publish error is thrown instead. A batch without error publishes
   * nothing extra.
   */
  lemma HandleBatchEffect(s: Store, bodies: seq<string>, rt: Runtime, failing: map<SdkCall, string>)
    ensures var p := Run(s, Effects(bodies, rt, failing));
      var c := HandleBatch(s, bodies, rt, failing);
      && c.store.products == p.store.products
      && c.store.stocks == p.store.stocks
      && (c.outcome.Resolved? <==> p.error.None?)
      && (p.error.None? ==> c.store.published == p.store.published)
      && (p.error.Some? && PublishError !in failing ==>
            && c.store.published == p.store.published + [Failed(FailureMessage, ErrorMessage(p.error.value, rt.stringify))]
            && c.store.published[|p.store.published|].Subject() == "Error Creating Products"
            && c.outcome == Rejected(p.error.value))
      && (p.error.Some? && PublishError in failing ==>
            && c.store.published == p.store.published
            && c.outcome == Rejected(ServiceError(PublishError, failing[PublishError])))
  {
  }

  /** Running two stretches of records is running the first, then the second if the first did not fail. */
  lemma {:induction false} RunAppend(s: Store, a: seq<Effect>, b: seq<Effect>)
    ensures var p := Run(s, a);
      Run(s, a + b) == if p.error.Some? then p else Run(p.store, b)
    decreases |a|
  {
    if a == [] {
      assert a + b == b;
    } else {
      assert (a + b)[0] == a[0];
      assert (a + b)[1..] == a[1..] + b;
      var p := Step(s, a[0]);
      if p.error.None? {
        RunAppend(p.store, a[1..], b);
      }
    }
  }

  /** One more record extends the run by one step, unless the run has already failed. */
  lemma RunExtend(s: Store, es: seq<Effect>, i: nat)
    requires i < |es|
    ensures var p := Run(s, es[..i]);
      Run(s, es[..i + 1]) == if p.error.Some? then p else Step(p.store, es[i])
  {
    RunAppend(s, es[..i], [es[i]]);
    assert es[..i] + [es[i]] == es[..i + 1];
  }

  /** Once a prefix of the records has failed, the rest of them are never run. */
  lemma RunDecided(s: Store, es: seq<Effect>, i: nat)
    requires i <= |es| && Run(s, es[..i]).error.Some?
    ensures Run(s, es) == Run(s, es[..i])
  {
    RunAppend(s, es[..i], es[i..]);
    assert es[..i] + es[i..] == es;
  }

  /** The run ends at the first record whose effect has an error, with that error. */
  lemma {:induction false} RunStopsAtFirstError(s: Store, es: seq<Effect>, i: nat)
    requires i < |es| && es[i].error.Some?
    requires forall j :: 0 <= j < i ==> es[j].error.None?
    ensures Run(s, es) == Step(Run(s, es[..i]).store, es[i])
    decreases i
  {
    if i == 0 {
      assert es[..0] == [];
    } else {
      assert es[1..][..i - 1] == es[..i][1..];
      RunStopsAtFirstError(Apply(s, es[0]), es[1..], i - 1);
    }
  }

  /** Whether the run fails, and with which error, does not depend on the tables. */
  lemma {:induction false} RunErrorIgnoresStore(s: Store, t: Store, es: seq<Effect>)
    ensures Run(s, es).error == Run(t, es).error
    decreases |es|
  {
    if es != [] && es[0].error.None? {
      RunErrorIgnoresStore(Apply(s, es[0]), Apply(t, es[0]), es[1..]);
    }
  }

  /** The run fails exactly when some record's effect has an error. */
  lemma {:induction false} RunFailsIffSomeError(s: Store, es: seq<Effect>)
    ensures Run(s, es).error.None? <==> forall j :: 0 <= j < |es| ==> es[j].error.None?
    decreases |es|
  {
    if es != [] {
      RunFailsIffSomeError(Apply(s, es[0]), es[1..]);
      if es[0].error.None? {
        assert forall j :: 1 <= j < |es| ==> es[j] == es[1..][j - 1];
      }
    }
  }

  /**
   * The first record that fails validation ends the batch with an
   * "Invalid product data" error; the state is the one the records before it
   * left, and the records after it are not touched.
   */
  lemma FirstInvalidAborts(s: Store, bodies: seq<string>, i: nat, rt: Runtime, failing: map<SdkCall, string>)
    requires i < |bodies|
    requires forall j :: 0 <= j < i ==> Acceptable(bodies[j], rt) && Unhindered(j, failing)
    requires rt.parse(bodies[i]).Json? && Validate(rt.parse(bodies[i]).value, rt.coerce).Fails?
    ensures var v := rt.parse(bodies[i]).value;
      var es := Effects(bodies, rt, failing);
      Run(s, es) == Progress(Run(s, es[..i]).store, Some(InvalidProduct(v)))
    ensures var e := Run(s, Effects(bodies, rt, failing)).error.value;
      StartsWith(ErrorMessage(e, rt.stringify), "Invalid product data")
  {
    var es := Effects(bodies, rt, failing);
    forall j | 0 <= j < i ensures es[j].error.None? {
      RecordEffectSpec(bodies[j], j, rt, failing);
    }
    RunStopsAtFirstError(s, es, i);
  }

  /**
   * The first record whose validation throws (a `null` body, or a price or
   * count whose conversion to a number throws) ends the batch with that
   * TypeError, before it writes anything; the failure notification carries
   * the TypeError's message.
   */
  lemma FirstThrowAborts(s: Store, bodies: seq<string>, i: nat, rt: Runtime, failing: map<SdkCall, string>)
    requires i < |bodies|
    requires forall j :: 0 <= j < i ==> Acceptable(bodies[j], rt) && Unhindered(j, failing)
    requires rt.parse(bodies[i]).Json? && Validate(rt.parse(bodies[i]).value, rt.coerce).Threw?
    requires PublishError !in failing
    ensures var m := Validate(rt.parse(bodies[i]).value, rt.coerce).message;
      var t := Run(s, Effects(bodies, rt, failing)[..i]).store;
      var c := HandleBatch(s, bodies, rt, failing);
      && c.outcome == Rejected(TypeError(m))
      && c.store == t.(published := t.published + [Failed(FailureMessage, m)])
  {
    var es := Effects(bodies, rt, failing);
    forall j | 0 <= j < i ensures es[j].error.None? {
      RecordEffectSpec(bodies[j], j, rt, failing);
    }
    RunStopsAtFirstError(s, es, i);
    HandleBatchEffect(s, bodies, rt, failing);
  }

  /** The loop only ever adds rows (or replaces them) and appends to the topic. */
  lemma {:induction false} RunKeepsRows(s: Store, es: seq<Effect>)
    ensures var t := Run(s, es).store;
      && s.products.Keys <= t.products.Keys
      && s.stocks.Keys <= t.stocks.Keys
      && s.published <= t.published
    decreases |es|
  {
    if es != [] && es[0].error.None? {
      RunKeepsRows(Apply(s, es[0]), es[1..]);
    }
  }

  /**
   * No rollback: whatever the records before index `i` committed is still in
   * both tables, and their notifications are still published, after the
   * invocation ends, whether it fails or not.
   */
  lemma NoRollback(s: Store, bodies: seq<string>, i: nat, rt: Runtime, failing: map<SdkCall, string>)
    requires i <= |bodies|
    requires Run(s, Effects(bodies[..i], rt, failing)).error.None?
    ensures var t := Run(s, Effects(bodies[..i], rt, failing)).store;
      var c := HandleBatch(s, bodies, rt, failing);
      && t.products.Keys <= c.store.products.Keys
      && t.stocks.Keys <= c.store.stocks.Keys
      && t.published <= c.store.published
  {
    var es := Effects(bodies, rt, failing);
    EffectsPrefix(bodies, i, rt, failing);
    var t := Run(s, es[..i]).store;
    assert es == es[..i] + es[i..];
    RunAppend(s, es[..i], es[i..]);
    RunKeepsRows(t, es[i..]);
    HandleBatchEffect(s, bodies, rt, failing);
  }

  /**
   * The two puts are not a transaction: when the stock put of a valid record
   * fails, its product row is written; if no stock row was stored under its
   * id before, the product row is then visible without a stock row.
   */
  lemma StockFailureLeavesOrphan(s: Store, body: string, k: nat, rt: Runtime, failing: map<SdkCall, string>)
    requires Acceptable(body, rt)
    requires PutProduct(k) !in failing && PutStock(k) in failing
    ensures var v := rt.parse(body).value;
      var p := Step(s, RecordEffect(body, k, rt, failing));
      && p.error == Some(ServiceError(PutStock(k), failing[PutStock(k)]))
      && p.store.products[IdOf(v)] == ProductRow(v)
      && (IdOf(v) !in s.stocks ==> !Paired(p.store))
  {
  }

  /**
   * Otherwise a record keeps the tables paired: when it is invalid, when its
   * product put fails, or when its stock put succeeds, every product row
   * still has its stock row.
   */
  lemma RecordKeepsPaired(s: Store, body: string, k: nat, rt: Runtime, failing: map<SdkCall, string>)
    requires Paired(s)
    requires !Acceptable(body, rt) || PutProduct(k) in failing || PutStock(k) !in failing
    ensures Paired(Apply(s, RecordEffect(body, k, rt, failing)))
  {
    RecordEffectSpec(body, k, rt, failing);
    if Acceptable(body, rt) && PutProduct(k) !in failing {
      var v := rt.parse(body).value;
      PutPairKeepsPaired(s, IdOf(v), ProductRow(v), StockRow(v));
    }
  }

  /**
   * A run without failures leaves each committed record's notification in
   * order: one "New Product Created" message per record, carrying that
   * record's product row and price.
   */
  lemma {:induction false} RunPublishesInOrder(s: Store, es: seq<Effect>)
    requires Run(s, es).error.None?
    requires forall j :: 0 <= j < |es| ==> es[j].notice.Some?
    ensures var t := Run(s, es).store;
      && |t.published| == |s.published| + |es|
      && t.published[..|s.published|] == s.published
      && forall j :: 0 <= j < |es| ==> t.published[|s.published| + j] == es[j].notice.value
    decreases |es|
  {
    if es != [] {
      var u := Apply(s, es[0]);
      assert es[0].error.None? && Run(s, es) == Run(u, es[1..]);
      RunPublishesInOrder(u, es[1..]);
      var t := Run(u, es[1..]).store;
      assert u.published == s.published + [es[0].notice.value];
      forall j | 0 <= j < |es|
        ensures t.published[|s.published| + j] == es[j].notice.value
      {
        if j == 0 {
          assert t.published[..|u.published|][|s.published|] == u.published[|s.published|];
        } else {
          assert es[j] == es[1..][j - 1];
          assert |s.published| + j == |u.published| + (j - 1);
        }
      }
    }
  }

  /**
   * A batch without failures publishes exactly one "New Product Created"
   * message per record, in order, each carrying that record's product row and
   * price; every record was a valid product.
   */
  lemma OneNoticePerRecord(s: Store, bodies: seq<string>, rt: Runtime, failing: map<SdkCall, string>)
    requires HandleBatch(s, bodies, rt, failing).outcome.Resolved?
    ensures var t := HandleBatch(s, bodies, rt, failing).store;
      && |t.published| == |s.published| + |bodies|
      && t.published[..|s.published|] == s.published
      && forall j :: 0 <= j < |bodies| ==>
           && Acceptable(bodies[j], rt)
           && HasTextFields(rt.parse(bodies[j]).value)
           && t.published[|s.published| + j] == CreatedNotice(rt.parse(bodies[j]).value)
           && t.published[|s.published| + j].Subject() == "New Product Created"
  {
    var es := Effects(bodies, rt, failing);
    HandleBatchEffect(s, bodies, rt, failing);
    RunFailsIffSomeError(s, es);
    forall j | 0 <= j < |bodies|
      ensures Acceptable(bodies[j], rt) && HasTextFields(rt.parse(bodies[j]).value)
      ensures es[j].notice == Some(CreatedNotice(rt.parse(bodies[j]).value))
    {
      RecordEffectSpec(bodies[j], j, rt, failing);
    }
    RunPublishesInOrder(s, es);
  }

  /** A put overlays the table with the one row it writes. */
  lemma PutOverlays(table: map<string, Item>, id: string, row: Option<Item>)
    ensures Put(table, id, row) == table + Put(map[], id, row)
  {
  }

  /** Map union is associative (kept apart to keep the induction below small). */
  lemma UnionAssociates(a: map<string, Item>, b: map<string, Item>, c: map<string, Item>)
    ensures a + b + c == a + (b + c)
  {
  }

  /**
   * A run overlays the rows it writes on the existing tables: the result is
   * the old tables updated with what the same records write into empty
   * tables.
   */
  lemma {:induction false} RunOverlays(s: Store, e: Store, es: seq<Effect>)
    requires e.products == map[] && e.stocks == map[]
    ensures var w := Run(e, es).store;
      var t := Run(s, es).store;
      && t.products == s.products + w.products
      && t.stocks == s.stocks + w.stocks
    decreases |es|
  {
    if es == [] {
      assert s.products + map[] == s.products;
      assert s.stocks + map[] == s.stocks;
    } else {
      var f := es[0];
      PutOverlays(s.products, f.id, f.product);
      PutOverlays(s.stocks, f.id, f.stock);
      PutOverlays(e.products, f.id, f.product);
      PutOverlays(e.stocks, f.id, f.stock);
      if f.error.None? {
        var rest := es[1..];
        var u := Apply(s, f);
        var v := Apply(e, f);
        assert Run(s, es) == Run(u, rest);
        assert Run(e, es) == Run(v, rest);
        RunOverlays(u, e, rest);
        RunOverlays(v, e, rest);
        var w := Run(e, rest).store;
        UnionAssociates(s.products, v.products, w.products);
        UnionAssociates(s.stocks, v.stocks, w.stocks);
      } else {
        assert Run(s, es).store == Apply(s, f);
        assert Run(e, es).store == Apply(e, f);
      }
    }
  }

  /** Running the same records again after a run without failures changes no row. */
  lemma RunTwiceSameRows(s: Store, es: seq<Effect>)
    requires Run(s, es).error.None?
    ensures var t := Run(s, es).store;
      && Run(t, es).error.None?
      && Run(t, es).store.products == t.products
      && Run(t, es).store.stocks == t.stocks
  {
    var e := Store(map[], map[], []);
    var t := Run(s, es).store;
    RunErrorIgnoresStore(s, t, es);
    RunOverlays(s, e, es);
    RunOverlays(t, e, es);
    var w := Run(e, es).store;
    assert s.products + w.products + w.products == s.products + w.products;
    assert s.stocks + w.stocks + w.stocks == s.stocks + w.stocks;
  }

  /**
   * At-least-once delivery is safe for the tables: redelivering a batch that
   * was committed without failures leaves both tables exactly as the first
   * delivery left them (only the topic gets a second round of messages).
   */
  lemma RedeliveryIdempotent(s: Store, bodies: seq<string>, rt: Runtime)
    requires HandleBatch(s, bodies, rt, map[]).outcome.Resolved?
    ensures var once := HandleBatch(s, bodies, rt, map[]);
      var twice := HandleBatch(once.store, bodies, rt, map[]);
      && twice.outcome.Resolved?
      && twice.store.products == once.store.products
      && twice.store.stocks == once.store.stocks
  {
    var es := Effects(bodies, rt, map[]);
    HandleBatchEffect(s, bodies, rt, map[]);
    HandleBatchEffect(Run(s, es).store, bodies, rt, map[]);
    RunTwiceSameRows(s, es);
  }

  /**
   * Validation looks at the untrimmed strings: a title of white space only
   * passes and is stored as the empty string.
   */
  lemma BlankTitleStoredEmpty(s: Store, body: string, k: nat, rt: Runtime, failing: map<SdkCall, string>)
    requires Acceptable(body, rt) && PutProduct(k) !in failing
    requires AllSpace(Field(rt.parse(body).value, "title").s)
    ensures var v := rt.parse(body).value;
      var p := Step(s, RecordEffect(body, k, rt, failing));
      p.store.products[IdOf(v)]["title"] == Str("")
  {
    var title := Field(rt.parse(body).value, "title").s;
    assert title == title + [] + [];
    TrimUnique(title, [], []);
  }

  /** Loop body: one record, as the handler processes it. */
  method CommitRecord(db: Backend, body: string, k: nat, rt: Runtime, failing: map<SdkCall, string>)
    returns (error: Option<BatchError>)
    modifies db
    ensures Progress(db.State(), error) == Step(old(db.State()), RecordEffect(body, k, rt, failing))
  {
    var parsed := rt.parse(body);
    if parsed.Malformed? {
      return Some(SyntaxError(parsed.message));
    }
    var data := parsed.value;
    var check := Validate(data, rt.coerce);
    if check.Threw? {
      return Some(TypeError(check.message));
    }
    if check.Fails? {
      return Some(InvalidProduct(data));
    }
    ValidHasTextFields(data, rt.coerce);
    var id := IdOf(data);
    if PutProduct(k) in failing {
      return Some(ServiceError(PutProduct(k), failing[PutProduct(k)]));
    }
    db.products := db.products[id := ProductRow(data)];
    if PutStock(k) in failing {
      return Some(ServiceError(PutStock(k), failing[PutStock(k)]));
    }
    db.stocks := db.stocks[id := StockRow(data)];
    if PublishCreated(k) in failing {
      return Some(ServiceError(PublishCreated(k), failing[PublishCreated(k)]));
    }
    db.published := db.published + [CreatedNotice(data)];
    error := None;
  }

  /** The catch block: report the error once on the topic, then rethrow it. */
  method ReportFailure(db: Backend, e: BatchError, rt: Runtime, failing: map<SdkCall, string>)
    returns (outcome: Outcome)
    modifies db
    ensures Completion(db.State(), outcome) == Finish(Progress(old(db.State()), Some(e)), rt, failing)
  {
    if PublishError in failing {
      return Rejected(ServiceError(PublishError, failing[PublishError]));
    }
    db.published := db.published + [Failed(FailureMessage, ErrorMessage(e, rt.stringify))];
    outcome := Rejected(e);
  }

  /** The handler: the records in order, stopping at the first error. */
  method Handler(db: Backend, bodies: seq<string>, rt: Runtime, failing: map<SdkCall, string>)
    returns (outcome: Outcome)
    modifies db
    ensures Completion(db.State(), outcome) == HandleBatch(old(db.State()), bodies, rt, failing)
  {
    ghost var s0 := db.State();
    ghost var es := Effects(bodies, rt, failing);
    var i := 0;
    while i < |bodies|
      invariant 0 <= i <= |bodies|
      invariant Run(s0, es[..i]) == Progress(db.State(), None)
    {
      var error := CommitRecord(db, bodies[i], i, rt, failing);
      RunExtend(s0, es, i);
      if error.Some? {
        RunDecided(s0, es, i + 1);
        outcome := ReportFailure(db, error.value, rt, failing);
        return;
      }
      i := i + 1;
    }
    assert es[..i] == es;
    outcome := Resolved;
  }
}
