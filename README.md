# Product shop back end — a Dafny model of its Lambda handlers

This project models the request and message handlers of a small product shop
built on AWS Lambda, and proves properties about them:

- **catalogBatchProcess** is the queue consumer. It commits a batch of product
  messages one record at a time. Each record is parsed, validated, written as
  a product row and a stock row by two separate puts, and announced on the
  topic. The first failure stops the batch, is reported once on the topic, and
  is rethrown; when that report itself fails, nothing is published and the
  publish error is thrown instead. Nothing that was already written is undone.
- **createProduct** checks a request body. It writes the product row and the
  stock row in one transaction under a generated id, and echoes the id and the
  submitted fields.
- **getProductsList** joins the products scan with the stocks scan on
  `product_id === id`. The count defaults to 0.
- **getProductById** reads the product row, then the stock row under the same
  key, and answers 400, 404, 200 or 500.
- **importProductsFile** checks the requested file name. It presigns an upload
  URL for `uploaded/<name>` and writes an empty placeholder object at that key.
- **basicAuthorizer** parses an HTTP `Basic` token, checks the password against
  the environment, and returns an Allow or Deny policy.

JavaScript values are modelled as `Json.Value`. A table row is a map from
attribute names to values. The request-time pieces are parameters of the model:

- `JSON.parse` and `JSON.stringify`;
- `Number()` on strings and objects;
- the base64 decoder;
- the UUID;
- the presigner;
- the outcome of each SDK call.

Handlers that change state are methods:

- over a `Backend` object that holds the two tables and the topic;
- over a `Bucket` object that holds the upload bucket.

Each such method is proved equal to a specification function. The lemmas state
the handler's promises about that function.

The files are:

- `wrappers.dfy`: `Option`.
- `json.dfy`: values, property reads, `typeof`, truthiness, `||`, `===` and
  `Number()`.
- `text.dfy`: `trim`, `toLowerCase`, `startsWith`, `endsWith` and `split`.
- `http.dfy`: responses and the CORS headers.
- `product_store.dfy`: the tables, the topic and the `Backend` class.
- One file per handler.

## Model

| member | source | states |
|---|---|---|
| Json.Field | product-service/lambda/catalogBatchProcess.ts:23-25 | reading one of the data properties the handlers use (`id`, `title`, `description`, `price`, `count`, `product_id`) gives `undefined` on anything but an object, and on an object that lacks it |
| Json.TypeOf | product-service/lambda/catalogBatchProcess.ts:23 | `typeof`, with `null` and arrays giving "object" |
| Json.Truthy | product-service/lambda/createProduct.ts:34 | JavaScript truthiness: `undefined`, `null`, `false`, 0 and "" are falsy, everything else truthy |
| Json.StrictEquals | product-service/lambda/getProductsList.ts:34 | `===`: equal primitives of the same type; separately parsed arrays and objects are never equal |
| Json.Or | product-service/lambda/getProductsList.ts:34 | `a \|\| b` is `a` when `a` is truthy and `b` otherwise |
| Json.ToNumber | product-service/lambda/catalogBatchProcess.ts:26-27 | `Number()` of a number is that number, of `undefined` NaN, of `null` 0, of a string NaN exactly when the string does not parse; only an array or an object can make it throw |
| Text.Trim | product-service/lambda/catalogBatchProcess.ts:47-48 | `trim` of a string, characterised by `Text.TrimShape`, `Text.TrimUnique` and `Text.TrimIdempotent` |
| Text.TrimStartShape | product-service/lambda/catalogBatchProcess.ts:47-48 | `trimStart` removes a prefix made only of white space and leaves a string that does not start with white space |
| Text.TrimEndShape | product-service/lambda/catalogBatchProcess.ts:47-48 | `trimEnd` removes a suffix made only of white space and leaves a string that does not end with white space |
| Text.TrimShape | product-service/lambda/catalogBatchProcess.ts:47-48 | the input is white space, then the trimmed string, then white space; the trimmed string neither starts nor ends with white space |
| Text.TrimUnique | product-service/lambda/catalogBatchProcess.ts:47-48 | any white-space/core/white-space decomposition whose core has no white space at either end trims to that core |
| Text.TrimIdempotent | product-service/lambda/catalogBatchProcess.ts:47-48 | trimming a trimmed string changes nothing |
| Text.ToLower | import-service/lambda/importProductsFile.ts:25 | `toLowerCase` keeps the length and lowers each character by itself |
| Text.StartsWith | authorization-service/lambda/basicAuthorizer.ts:16 | `startsWith`: the string begins with the prefix |
| Text.EndsWith | import-service/lambda/importProductsFile.ts:25 | `endsWith`: the string ends with the suffix |
| Text.Split | authorization-service/lambda/basicAuthorizer.ts:25 | `split` on one character gives at least one piece; no piece holds the separator; there are two or more pieces exactly when the separator occurs |
| Text.SplitJoin | authorization-service/lambda/basicAuthorizer.ts:25 | joining the pieces with the separator gives back the string |
| Text.SplitUnique | authorization-service/lambda/basicAuthorizer.ts:25 | separator-free pieces joined with the separator split back into exactly those pieces |
| Text.SplitNoSep | authorization-service/lambda/basicAuthorizer.ts:21 | a string without the separator is a single piece |
| Text.SplitCons | authorization-service/lambda/basicAuthorizer.ts:21 | the first piece ends at the first separator, and the rest is split on its own |
| ProductStore.PutPairKeepsPaired | product-service/lambda/createProduct.ts:51-74 | writing a product row and a stock row under the same id keeps every product paired with its stock row, each under its own key |
| CatalogBatchProcess.NumberCheck | product-service/lambda/catalogBatchProcess.ts:26-27 | the comparison of `Number()` with zero: NaN fails it, and a conversion that throws makes it throw |
| CatalogBatchProcess.Validate | product-service/lambda/catalogBatchProcess.ts:21-29 | `isValidProduct` with its left-to-right short-circuiting: it passes, fails, or throws a TypeError (reading `id` of `null`, or converting the price or count); characterised by `CatalogBatchProcess.ValidateSpec` |
| CatalogBatchProcess.IsValidProduct | product-service/lambda/catalogBatchProcess.ts:21-29 | `isValidProduct` answers true |
| CatalogBatchProcess.ValidateSpec | product-service/lambda/catalogBatchProcess.ts:21-29 | validation passes exactly for an object with non-empty string id, title and description, a price converting to a number above zero and a count converting to one at least zero; it throws exactly for `null`, or when the price conversion throws, or the price passes and the count conversion throws |
| CatalogBatchProcess.RecordEffect | product-service/lambda/catalogBatchProcess.ts:36-91 | what one pass of the loop does with a record: the rows it writes, the message it publishes and the error that ends it; characterised by `CatalogBatchProcess.RecordEffectSpec` |
| CatalogBatchProcess.Run | product-service/lambda/catalogBatchProcess.ts:35-92 | the record loop, ending at the first record whose effect has an error |
| CatalogBatchProcess.Finish | product-service/lambda/catalogBatchProcess.ts:96-109 | the catch block applied to the state the loop ended in |
| CatalogBatchProcess.HandleBatch | product-service/lambda/catalogBatchProcess.ts:31-110 | the whole invocation: the loop over the records' effects, then the catch block; specifies `CatalogBatchProcess.Handler` |
| CatalogBatchProcess.ErrorMessage | product-service/lambda/catalogBatchProcess.ts:39-42 | the message of a validation error starts with "Invalid product data" |
| CatalogBatchProcess.ValidHasTextFields | product-service/lambda/catalogBatchProcess.ts:21-29 | a valid product is an object whose id, title and description are strings |
| CatalogBatchProcess.RecordEffectSpec | product-service/lambda/catalogBatchProcess.ts:35-91 | a record commits exactly when it parses to a valid product and none of its three calls fails. It then writes the trimmed product row, the stock row and one "New Product Created" message. An invalid record writes nothing. A failing record publishes nothing, and writes its stock row only after its product row |
| CatalogBatchProcess.EffectsPrefix | product-service/lambda/catalogBatchProcess.ts:35 | the effects of the first records are the first effects of the batch |
| CatalogBatchProcess.HandleBatchEffect | product-service/lambda/catalogBatchProcess.ts:96-109 | the catch block leaves the rows alone. It publishes exactly one "Error Creating Products" message with the error's message and rethrows the same error. If that publish fails, nothing is published and the publish error is thrown |
| CatalogBatchProcess.RunAppend | product-service/lambda/catalogBatchProcess.ts:35-92 | processing two runs of records is processing the first, then the second only when the first did not fail |
| CatalogBatchProcess.RunStopsAtFirstError | product-service/lambda/catalogBatchProcess.ts:35-92 | the loop ends at the first failing record, in the state the records before it left |
| CatalogBatchProcess.RunErrorIgnoresStore | product-service/lambda/catalogBatchProcess.ts:35-92 | whether the batch fails, and with which error, does not depend on the table contents |
| CatalogBatchProcess.RunFailsIffSomeError | product-service/lambda/catalogBatchProcess.ts:35-92 | the loop completes exactly when no record fails |
| CatalogBatchProcess.FirstThrowAborts | product-service/lambda/catalogBatchProcess.ts:21-109 | the first record whose validation throws ends the batch with that TypeError before writing anything, and the failure message carries its message |
| CatalogBatchProcess.RunExtend | product-service/lambda/catalogBatchProcess.ts:35-92 | one more record extends the loop by one pass unless it has already failed |
| CatalogBatchProcess.RunDecided | product-service/lambda/catalogBatchProcess.ts:35-92 | once a record has failed, the records after it are never processed |
| CatalogBatchProcess.FirstInvalidAborts | product-service/lambda/catalogBatchProcess.ts:39-42 | the first invalid record ends the batch with "Invalid product data…", in the state left by the earlier records |
| CatalogBatchProcess.RunKeepsRows | product-service/lambda/catalogBatchProcess.ts:35-92 | the loop never removes a row and only appends to the topic |
| CatalogBatchProcess.NoRollback | product-service/lambda/catalogBatchProcess.ts:34-109 | the table keys and the messages the earlier records committed survive the invocation whether it fails or not (a later record with the same id may replace a row) |
| CatalogBatchProcess.StockFailureLeavesOrphan | product-service/lambda/catalogBatchProcess.ts:61-71 | when the stock put fails after the product put, the stock error ends the record and the product row is stored; if no stock row existed under that id before, the product row has no stock row and the tables are no longer paired |
| CatalogBatchProcess.RecordKeepsPaired | product-service/lambda/catalogBatchProcess.ts:61-71 | a record that is invalid, whose product put fails, or whose stock put succeeds keeps every product row paired with its stock row |
| CatalogBatchProcess.RunPublishesInOrder | product-service/lambda/catalogBatchProcess.ts:76-89 | a run with no failures appends each record's message, in record order, after the existing ones |
| CatalogBatchProcess.OneNoticePerRecord | product-service/lambda/catalogBatchProcess.ts:76-89 | a batch that succeeds had only valid records, and published one "New Product Created" message per record, in order, each carrying that record's row and price |
| CatalogBatchProcess.RunOverlays | product-service/lambda/catalogBatchProcess.ts:45-71 | a run leaves the old tables overlaid with exactly the rows the same records write into empty tables |
| CatalogBatchProcess.PutOverlays | product-service/lambda/catalogBatchProcess.ts:61-71 | a put overlays the table with the one row it writes |
| CatalogBatchProcess.RunTwiceSameRows | product-service/lambda/catalogBatchProcess.ts:35-92 | running the same records again after a run without failures succeeds and changes no row |
| CatalogBatchProcess.RedeliveryIdempotent | product-service/lambda/catalogBatchProcess.ts:31-110 | delivering a successful batch again succeeds again and leaves both tables as the first delivery left them |
| CatalogBatchProcess.BlankTitleStoredEmpty | product-service/lambda/catalogBatchProcess.ts:23-48 | validation looks at the untrimmed title, so a title of only white space passes and is stored as "" |
| CatalogBatchProcess.CommitRecord | product-service/lambda/catalogBatchProcess.ts:36-89 | one pass of the loop body changes the tables and topic exactly as the record's effect says, and returns its error |
| CatalogBatchProcess.ReportFailure | product-service/lambda/catalogBatchProcess.ts:96-108 | the catch block appends the one error message and rethrows, or changes nothing and throws the publish error |
| CatalogBatchProcess.Handler | product-service/lambda/catalogBatchProcess.ts:31-110 | the record loop with early exit leaves the tables, the topic and the outcome that `CatalogBatchProcess.HandleBatch` gives |
| CreateProduct.Create | product-service/lambda/createProduct.ts:17-101 | the request as the handler treats it: 400, 500 or 201 with the new state; characterised by the lemmas below and specifies `CreateProduct.Handler` |
| CreateProduct.HasRequiredFields | product-service/lambda/createProduct.ts:34 | the field check: truthy title and description, and price and count of `typeof` "number"; characterised by `CreateProduct.MissingFieldsRefused` and `CreateProduct.RequiredFieldsOnlyOnObjects` |
| CreateProduct.Echo | product-service/lambda/createProduct.ts:82-85 | the echoed product: the generated id, then the submitted fields spread over it; characterised by `CreateProduct.EchoKeepsSubmittedFields` |
| CreateProduct.RequiredFieldsOnlyOnObjects | product-service/lambda/createProduct.ts:34 | only an object can pass the field check |
| CreateProduct.MissingBodyRefused | product-service/lambda/createProduct.ts:20-29 | a missing or empty body gets 400 "Product data is required", and nothing changes |
| CreateProduct.MissingFieldsRefused | product-service/lambda/createProduct.ts:34-45 | a readable body gets 400 "Missing required fields…" exactly when its title or description is falsy or its price or count is not a number; then nothing changes |
| CreateProduct.CreateCommitsBothOrNeither | product-service/lambda/createProduct.ts:47-86 | 201 exactly when the body is readable, complete and the transaction is accepted. Then both rows are written under the generated id, and nothing else changes. Otherwise neither table changes |
| CreateProduct.WriteFailureIsServerError | product-service/lambda/createProduct.ts:87-100 | a rejected transaction gets 500 "Internal server error" and writes no row |
| CreateProduct.CreateAllowsCors | product-service/lambda/createProduct.ts:19-100 | every response carries the two CORS headers |
| CreateProduct.NonPositivePriceAccepted | product-service/lambda/createProduct.ts:34 | a zero or negative price passes and is stored as sent |
| CreateProduct.CreateKeepsPaired | product-service/lambda/createProduct.ts:51-74 | the tables stay paired whatever the request |
| CreateProduct.EchoKeepsSubmittedFields | product-service/lambda/createProduct.ts:76-86 | the 201 body holds every submitted field unchanged, plus the generated id unless the body had its own `id`, which then wins |
| CreateProduct.Handler | product-service/lambda/createProduct.ts:17-101 | the handler leaves the tables and returns the response that `CreateProduct.Create` gives |
| GetProductsList.GetProductsList | product-service/lambda/getProductsList.ts:12-60 | the listing as the handler answers it; characterised by `GetProductsList.ListResponse` |
| GetProductsList.CountFor | product-service/lambda/getProductsList.ts:34 | a product's count from the stocks scan; characterised by `GetProductsList.CountIsFirstMatch` and `GetProductsList.CountDefaultsToZero` |
| GetProductsList.WithCount | product-service/lambda/getProductsList.ts:32-35 | a product with its count; characterised by `GetProductsList.JoinKeepsProductFields` |
| GetProductsList.FindStock | product-service/lambda/getProductsList.ts:34 | the search returns the index of the first stock row whose `product_id` is `===` the id, and finds nothing exactly when no row matches |
| GetProductsList.Join | product-service/lambda/getProductsList.ts:32-35 | one entry per product, in scan order, each the product with its count |
| GetProductsList.CountIsFirstMatch | product-service/lambda/getProductsList.ts:34 | the count comes from the first matching stock row when it is truthy, and is 0 otherwise |
| GetProductsList.CountDefaultsToZero | product-service/lambda/getProductsList.ts:34 | without a matching stock row the count is 0 |
| GetProductsList.JoinKeepsProductFields | product-service/lambda/getProductsList.ts:32-35 | each entry has exactly the product's fields plus `count`, every other field unchanged |
| GetProductsList.UnmatchedStockFound | product-service/lambda/getProductsList.ts:34 | inserting a non-matching stock row anywhere does not change which row the search finds |
| GetProductsList.UnmatchedStockIgnored | product-service/lambda/getProductsList.ts:34 | a stock row that does not match a product does not change that product's count |
| GetProductsList.UnmatchedStockIrrelevant | product-service/lambda/getProductsList.ts:32-35 | a stock row that matches no product does not change the listing |
| GetProductsList.ListResponse | product-service/lambda/getProductsList.ts:12-60 | 200 with one entry per product exactly when both scans succeed, with no products giving `[]`; otherwise 500 "Internal server error"; JSON and CORS headers always |
| GetProductById.GetProductById | product-service/lambda/getProductById.ts:9-82 | the answer and the reads made, as the handler gives them; characterised by the lemmas below |
| GetProductById.WithStock | product-service/lambda/getProductById.ts:55-58 | the product with the stock row's count when truthy, and 0 otherwise; characterised by `GetProductById.FoundProduct` |
| GetProductById.MissingIdRefused | product-service/lambda/getProductById.ts:13-24 | a missing or empty id gets 400 "Product ID is required", and no table is read |
| GetProductById.AbsentProductNotFound | product-service/lambda/getProductById.ts:36-45 | an unknown id gets 404 "Product not found", and the stocks table is not read |
| GetProductById.FoundProduct | product-service/lambda/getProductById.ts:48-67 | 200 exactly when the id is given, the product exists and both reads succeed. The body is the product row with `count` from its stock row when that is truthy, and 0 otherwise |
| GetProductById.ReadsUseOneKey | product-service/lambda/getProductById.ts:29-51 | both reads use the path's id; the stocks table is read only after the product was found |
| GetProductById.ReadFailureIsServerError | product-service/lambda/getProductById.ts:68-81 | 500 "Internal server error" exactly when a read that was made was rejected |
| GetProductById.ByIdAllowsCors | product-service/lambda/getProductById.ts:13-81 | every response carries the two CORS headers |
| GetProductById.ByIdAgreesWithList | product-service/lambda/getProductById.ts:55-58 | with a stocks table keyed by `product_id` and a scan listing its rows, the product fetched by id equals its entry in the listing |
| ImportProductsFile.Import | import-service/lambda/importProductsFile.ts:9-89 | the request as the handler treats it, with the bucket after it; specifies `ImportProductsFile.Handler` |
| ImportProductsFile.IsCsvName | import-service/lambda/importProductsFile.ts:25 | the lower-cased name ends with `.csv`; characterised by `ImportProductsFile.CsvSuffixCaseInsensitive` |
| ImportProductsFile.Refusal | import-service/lambda/importProductsFile.ts:13-35 | the two name checks in order, giving the 400 answer or letting the name through; characterised by `ImportProductsFile.RefusalsWriteNothing` |
| ImportProductsFile.CsvSuffixCaseInsensitive | import-service/lambda/importProductsFile.ts:25-35 | the `.csv` check accepts exactly the names ending in a dot and c, s, v in either case |
| ImportProductsFile.RefusalsWriteNothing | import-service/lambda/importProductsFile.ts:13-35 | a missing or empty name gets "File name is required" before the extension is checked; a non-CSV name gets "Only CSV files are allowed"; both are 400 and write nothing |
| ImportProductsFile.ImportReservesKey | import-service/lambda/importProductsFile.ts:37-73 | 200 exactly when the name passes, signing succeeds and the placeholder write is accepted. The URL is signed for a one-hour `text/csv` upload to `uploaded/<name>`, the empty placeholder is written at exactly that key, and the body carries the URL |
| ImportProductsFile.UploadKeyInjective | import-service/lambda/importProductsFile.ts:37 | the key is the name under `uploaded/`, and the name is read back from it |
| ImportProductsFile.FailureReportsMessage | import-service/lambda/importProductsFile.ts:75-87 | a rejected signing or write gets 500 with the error's message, or "Unknown error occurred", and the bucket is unchanged |
| ImportProductsFile.ImportAllowsCors | import-service/lambda/importProductsFile.ts:14-87 | every response carries the CORS headers and the JSON content type |
| ImportProductsFile.Handler | import-service/lambda/importProductsFile.ts:9-89 | the handler leaves the bucket and returns the response that `ImportProductsFile.Import` gives |
| BasicAuthorizer.Authorize | authorization-service/lambda/basicAuthorizer.ts:4-45 | the authorizer's answer: "Unauthorized" or a policy; characterised by `BasicAuthorizer.UnauthorizedIff`, `BasicAuthorizer.AllowIff` and `BasicAuthorizer.PolicyShape` |
| BasicAuthorizer.GeneratePolicy | authorization-service/lambda/basicAuthorizer.ts:47-61 | the policy document for one effect on one resource |
| BasicAuthorizer.ParseCredentials | authorization-service/lambda/basicAuthorizer.ts:25 | the user name and the password read from decoded credentials; characterised by `BasicAuthorizer.CredentialsRoundTrip` and `BasicAuthorizer.PasswordStopsAtSecondColon` |
| BasicAuthorizer.IsBasic | authorization-service/lambda/basicAuthorizer.ts:16 | the lower-cased token starts with `basic `; characterised by `BasicAuthorizer.BasicTokenHasSpace` and `BasicAuthorizer.BasicTokenCarries` |
| BasicAuthorizer.BasicTokenHasSpace | authorization-service/lambda/basicAuthorizer.ts:16-21 | a token of the `Basic` scheme has a second space-separated piece |
| BasicAuthorizer.UnauthorizedIff | authorization-service/lambda/basicAuthorizer.ts:8-19 | "Unauthorized" is thrown exactly when the token is missing, empty or not `basic ` in any letter case |
| BasicAuthorizer.AllowIff | authorization-service/lambda/basicAuthorizer.ts:31-39 | Allow exactly when the user's stored password is set, not empty and `===` the password read from the token. The principal is then the user name; on Deny it is "user" |
| BasicAuthorizer.PolicyShape | authorization-service/lambda/basicAuthorizer.ts:47-61 | every policy has version 2012-10-17 and one statement, for `execute-api:Invoke` on the method ARN |
| BasicAuthorizer.ColonPasswordNeverAllowed | authorization-service/lambda/basicAuthorizer.ts:25-33 | a user whose stored password contains a colon is never allowed |
| BasicAuthorizer.ToLowerAppend | authorization-service/lambda/basicAuthorizer.ts:16 | lowering a concatenation lowers each part |
| BasicAuthorizer.BasicTokenCarries | authorization-service/lambda/basicAuthorizer.ts:16-21 | "Basic " followed by a space-free string is accepted, and carries that string as its credentials |
| BasicAuthorizer.CredentialsRoundTrip | authorization-service/lambda/basicAuthorizer.ts:25 | "user:password" reads back as that user and password when neither contains a colon |
| BasicAuthorizer.PasswordStopsAtSecondColon | authorization-service/lambda/basicAuthorizer.ts:25 | the password read is only the piece between the first and the second colon |
| BasicAuthorizer.WellFormedTokenDecides | authorization-service/lambda/basicAuthorizer.ts:8-39 | a well-formed `Basic` token for user:password is allowed, as that user, exactly when the stored password is that password and not empty |

## Left out

- importFileParser, the CDK stacks, the table-seeding script and the product
  fixtures are not part of this model. They hold no logic of the handlers
  above.
- Logging is left out. It has no effect on results.
- The SDK calls are not modelled. Each call's rejection, and what it throws,
  is an input. The presigned URL is an input. The UUID is an input, and
  nothing is assumed about its freshness.
- Table, topic and bucket names and the `BUCKET_NAME || ''` default come
  from `process.env`. The two read handlers take their client region from
  `process.env.REGION`. The create and import clients use a fixed
  `eu-central-1`. All of these are left out because they do not affect the
  decisions modelled. The presigning region, `eu-west-1`, is modelled in
  `ImportProductsFile.PresignFor`.
- Numbers are exact reals. IEEE rounding, infinities and `-0` are not
  modelled.
- `Number()` on strings (parsing) and on arrays and objects (`ToPrimitive`)
  is a pair of abstract functions. The second may throw a TypeError, which
  the batch handler reports and rethrows. `ToPrimitive` is taken to give the
  same result each time it is called on the same value.
- Json.Field: only the data properties the handlers read are modelled.
  Built-in and inherited properties such as `length` or `toString` are
  not, so the function's contract says nothing true about them.
- JSON text, key order and `JSON.stringify` are not modelled. Bodies and
  messages are kept as values.
- `Text.ToLower` maps only the ASCII letters. The other Unicode case
  mappings, some of which change length, are not modelled.
- Base64 decoding is an abstract total function. Node's decoder never throws.
- The authorizer's environment is a map of its own keys. Inherited
  properties of `process.env` are not modelled: they are never strings, so
  they could only deny.
- The message attribute `price` is sent as a string. Its conversion is not
  modelled: the notification keeps the price value.
- The service's design describes an atomic batch commit, generated ids and a
  `pending/` upload prefix. The handler code makes two separate puts, uses
  the message's own `id`, and writes under `uploaded/`. The model follows
  the code.
- No file of the repository that this model covers routes creation events
  to subscribers by price, so such routing is left out.
- Concurrency between handler invocations is not modelled. Each invocation
  is a sequential step on the tables.
