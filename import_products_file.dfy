/**
 * The upload-URL endpoint of the import service: the requested file name is
 * checked (present, and ending in `.csv` in any letter case), a URL is
 * presigned for a `PutObject` of `uploaded/<name>`, and an empty placeholder
 * object is written at that key before the URL is returned.
 */
module ImportProductsFile {
  import opened Wrappers
  import opened Json
  import opened Text
  import opened Http

  /** An object in the bucket: its body and its content type. */
  datatype S3Object = S3Object(body: string, contentType: string)

  /** The `PutObject` command the URL is presigned for, with the signing options. */
  datatype PresignRequest = PresignRequest(key: string, contentType: string, acl: string, expiresIn: nat, signingRegion: string)

  /** What a rejected call throws: an `Error` with its message, or some other value. */
  datatype Thrown = ErrorThrown(message: string) | OtherThrown

  /** The outcome of presigning: the URL, or what was thrown. */
  datatype Signing = SignedUrl(url: string) | SigningFailed(thrown: Thrown)

  /** The bucket contents after the request, and the response. */
  datatype Outcome = Outcome(objects: map<string, S3Object>, response: Response)

  const UploadPrefix: string := "uploaded/"
  const NameRequired: string := "File name is required"
  const OnlyCsv: string := "Only CSV files are allowed"

  /** The empty object written to reserve the key. */
  const Placeholder: S3Object := S3Object("", "text/csv")

  /** The object key an upload of `name` is reserved under. */
  function UploadKey(name: string): string {
    UploadPrefix + name
  }

  /** The upload command and options the URL is signed with. */
  function PresignFor(key: string): PresignRequest {
    PresignRequest(key, "text/csv", "public-read", 3600, "eu-west-1")
  }

  /** The lower-cased name ends with `.csv`. */
  predicate IsCsvName(name: string) {
    EndsWith(ToLower(name), ".csv")
  }

  /** The message reported for what was thrown: an `Error`'s own message, a fixed text otherwise. */
  function ErrorText(t: Thrown): string {
    match t
    case ErrorThrown(message) => message
    case OtherThrown => "Unknown error occurred"
  }

  /** The name checks, in order; `None` lets the name through. */
  function Refusal(name: Option<string>): Option<Response> {
    if name.None? || name.value == "" then Some(Response(400, JsonCors, MessageBody(NameRequired)))
    else if !IsCsvName(name.value) then Some(Response(400, JsonCors, MessageBody(OnlyCsv)))
    else None
  }

  /**
   * The request as the handler treats it, given the query parameter (absent
   * when there is none), the presigner, and what the placeholder write
   * throws, if it is rejected.
   */
  function Import(objects: map<string, S3Object>, name: Option<string>, sign: PresignRequest -> Signing,
                  putFails: Option<Thrown>): Outcome
  {
    match Refusal(name)
    case Some(r) => Outcome(objects, r)
    case None =>
      var key := UploadKey(name.value);
      match sign(PresignFor(key))
      case SigningFailed(t) => Outcome(objects, Response(500, JsonCors, MessageBody(ErrorText(t))))
      case SignedUrl(url) =>
        if putFails.Some? then Outcome(objects, Response(500, JsonCors, MessageBody(ErrorText(putFails.value))))
        else Outcome(objects[key := Placeholder], Response(200, JsonCors, Obj(map["uploadURL" := Str(url)])))
  }

  /**
   * The `.csv` check, characterised without `toLowerCase`: the name ends
   * with a dot and the letters c, s and v, each in either case.
   */
  lemma CsvSuffixCaseInsensitive(name: string)
    ensures IsCsvName(name) <==>
      && |name| >= 4
      && name[|name| - 4] == '.'
      && (name[|name| - 3] == 'c' || name[|name| - 3] == 'C')
      && (name[|name| - 2] == 's' || name[|name| - 2] == 'S')
      && (name[|name| - 1] == 'v' || name[|name| - 1] == 'V')
  {
    var n := |name|;
    var low := ToLower(name);
    if n >= 4 {
      assert low[n - 4..] == [low[n - 4], low[n - 3], low[n - 2], low[n - 1]];
    }
  }

  /**
   * A missing or empty name is refused with "File name is required" before
   * the extension is looked at; a present name that is not a CSV name is
   * refused with "Only CSV files are allowed". Neither writes anything.
   */
  lemma RefusalsWriteNothing(objects: map<string, S3Object>, name: Option<string>, sign: PresignRequest -> Signing,
                             putFails: Option<Thrown>)
    ensures var o := Import(objects, name, sign, putFails);
      && (name.None? || name.value == "" ==>
            o.response.statusCode == 400 && Message(o.response) == Str(NameRequired) && o.objects == objects)
      && (name.Some? && name.value != "" && !IsCsvName(name.value) ==>
            o.response.statusCode == 400 && Message(o.response) == Str(OnlyCsv) && o.objects == objects)
      && (o.response.statusCode == 400 <==> Refusal(name).Some?)
  {
  }

  /**
   * The request succeeds exactly when the name passes both checks, signing
   * succeeds and the placeholder write is accepted. The URL is signed for a
   * `text/csv` upload to `uploaded/<name>`, valid for an hour, the empty
   * placeholder is written at exactly that key and nothing else changes,
   * and the body carries the URL.
   */
  lemma ImportReservesKey(objects: map<string, S3Object>, name: Option<string>, sign: PresignRequest -> Signing,
                          putFails: Option<Thrown>)
    ensures var o := Import(objects, name, sign, putFails);
      && (o.response.statusCode == 200 <==>
            && name.Some? && name.value != "" && IsCsvName(name.value)
            && sign(PresignFor(UploadKey(name.value))).SignedUrl?
            && putFails.None?)
      && (o.response.statusCode == 200 ==>
            var key := UploadKey(name.value);
            && PresignFor(key).key == key && PresignFor(key).expiresIn == 3600 && PresignFor(key).contentType == "text/csv"
            && o.objects == objects[key := S3Object("", "text/csv")]
            && o.response.body == Obj(map["uploadURL" := Str(sign(PresignFor(key)).url)]))
  {
  }

  /**
   * The key is the name under the `uploaded/` prefix, and the name can be
   * read back from it, so different names reserve different keys.
   */
  lemma UploadKeyInjective(name: string, other: string)
    ensures StartsWith(UploadKey(name), UploadPrefix)
    ensures UploadKey(name)[|UploadPrefix|..] == name
    ensures UploadKey(name) == UploadKey(other) ==> name == other
  {
    assert UploadKey(name)[|UploadPrefix|..] == name;
    assert UploadKey(other)[|UploadPrefix|..] == other;
  }

  /**
   * A rejected signing or write gives 500 with the thrown error's message,
   * or "Unknown error occurred" when what was thrown is not an `Error`; the
   * bucket is unchanged.
   */
  lemma FailureReportsMessage(objects: map<string, S3Object>, name: Option<string>, sign: PresignRequest -> Signing,
                              putFails: Option<Thrown>)
    requires Refusal(name).None?
    requires sign(PresignFor(UploadKey(name.value))).SigningFailed? || putFails.Some?
    ensures var o := Import(objects, name, sign, putFails);
      var s := sign(PresignFor(UploadKey(name.value)));
      var t := if s.SigningFailed? then s.thrown else putFails.value;
      && o.objects == objects
      && o.response.statusCode == 500
      && Message(o.response) == Str(ErrorText(t))
      && (t.OtherThrown? ==> Message(o.response) == Str("Unknown error occurred"))
  {
  }

  /** Every response carries the CORS headers and the JSON content type. */
  lemma ImportAllowsCors(objects: map<string, S3Object>, name: Option<string>, sign: PresignRequest -> Signing,
                         putFails: Option<Thrown>)
    ensures var r := Import(objects, name, sign, putFails).response;
      AllowsCors(r) && r.headers["Content-Type"] == Str("application/json")
  {
  }

  /** The bucket uploads go to. */
  class Bucket {
    var objects: map<string, S3Object>

    constructor (initial: map<string, S3Object>)
      ensures objects == initial
    {
      objects := initial;
    }
  }

  /** The handler as it runs against the bucket. */
  method Handler(bucket: Bucket, name: Option<string>, sign: PresignRequest -> Signing, putFails: Option<Thrown>)
    returns (response: Response)
    modifies bucket
    ensures Outcome(bucket.objects, response) == Import(old(bucket.objects), name, sign, putFails)
  {
    if name.None? || name.value == "" {
      return Response(400, JsonCors, MessageBody(NameRequired));
    }
    var fileName := name.value;
    if !IsCsvName(fileName) {
      return Response(400, JsonCors, MessageBody(OnlyCsv));
    }
    var key := UploadKey(fileName);
    var signed := sign(PresignFor(key));
    if signed.SigningFailed? {
      return Response(500, JsonCors, MessageBody(ErrorText(signed.thrown)));
    }
    if putFails.Some? {
      return Response(500, JsonCors, MessageBody(ErrorText(putFails.value)));
    }
    bucket.objects := bucket.objects[key := Placeholder];
    response := Response(200, JsonCors, Obj(map["uploadURL" := Str(signed.url)]));
  }
}
