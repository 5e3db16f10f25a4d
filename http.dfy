/**
 * API Gateway proxy responses: a status code, headers and the body before
 * `JSON.stringify`, kept as a JSON value.
 */
module Http {
  import opened Json

  datatype Response = Response(statusCode: int, headers: map<string, Value>, body: Value)

  /** The two CORS headers every product and import response carries. */
  const Cors: map<string, Value> :=
    map["Access-Control-Allow-Origin" := Str("*"), "Access-Control-Allow-Credentials" := Bool(true)]

  /** The CORS headers plus `Content-Type: application/json`. */
  const JsonCors: map<string, Value> := Cors["Content-Type" := Str("application/json")]

  /** A body carrying only the message `m`. */
  function MessageBody(m: string): Value {
    Obj(map["message" := Str(m)])
  }

  /** The body of a 500 answer: "Internal server error" as both message and error. */
  const InternalErrorBody: Value :=
    Obj(map["message" := Str("Internal server error"), "error" := Str("Internal server error")])

  /** The 500 "Internal server error" answer of the product endpoints. */
  const ServerError: Response := Response(500, Cors, InternalErrorBody)

  /** The response lets any origin read it, with credentials. */
  predicate AllowsCors(r: Response) {
    && "Access-Control-Allow-Origin" in r.headers
    && r.headers["Access-Control-Allow-Origin"] == Str("*")
    && "Access-Control-Allow-Credentials" in r.headers
    && r.headers["Access-Control-Allow-Credentials"] == Bool(true)
  }

  /** The `message` field of a response body, when it has one. */
  function Message(r: Response): Value {
    if r.body.Obj? && "message" in r.body.fields then r.body.fields["message"] else Undefined
  }
}
