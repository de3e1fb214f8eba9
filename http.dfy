/** The HTTP responses the handlers build: a status code and a body. */
module Http {

  const OK := 200
  const CREATED := 201
  const BAD_REQUEST := 400
  const UNAUTHORIZED := 401
  const NOT_FOUND := 404
  const TOO_MANY_REQUESTS := 429
  const INTERNAL_SERVER_ERROR := 500

  /** A JSON object is a list of (key, value) pairs, values already rendered as text;
      `Text` is the plain-text body actix-web writes for an error (its `Display`). */
  datatype Body = Json(fields: seq<(string, string)>) | Text(text: string)

  datatype Response = Response(status: int, body: Body)
}
