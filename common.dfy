/** The optional value returned by lookups and parsers. */
module Wrappers {
  datatype Option<+T> = None | Some(value: T)
}

/** What a handler hands back to the web framework: a status code and a text body. */
module Http {
  const Ok: int := 200
  const BadRequest: int := 400
  const ImATeapot: int := 418
  const ServiceUnavailable: int := 503

  datatype Response = Response(status: int, body: string)
}
