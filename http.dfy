/** The outcome of the HTTP request both drivers make, taken as an input. */
module Http {
  import opened Normalizer

  /** What `fetch` resolved to: `res.ok`, `res.status`, and the body after
      `Papa.parse(text, {header: true, skipEmptyLines: true}).data`. */
  datatype Response = Response(ok: bool, status: int, rows: seq<Row>)

  /** The `Error` thrown for an unsuccessful response, carrying its status. */
  datatype FetchError = HttpStatus(status: int)
}
