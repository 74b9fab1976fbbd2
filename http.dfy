/** What a single HTTP GET can come back with, as the core sees it. */
module Http {
  type Bytes = seq<bv8>

  /** The outcome of one GET: a status with a body, or an exception raised
      by the HTTP client. */
  datatype Reply = Reply(status: int, body: Bytes) | NetworkError
}
