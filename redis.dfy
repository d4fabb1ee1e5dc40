/** The values the analyzers receive from the Redis client library. Every
    network query is an input to the model: it either answered or failed. */
module Redis {

  /** Go's int64. */
  newtype int64 = x: int | -0x8000_0000_0000_0000 <= x < 0x8000_0000_0000_0000

  /** The outcome of one query: the client library's (value, error) pair. */
  datatype Query<T> = Answered(value: T) | Failed(error: string)

  /** An untyped reply as the client library's `Do` hands it back (an
      `interface{}`): an integer, a string, an array of replies, or anything
      else (nil, a map, a status). */
  datatype Reply = Int(n: int64) | Str(s: string) | Arr(items: seq<Reply>) | Other

  /** The errors the analyzers return to their caller. */
  datatype Error =
    | QueryError(message: string)            // a query's own error, returned as it is
    | ClusterNodesError(message: string)     // "failed to fetch cluster nodes: ..."
    | UnexpectedSlowlogResult                // "unexpected SLOWLOG GET result"

  datatype Result<T> = Ok(value: T) | Err(error: Error)
}
