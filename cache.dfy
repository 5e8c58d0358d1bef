/**
 * The cache's data model and the values its two operations exchange: a `Query` (what a tool
 * stores), a `CacheEntry` (a stored value with its creation time) and a `Hit` (one element of
 * the list `search_similarity` returns). Embeddings are vectors of reals; times are integer
 * milliseconds.
 */
module CacheModel {
  import opened Wrappers
  import opened Json

  /** A cached unit of work, keyed by `text`. */
  datatype Query = Query(
    action: string,
    text: string,
    params: Option<Value>,
    embedding: seq<real>,
    results: Value)

  /** A stored value and the time it was stored; nothing else. */
  datatype CacheEntry<T> = CacheEntry(value: T, createdAt: int)

  /** A `(Query, similarity)` pair of a search result. */
  datatype Hit = Hit(query: Query, score: real)
}
