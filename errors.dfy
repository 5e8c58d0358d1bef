/** The error values the core returns through `anyhow::Result`, one constructor per message. */
module Errors {

  datatype Error =
    /** "Missing arguments": the tool was called without an arguments object. */
    | MissingArguments
    /** "Missing or invalid {name} parameter". */
    | MissingParameter(name: string)
    /** "{name} cannot be empty": the string is blank once trimmed. */
    | EmptyParameter(name: string)
    /** "Limit cannot exceed {max}". */
    | LimitExceeded(max: nat)
    /** "Invalid paper pool specified. Must be 'recent' or 'all-cs'". */
    | InvalidPool
    /** "Must provide at least one positive paper ID". */
    | NoPositiveIds
    /** "All positive paper IDs must be strings". */
    | NonStringPositiveIds
    /** A failed LMDB transaction, read, (de)serialisation or commit. */
    | Storage
    /** A failure of the embedding provider. */
    | Embedding
    /** The HTTP client could not send the request or build it. */
    | Transport
    /** "Rate limit exceeded. Consider using an API key for higher limits." (status 429). */
    | RateLimitExceeded
    /** "Resource not found: {body}" (status 404). */
    | NotFound(body: string)
    /** "HTTP error {status}: {body}" for every other unsuccessful status. */
    | HttpStatus(status: int, body: string)
    /** "Failed to parse JSON response". */
    | ParseFailure
    /** `serde_json::from_value::<String>` on a cached result that is not a string. */
    | Deserialize
}
