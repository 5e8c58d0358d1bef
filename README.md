# semantic-scholar-mcp, modelled in Dafny

semantic-scholar-mcp is a server that exposes search over the Semantic Scholar Graph API as
tools for language-model clients. This project models its core in Dafny and proves properties
of that model. The core modelled here has three parts:

- **The similarity cache.** The `Cache` interface stores a `Query` (action, text, parameters,
  embedding, results) under its text. `LocalCache` implements it over one key-value table:
  - entries expire after a time-to-live, one day by default;
  - a search scores every live entry by cosine similarity with the query embedding, over
    the shared prefix of the two vectors only;
  - it skips entries with a zero magnitude;
  - it returns the scored entries sorted best first;
  - it then purges the expired keys in a second write transaction.
- **The request utilities.** These cover the per-endpoint `RateLimiter`, the URL built by
  `make_request` and its classification of HTTP statuses, and `build_query_string`.
- **The tools of the seven tool files** (`paper_search`, `author_search`, `paper_recommendations_single`,
  `paper_recommendations_multi`, `paper_citations`, `paper_details`, `author_details`,
  `author_papers`): for each, the argument validation, the parameters it sends, its cache-hit
  rule, and the formatter that turns an API response into numbered, counted and truncated text.

## How the model is organised

| module (file) | what it holds |
|---|---|
| `CacheModel` (cache.dfy) | `Query`, `CacheEntry`, `Hit`. |
| `SortedTable` (sorted_table.dfy) | A key-sorted table. The same type models the key-value store, which iterates keys in byte order, and a JSON object, which keeps its keys sorted. |
| `Similarity` (similarity.dfy) | The score and the loop that computes it. |
| `LocalCacheModel` (local_cache.dfy) | The read phase, the purge, and the `LocalCache` class, whose field is the table. |
| `RequestUtils` (utils.dfy) | The `RateLimiter` class over a `map` of last-call times, `MakeRequest`, and `BuildQueryString`. |
| `PercentEncoding` (percent_encoding.dfy) | The `urlencoding::encode` escaping. |
| `ToolSupport` (tool_support.dfy) | The two cache-hit skeletons the tools share. |
| `Report` (report.dfy) | Generic numbered listings and abstract truncation. |
| `DebugText` (debug_text.dfy) | Rust's `{:?}` rendering of a list of strings. |
| one module per tool file | Validation, parameters, formatter and call of that tool. |
| `Interplay` (interplay.dfy) | How tool calls and the cache behave together over several calls. |

**Similarity score.** The source's cosine `dot / (|a|·|b|)` needs a square root. The model
instead scores with its signed square, `dot·|dot| / (Σa²·Σb²)`. This map is strictly
increasing, so the ranking and the `> 0.95` test are preserved exactly. The cut-off becomes
`> 0.95²`. Lemmas prove the agreement with the cosine whenever square roots of the two norms
are given (`CosineAgreement`, `CutoffAgreement`).

**Clocks and effects.**
- Time is integer milliseconds.
- Clocks, the embedding provider, the HTTP client and the commit of a transaction are
  parameters.
- A tool call is a function of them. It returns the answer, the request it sent and the
  query it handed to `store`.

**Formatted text.** Formatter output is a sequence of structured lines:
- a count header;
- numbered entries;
- fields;
- nested items;
- "... and N more" lines;
- the next-offset hint.

The cached answer is the rendering of those lines. The proofs are about the lines' numbering
and counts.

**Observations shown by the `Interplay` lemmas:**
- `author_papers` caches a page under the bare author id. Two pages of one author therefore
  overwrite each other (`AuthorPagesOverwrite`).
- The parameters of `author_papers` do not hold the author. A very similar cached page of
  another author is therefore returned as this author's page (`AuthorPapersOtherAuthor`).
- `paper_search` and `author_search` cache under the raw query text. The same text searched
  by both tools leaves only the later entry (`SearchesShareKeys`).
- `paper_citations`, `paper_details` and `author_details` answer from the top entry
  whatever tool stored it.
  - An `author_details` call that finds a raw citations response fails to deserialise it
    (`DetailsFromCitationsEntry`).
  - A `paper_citations` call that finds an `author_details` answer reports no citations
    (`CitationsFromDetailsEntry`).

**Where the source and its design description disagree, the model follows the code:**
- **`make_request` arguments.** `make_request` takes four arguments and always uses
  `https://api.semanticscholar.org/graph/v1` as its base URL. Every call site passes a fifth
  argument, which is a base URL for the recommendation tools. `Request.base` records that
  argument, and `MakeRequest` ignores it, as the function's own code does.
- **Failed purge.** A purge whose commit fails makes `search_similarity` return an error,
  because the `?` on the commit returns before `Ok(results)`.
- **Query fields.** The `Query` values built by `paper_citations`, `paper_details` and
  `author_details` name no `action` and no `params`. They are modelled with action `""` and
  params `None`.
- **Retries.** `make_request` sends once; there are no retries.

## Model

| member | source | states |
|---|---|---|
| SortedTable.Insert | crates/local_cache/src/local_cache.rs:47 | `put`: the table stays key-sorted, the key now maps to the new value and every other key keeps its value |
| SortedTable.InsertTwice | crates/local_cache/src/local_cache.rs:47 | a second `put` under the same key replaces the first |
| SortedTable.LookupWithout | crates/local_cache/src/local_cache.rs:97-99 | after deleting a set of keys, exactly those keys are gone and the others are unchanged |
| SortedTable.SortedCanonical | crates/local_cache/src/local_cache.rs:59 | two key-sorted tables with the same lookups are equal, so iteration order is a function of the contents |
| Json.ObjectOf | crates/semantic_scholar_mcp_tools/src/author_search.rs:203-212 | a `serde_json::Map` built by inserts is a key-sorted object |
| Json.ObjectOfMembers | crates/semantic_scholar_mcp_tools/src/author_search.rs:203-212 | with distinct keys, each inserted key reads back its inserted value |
| Json.StringsOfAllStrings | crates/semantic_scholar_mcp_tools/src/author_search.rs:76-77 | `filter_map(as_str)` over an array of strings gives them all back, in order |
| Text.ContainsIff | crates/semantic_scholar_mcp_tools/src/utils.rs:36 | `contains` holds exactly when the needle occurs at some position |
| Similarity.PrefixSums | crates/local_cache/src/local_cache.rs:70-78 | the zip loop computes the dot product and both squared magnitudes over the shared prefix |
| Similarity.PrefixSimilarity | crates/local_cache/src/local_cache.rs:69-86 | an entry is kept exactly when both magnitudes are positive, and then gets the score of the two vectors |
| Similarity.CauchySchwarz | crates/local_cache/src/local_cache.rs:84 | the squared dot product is at most the product of the squared magnitudes |
| Similarity.ScoreRange | crates/local_cache/src/local_cache.rs:84 | every score lies in [-1, 1] |
| Similarity.ScoreSelf | crates/local_cache/src/local_cache.rs:83-84 | a non-zero vector scores exactly 1 against itself |
| Similarity.ZeroNeverComparable | crates/local_cache/src/local_cache.rs:83 | a zero vector is never scored, on either side |
| Similarity.EmptyNeverComparable | crates/local_cache/src/local_cache.rs:74-83 | an empty vector is never scored |
| Similarity.SharedPrefixOnly | crates/local_cache/src/local_cache.rs:74 | extending the longer vector changes neither whether nor how the pair is scored |
| Similarity.SignedSquareOrder | crates/local_cache/src/local_cache.rs:90 | the signed square preserves and reflects strict order, so ranking by it equals ranking by cosine |
| Similarity.CosineAgreement | crates/local_cache/src/local_cache.rs:80-84 | given square roots of the two norms, the score is the signed square of `dot / (|a|·|b|)` |
| Similarity.CutoffAgreement | crates/semantic_scholar_mcp_tools/src/paper_search.rs:183 | the model's cut-off holds exactly when the cosine exceeds 0.95 |
| LocalCacheModel.SortByScore | crates/local_cache/src/local_cache.rs:90 | the sorted hits are in non-increasing score order |
| LocalCacheModel.SortByScorePermutes | crates/local_cache/src/local_cache.rs:90 | sorting is a permutation of the hits |
| LocalCacheModel.SortStable | crates/local_cache/src/local_cache.rs:90 | hits of equal score keep their scan order (`sort_by` is stable) |
| LocalCacheModel.SortDescending | crates/local_cache/src/local_cache.rs:90 | the insertion-sort loop computes the sorted hits |
| LocalCacheModel.ReadPhase | crates/local_cache/src/local_cache.rs:53-93 | the read loop yields the ranked live hits and, in table order, the keys of the expired entries |
| LocalCacheModel.DeleteAll | crates/local_cache/src/local_cache.rs:96-99 | the delete loop removes exactly the listed keys |
| LocalCacheModel.LocalCache.constructor | crates/local_cache/src/local_cache.rs:17-36 | the cache starts empty with the given TTL, one day when none is given |
| LocalCacheModel.LocalCache.Store | crates/local_cache/src/local_cache.rs:40-50 | on commit the query is put under its text with the current time; on a failed commit the table is unchanged and the error returned |
| LocalCacheModel.LocalCache.SearchSimilarity | crates/local_cache/src/local_cache.rs:52-104 | the result is the ranked live hits of the table as it was; expired keys are purged only when the read succeeded, there are keys to purge and the purge commits; a failed read or purge returns the error |
| LocalCacheModel.ExpiredKeysMember | crates/local_cache/src/local_cache.rs:63-66 | a key is scheduled for purging exactly when its entry is older than the TTL |
| LocalCacheModel.ScoredMember | crates/local_cache/src/local_cache.rs:59-87 | a hit is collected exactly when it comes from a live entry with a positive-magnitude score, paired with that score |
| LocalCacheModel.RankedMember | crates/local_cache/src/local_cache.rs:59-90 | the returned list is sorted best first and holds exactly those hits |
| LocalCacheModel.RankedRange | crates/local_cache/src/local_cache.rs:84-90 | every returned score lies in [-1, 1] |
| LocalCacheModel.StoreKeyed | crates/local_cache/src/local_cache.rs:42-47 | a store keeps the table sorted and each entry stored under its own text |
| LocalCacheModel.PurgedValid | crates/local_cache/src/local_cache.rs:95-101 | the purge keeps the table sorted and keyed by text |
| LocalCacheModel.PurgedLookup | crates/local_cache/src/local_cache.rs:95-101 | after the purge a key maps to its entry exactly when that entry was live |
| LocalCacheModel.RepeatSearch | crates/local_cache/src/local_cache.rs:95-103 | after a purge nothing is left to purge, and the same search returns the same list |
| LocalCacheModel.StoreThenSearch | crates/local_cache/src/local_cache.rs:40-90 | a stored query is found by its own embedding while live, with score 1 and first in the list |
| LocalCacheModel.Evicted | crates/local_cache/src/local_cache.rs:42-47 | a query overwritten by another with the same text is never returned again |
| PercentEncoding.EncodeByte | crates/semantic_scholar_mcp_tools/src/utils.rs:117 | a byte becomes itself when unreserved or a `%XX` escape otherwise, using only unreserved characters and `%` |
| PercentEncoding.DecodeEncode | crates/semantic_scholar_mcp_tools/src/utils.rs:117 | percent-decoding the encoding of the UTF-8 bytes gives the bytes back |
| PercentEncoding.EncodeInjective | crates/semantic_scholar_mcp_tools/src/utils.rs:117 | strings with the same encoding have the same UTF-8 bytes |
| PercentEncoding.EncodeDelimiterFree | crates/semantic_scholar_mcp_tools/src/utils.rs:116-132 | an encoded value holds no `&`, `=`, `,` or `?` |
| PercentEncoding.EncodeUnreserved | crates/semantic_scholar_mcp_tools/src/utils.rs:117 | a string of unreserved characters encodes to itself |
| RequestUtils.RateLimitIff | crates/semantic_scholar_mcp_tools/src/utils.rs:33-41 | the interval is 1000 ms exactly when some restricted path occurs in the endpoint, else 100 ms |
| RequestUtils.UnrestrictedEndpoint | crates/semantic_scholar_mcp_tools/src/utils.rs:22-41 | an endpoint without the letters `p` and `m` is spaced 100 ms |
| RequestUtils.UnrestrictedWithout | crates/semantic_scholar_mcp_tools/src/utils.rs:22-41 | an endpoint missing a letter of every restricted path is spaced 100 ms |
| RequestUtils.RestrictedPrefix | crates/semantic_scholar_mcp_tools/src/utils.rs:33-38 | an endpoint under a restricted path is spaced 1000 ms |
| RequestUtils.Wait | crates/semantic_scholar_mcp_tools/src/utils.rs:43-49 | no wait for a first call; otherwise the call is delayed just until the interval since the last call has passed, and never longer than the interval |
| RequestUtils.RateLimiter.constructor | crates/semantic_scholar_mcp_tools/src/utils.rs:19-28 | no calls recorded and the three restricted paths |
| RequestUtils.RateLimiter.Acquire | crates/semantic_scholar_mcp_tools/src/utils.rs:30-53 | the delay is the wait for this endpoint and the endpoint's last call becomes the time after the delay; other endpoints are untouched |
| RequestUtils.AcquireSpacing | crates/semantic_scholar_mcp_tools/src/utils.rs:43-51 | two calls to one endpoint start at least its interval, and at least 100 ms, apart |
| RequestUtils.Classify | crates/semantic_scholar_mcp_tools/src/utils.rs:85-107 | success exactly for a 2xx status with a JSON body; 429 is rate-limited, 404 not found with the body, any other failure an HTTP error with status and body; a 2xx without JSON a parse error |
| RequestUtils.MakeRequest | crates/semantic_scholar_mcp_tools/src/utils.rs:56-108 | waits as `acquire` does, sends exactly one request to the built URL, and returns the transport error or the classified response |
| RequestUtils.RequestUrlShape | crates/semantic_scholar_mcp_tools/src/utils.rs:65-71 | the URL is the base URL and the endpoint, then `?` and the query string exactly when there are parameters |
| RequestUtils.BuildQueryString | crates/semantic_scholar_mcp_tools/src/utils.rs:110-139 | the loop over the object's members computes the query string |
| RequestUtils.FieldsSource | crates/semantic_scholar_mcp_tools/src/utils.rs:113-135 | every `key=value` part comes from a member whose value renders to it |
| RequestUtils.RenderedDelimiterFree | crates/semantic_scholar_mcp_tools/src/utils.rs:116-132 | a rendered value holds no `&` or `=` |
| RequestUtils.ArrayWithoutStrings | crates/semantic_scholar_mcp_tools/src/utils.rs:125-132 | an array with no strings still sends its key with an empty value |
| RequestUtils.NullOmitted | crates/semantic_scholar_mcp_tools/src/utils.rs:133 | a null, object or missing value sends no part at all |
| RequestUtils.QueryStringRoundTrip | crates/semantic_scholar_mcp_tools/src/utils.rs:110-139 | with delimiter-free keys, splitting the query string on `&` and `=` recovers exactly the rendered members, in key order |
| Report.ListField | crates/semantic_scholar_mcp_tools/src/paper_search.rs:66-75 | a joined list line is shown exactly when the list is non-empty |
| Report.BulletLines | crates/semantic_scholar_mcp_tools/src/author_details.rs:60-62 | the loop writes one bullet per item, in order |
| Report.AbstractShown | crates/semantic_scholar_mcp_tools/src/paper_search.rs:91-100 | the abstract line appears exactly for a non-empty string abstract; untruncated it is the abstract, truncated it is within the byte budget plus `...`, and an abstract within the budget is shown whole |
| Report.PrefixWithin | crates/semantic_scholar_mcp_tools/src/paper_search.rs:94 | the cut is a prefix of the text within the byte budget |
| Report.SummaryShape | crates/semantic_scholar_mcp_tools/src/paper_search.rs:93-97 | a text within the budget is kept; a longer one is a prefix within the budget followed by `...` |
| Report.SummaryAtBoundary | crates/semantic_scholar_mcp_tools/src/paper_search.rs:94 | when the budget falls on a character boundary the kept bytes are exactly the first `limit` bytes, as `&s[0..n]` |
| Report.SummaryAscii | crates/semantic_scholar_mcp_tools/src/paper_search.rs:93-97 | for ASCII text the summary is the first `limit` characters and `...`, or the text itself |
| Report.ListLines | crates/semantic_scholar_mcp_tools/src/paper_search.rs:58-113 | the item loop writes the numbered blocks separated by blank lines |
| Report.FramedListing | crates/semantic_scholar_mcp_tools/src/paper_search.rs:58-64 | the k-th numbered entry of a framed listing is item k with number `first + k`, and there is one entry per item |
| Report.FramedLast | crates/semantic_scholar_mcp_tools/src/paper_search.rs:110-117 | a listing is followed by its trailer, and with no trailer it does not end in a next-offset hint |
| Report.ListingLast | crates/semantic_scholar_mcp_tools/src/paper_search.rs:110-113 | a listing ends inside the last item's block, with no trailing blank line |
| Report.NestLines | crates/semantic_scholar_mcp_tools/src/author_search.rs:125-151 | the nested loop lists the first `n` items |
| Report.NestNumbers | crates/semantic_scholar_mcp_tools/src/author_search.rs:125-140 | nested items are numbered 1, 2, ... in order |
| Report.NestKinds | crates/semantic_scholar_mcp_tools/src/author_search.rs:125-151 | a nested listing holds only nested entries and their fields |
| ToolSupport.Arguments | crates/semantic_scholar_mcp_tools/src/paper_search.rs:132 | missing arguments fail with the missing-arguments error |
| ToolSupport.RequiredText | crates/semantic_scholar_mcp_tools/src/paper_search.rs:134-141 | success exactly for a string that is not blank, returning it; a missing or non-string value and a blank one fail with their own errors |
| ToolSupport.FieldsParams | crates/semantic_scholar_mcp_tools/src/paper_details.rs:207-210 | the parameters hold `fields` exactly when given, and are empty otherwise |
| ToolSupport.CachedText | crates/semantic_scholar_mcp_tools/src/paper_search.rs:188 | a cached result deserialises to text exactly when it is a JSON string |
| ToolSupport.FirstMatch | crates/semantic_scholar_mcp_tools/src/paper_search.rs:182-192 | a match is found exactly when some hit is very similar with the same action and parameters, and it is the first such hit |
| ToolSupport.FindCachedMatch | crates/semantic_scholar_mcp_tools/src/paper_search.rs:182-192 | the scanning loop returns that first match |
| ToolSupport.TopHitRanked | crates/semantic_scholar_mcp_tools/src/paper_citations.rs:182-192 | in a ranked list the top entry is very similar exactly when some entry is, so any scan match implies a top hit |
| ToolSupport.ScanAndFetchSpec | crates/semantic_scholar_mcp_tools/src/paper_search.rs:175-219 | a request only when no cached entry matches; a match answers with its stored text; what is stored is keyed by the text with the action, parameters and embedding, and reads back to the answer; a failed store changes nothing |
| ToolSupport.ScanAndFetchRawSpec | crates/semantic_scholar_mcp_tools/src/paper_recommendation.rs:418-462 | the same, with the raw response stored and formatted again when it is read back |
| ToolSupport.TopAndFetchSpec | crates/semantic_scholar_mcp_tools/src/paper_citations.rs:174-238 | a very similar top entry answers without a request, whatever stored it; the limit is checked only on a miss; what is stored reads back to the answer; a store failure matters exactly when it is fatal |
| PaperSearch.Validate | crates/semantic_scholar_mcp_tools/src/paper_search.rs:132-160 | accepted exactly with a non-blank query and a limit of at most 100 (default 10), and each error case fails with its own error; the default fields, offset 0 and the arguments are kept |
| PaperSearch.ParamsMembers | crates/semantic_scholar_mcp_tools/src/paper_search.rs:162-173 | the parameters hold the query, fields, offset, limit and each filter as given |
| PaperSearch.ParamsDetermineSearch | crates/semantic_scholar_mcp_tools/src/paper_search.rs:162-173 | equal parameters mean the same query, fields, offset and limit |
| PaperSearch.AbsentFilterNotSent | crates/semantic_scholar_mcp_tools/src/paper_search.rs:167-172 | a filter left out of the arguments is null in the parameters and sends no query-string part |
| PaperSearch.FormatSearchResults | crates/semantic_scholar_mcp_tools/src/paper_search.rs:35-125 | the formatter computes the error, empty, missing-data and page texts |
| PaperSearch.FormatPage | crates/semantic_scholar_mcp_tools/src/paper_search.rs:51-117 | the page loop computes the page lines |
| PaperSearch.SearchListing | crates/semantic_scholar_mcp_tools/src/paper_search.rs:51-64 | the header shows the total and results `offset+1` to `offset+n`, and the papers are numbered 1 to n, not from the offset |
| PaperSearch.SearchNextHint | crates/semantic_scholar_mcp_tools/src/paper_search.rs:115-117 | the page ends with the next-offset hint exactly when the response gives one |
| PaperSearch.ExecuteSpec | crates/semantic_scholar_mcp_tools/src/paper_search.rs:130-220 | invalid arguments fail before any effect; a request goes to `/paper/search` with the parameters, spaced 1000 ms; stored entries are keyed by the query and read back to the answer; store failures are ignored |
| AuthorSearch.Validate | crates/semantic_scholar_mcp_tools/src/author_search.rs:184-201 | accepted exactly with a non-blank query and a limit of at most 1000 (default 100), each error with its own error; fields, offset and limit as given |
| AuthorSearch.ParamsMembers | crates/semantic_scholar_mcp_tools/src/author_search.rs:203-212 | the parameters hold query, offset, limit, and fields only when given |
| AuthorSearch.ParamsDetermineSearch | crates/semantic_scholar_mcp_tools/src/author_search.rs:203-212 | equal parameters mean equal validated arguments |
| AuthorSearch.FormatAuthorSearch | crates/semantic_scholar_mcp_tools/src/author_search.rs:34-177 | the formatter computes the error, empty, missing-data and page texts |
| AuthorSearch.FormatPage | crates/semantic_scholar_mcp_tools/src/author_search.rs:51-169 | the page loop computes the page lines |
| AuthorSearch.AuthorBlocks | crates/semantic_scholar_mcp_tools/src/author_search.rs:58-165 | the author loop computes the numbered author blocks |
| AuthorSearch.AuthorLinesOf | crates/semantic_scholar_mcp_tools/src/author_search.rs:75-160 | the per-author code computes the author's lines |
| AuthorSearch.RepresentativeLines | crates/semantic_scholar_mcp_tools/src/author_search.rs:118-159 | the paper loop computes the representative-papers block |
| AuthorSearch.RepresentativeShape | crates/semantic_scholar_mcp_tools/src/author_search.rs:118-159 | at most 3 papers are shown, numbered 1 up; the block ends with "... and N-3 more" exactly when there are more than 3 |
| AuthorSearch.AuthorListing | crates/semantic_scholar_mcp_tools/src/author_search.rs:51-73 | authors are numbered from `offset+1`, and the first and last numbers equal the range in the header |
| AuthorSearch.AuthorNextHint | crates/semantic_scholar_mcp_tools/src/author_search.rs:167-169 | the page ends with the next-offset hint exactly when the response gives one |
| AuthorSearch.ExecuteSpec | crates/semantic_scholar_mcp_tools/src/author_search.rs:182-259 | as for paper search, with `/author/search` spaced 100 ms |
| AuthorSearch.EndpointLimit | crates/semantic_scholar_mcp_tools/src/author_search.rs:233-240 | `/author/search` is not restricted |
| PaperRecommendation.FormatPage | crates/semantic_scholar_mcp_tools/src/paper_recommendation.rs:55-110 | the recommendation loop computes the page lines |
| PaperRecommendation.RecommendationListing | crates/semantic_scholar_mcp_tools/src/paper_recommendation.rs:55-110 | the count in the header equals the number of entries, entries are numbered 1 up, and the page ends with the fields note |
| PaperRecommendation.ValidateSingle | crates/semantic_scholar_mcp_tools/src/paper_recommendation.rs:125-156 | accepted exactly with a non-blank paper id, a limit of at most 500 and a pool of `recent` or `all-cs`, checked in that order, each with its own error |
| PaperRecommendation.SingleParamsDetermine | crates/semantic_scholar_mcp_tools/src/paper_recommendation.rs:158-163 | equal parameters mean the same fields, limit and pool |
| PaperRecommendation.FormatSingle | crates/semantic_scholar_mcp_tools/src/paper_recommendation.rs:40-118 | the formatter computes the error, empty, missing-data and page texts |
| PaperRecommendation.ExecuteSingleSpec | crates/semantic_scholar_mcp_tools/src/paper_recommendation.rs:123-210 | invalid arguments fail before any effect; the request goes to the for-paper endpoint with the parameters and the fifth-argument base URL, spaced 1000 ms; the entry is keyed by the paper id |
| PaperRecommendation.RecommendationsLimited | crates/semantic_scholar_mcp_tools/src/paper_recommendation.rs:184-190 | both recommendation endpoints are restricted to one call per second |
| PaperRecommendation.ValidateMulti | crates/semantic_scholar_mcp_tools/src/paper_recommendation.rs:360-399 | a missing list, an empty list, a list without strings and a limit above 500 each fail with their own error; otherwise the string ids, the string negative ids, fields and limit |
| PaperRecommendation.MultiParamsDetermine | crates/semantic_scholar_mcp_tools/src/paper_recommendation.rs:411-416 | equal request bodies mean equal validated arguments |
| PaperRecommendation.FormatMulti | crates/semantic_scholar_mcp_tools/src/paper_recommendation.rs:268-353 | the formatter computes the error, empty, missing-data and page texts |
| PaperRecommendation.ExecuteMultiSpec | crates/semantic_scholar_mcp_tools/src/paper_recommendation.rs:357-463 | the request is the body to the multi endpoint; the entry is keyed by the query text and holds the raw response, which is formatted again to the same answer |
| PaperRecommendation.QueryTextRoundTrip | crates/semantic_scholar_mcp_tools/src/paper_recommendation.rs:401-405 | the query text can be read back to the ids, negative ids, fields and limit |
| PaperRecommendation.QueryTextInjective | crates/semantic_scholar_mcp_tools/src/paper_recommendation.rs:401-405 | different requests never share a query text |
| DebugText.ReadDebugList | crates/semantic_scholar_mcp_tools/src/paper_recommendation.rs:403 | the `{:?}` text of a list of strings parses back to the list, leaving what follows |
| DebugText.DebugListInjective | crates/semantic_scholar_mcp_tools/src/paper_recommendation.rs:403 | different lists have different `{:?}` texts |
| PaperCitations.InfluenceFlag | crates/semantic_scholar_mcp_tools/src/paper_citations.rs:73-77 | the influential flag is shown exactly when `isInfluential` is true |
| PaperCitations.ContextsShown | crates/semantic_scholar_mcp_tools/src/paper_citations.rs:104-121 | context `j` is listed, as number `j+1`, exactly when it is among the first 3 and a string; the numbers increase |
| PaperCitations.ContextsLast | crates/semantic_scholar_mcp_tools/src/paper_citations.rs:104-121 | the block opens with its caption and ends with "... and N-3 more" exactly when there are more than 3 |
| PaperCitations.FormatCitations | crates/semantic_scholar_mcp_tools/src/paper_citations.rs:34-156 | the formatter computes the error, empty, missing-data and page texts |
| PaperCitations.FormatPage | crates/semantic_scholar_mcp_tools/src/paper_citations.rs:50-148 | the page loop computes the page lines |
| PaperCitations.CitationListing | crates/semantic_scholar_mcp_tools/src/paper_citations.rs:50-148 | the header counts the page, papers are numbered from `offset+1`, and the hint ends the page exactly when given |
| PaperCitations.Validate | crates/semantic_scholar_mcp_tools/src/paper_citations.rs:163-198 | accepted exactly with a non-blank paper id; fields, offset (default 0) and limit (default 100) as given |
| PaperCitations.CitationsRequest | crates/semantic_scholar_mcp_tools/src/paper_citations.rs:200-212 | fails exactly for a limit above 1000; otherwise the citations endpoint with offset, limit, and fields when given |
| PaperCitations.ParamsMembers | crates/semantic_scholar_mcp_tools/src/paper_citations.rs:204-212 | the parameters hold offset, limit, and fields only when given |
| PaperCitations.ExecuteSpec | crates/semantic_scholar_mcp_tools/src/paper_citations.rs:161-239 | a very similar top entry answers with its formatted results before the limit is checked; a miss with a limit above 1000 fails; the stored raw response formats to the answer; store failures are ignored |
| PaperCitations.EndpointLimit | crates/semantic_scholar_mcp_tools/src/paper_citations.rs:214-221 | the citations endpoint of an id without `h` and `m` is spaced 100 ms |
| PaperDetails.ListAuthors | crates/semantic_scholar_mcp_tools/src/paper_details.rs:55-69 | the author loop writes one bullet per author, in order |
| PaperDetails.OpenAccessShown | crates/semantic_scholar_mcp_tools/src/paper_details.rs:110-123 | the open-access line appears exactly for a boolean flag, saying Yes or No; the PDF line exactly when open with a string URL |
| PaperDetails.FormatPaperDetails | crates/semantic_scholar_mcp_tools/src/paper_details.rs:35-172 | the formatter computes the error text or the detail lines |
| PaperDetails.DetailsShape | crates/semantic_scholar_mcp_tools/src/paper_details.rs:43-69 | an error response gives only the error line; otherwise title, paper id, and the authors as bullets after their caption |
| PaperDetails.Validate | crates/semantic_scholar_mcp_tools/src/paper_details.rs:179-205 | accepted exactly with a non-blank paper id, each error with its own error; fields as given |
| PaperDetails.ExecuteSpec | crates/semantic_scholar_mcp_tools/src/paper_details.rs:177-236 | a very similar top entry is formatted without a request; otherwise the details request, whose raw response is stored; a failed store fails the call |
| PaperDetails.EndpointLimit | crates/semantic_scholar_mcp_tools/src/paper_details.rs:212-219 | the details endpoint of an id without `h` and `m` is spaced 100 ms |
| AuthorDetails.StringSectionShown | crates/semantic_scholar_mcp_tools/src/author_details.rs:54-77 | a section appears exactly when the array holds strings: its caption, one bullet per string, a blank line |
| AuthorDetails.StringSectionLines | crates/semantic_scholar_mcp_tools/src/author_details.rs:54-65 | the section loop computes the section |
| AuthorDetails.FirstPapers | crates/semantic_scholar_mcp_tools/src/author_details.rs:112 | `take(10)`: the first min(n, 10) papers |
| AuthorDetails.FormatAuthorDetails | crates/semantic_scholar_mcp_tools/src/author_details.rs:34-181 | the formatter computes the error text or the detail lines |
| AuthorDetails.PapersLines | crates/semantic_scholar_mcp_tools/src/author_details.rs:105-178 | the papers code computes the papers section, the missing-papers note included |
| AuthorDetails.RepresentativeLines | crates/semantic_scholar_mcp_tools/src/author_details.rs:106-171 | the paper loop computes the representative-papers block |
| AuthorDetails.RepresentativeListing | crates/semantic_scholar_mcp_tools/src/author_details.rs:107-122 | min(n, 10) papers are listed, numbered 1 up with their titles and ids |
| AuthorDetails.RepresentativeOverflow | crates/semantic_scholar_mcp_tools/src/author_details.rs:162-171 | more than 10 papers end with "... and N-10 more" and the pointer to author_papers; otherwise the block is the heading and the listing |
| AuthorDetails.DetailsShape | crates/semantic_scholar_mcp_tools/src/author_details.rs:42-52 | a non-error response opens with the name, the author id and a blank line |
| AuthorDetails.MetricsShown | crates/semantic_scholar_mcp_tools/src/author_details.rs:79 | the research-metrics caption is always shown |
| AuthorDetails.Validate | crates/semantic_scholar_mcp_tools/src/author_details.rs:188-218 | accepted exactly with a non-blank author id, each error with its own error; fields as given |
| AuthorDetails.ExecuteSpec | crates/semantic_scholar_mcp_tools/src/author_details.rs:186-250 | a very similar top entry answers with its stored text; otherwise the details request; the stored answer reads back to it; store failures are ignored |
| AuthorDetails.EndpointLimit | crates/semantic_scholar_mcp_tools/src/author_details.rs:225-232 | the author endpoint of an id without `c` is spaced 100 ms |
| AuthorPapers.Validate | crates/semantic_scholar_mcp_tools/src/author_papers.rs:145-164 | accepted exactly with a non-blank author id and a limit of at most 1000 (default 100), each error with its own error |
| AuthorPapers.ParamsMembers | crates/semantic_scholar_mcp_tools/src/author_papers.rs:166-175 | the parameters hold offset, limit, and fields only when given |
| AuthorPapers.ParamsDetermine | crates/semantic_scholar_mcp_tools/src/author_papers.rs:166-175 | equal parameters mean the same fields, offset and limit, and do not depend on the author |
| AuthorPapers.PdfShown | crates/semantic_scholar_mcp_tools/src/author_papers.rs:113-121 | the PDF line is shown exactly for an open-access paper whose PDF entry has a string URL |
| AuthorPapers.FormatAuthorPapers | crates/semantic_scholar_mcp_tools/src/author_papers.rs:34-138 | the formatter computes the error, empty, missing-data and page texts |
| AuthorPapers.FormatPage | crates/semantic_scholar_mcp_tools/src/author_papers.rs:50-130 | the page loop computes the page lines |
| AuthorPapers.PapersListing | crates/semantic_scholar_mcp_tools/src/author_papers.rs:50-71 | the header counts the page and paper k is number `offset+k+1`, so pages continue each other's numbering |
| AuthorPapers.PapersNextHint | crates/semantic_scholar_mcp_tools/src/author_papers.rs:128-130 | the page ends with the next-offset hint exactly when the response gives one |
| AuthorPapers.ExecuteSpec | crates/semantic_scholar_mcp_tools/src/author_papers.rs:143-224 | invalid arguments fail before any effect; a request goes to the author's papers endpoint only on a miss; the entry is keyed by the bare author id; store failures are ignored |
| AuthorPapers.EndpointLimit | crates/semantic_scholar_mcp_tools/src/author_papers.rs:197-204 | the papers endpoint of an id without `c` is spaced 100 ms |
| Interplay.StoredIsFound | crates/local_cache/src/local_cache.rs:40-90 | a query just stored is found again by its own embedding, by the top-entry rule and by the scan rule |
| Interplay.ScanRepeat | crates/semantic_scholar_mcp_tools/src/paper_search.rs:175-215 | repeating a call whose answer was stored sends nothing and stores nothing |
| Interplay.TopRepeat | crates/semantic_scholar_mcp_tools/src/paper_citations.rs:174-232 | the same for the top-entry tools |
| Interplay.Overwritten | crates/local_cache/src/local_cache.rs:42-47 | of two stores with the same text only the later can be returned |
| Interplay.AuthorPagesOverwrite | crates/semantic_scholar_mcp_tools/src/author_papers.rs:209-217 | a second page of the same author evicts the first page's entry |
| Interplay.AuthorPapersOtherAuthor | crates/semantic_scholar_mcp_tools/src/author_papers.rs:178-191 | a very similar cached page of another author with the same fields, offset and limit is returned as the answer |
| Interplay.SearchesShareKeys | crates/semantic_scholar_mcp_tools/src/paper_search.rs:205-213 | a paper search and an author search with the same text share one key, and the later evicts the earlier |
| Interplay.TopEntryAnswers | crates/semantic_scholar_mcp_tools/src/paper_citations.rs:182-192 | a very similar top entry answers whatever its action |
| Interplay.DetailsStoreAnswers | crates/semantic_scholar_mcp_tools/src/author_details.rs:237-245 | author_details stores its answer as a JSON string |
| Interplay.CitationsOfAnswer | crates/semantic_scholar_mcp_tools/src/paper_citations.rs:151-155 | formatting a string as a citations response gives the unexpected-format message |
| Interplay.DetailsFromCitationsEntry | crates/semantic_scholar_mcp_tools/src/author_details.rs:209-216 | a raw citations entry on top makes author_details fail to deserialise |
| Interplay.CitationsFromDetailsEntry | crates/semantic_scholar_mcp_tools/src/paper_citations.rs:182-192 | an author_details entry on top makes paper_citations report no citations, without a request |

## Left out

- Floating point: embeddings and scores are reals. `f32` rounding, NaN and the `unwrap_or(Equal)` comparator are not modelled. The square root is avoided as described above.
- Time: `chrono` timestamps are integer milliseconds passed in as `now`. Sleeping in `acquire` is the returned delay, and the `Instant` recorded is `now + delay`.
- Concurrency: the rate limiter's async mutex is not modelled, and neither are concurrent cache transactions. Each operation is one atomic step.
- Storage: opening the environment and directory creation are not modelled, and neither is reopening data already on disk. The constructor starts from an empty table. Transaction failures are boolean parameters, and serialisation of entries is left out.
- HTTP: the client, the `SEMANTIC_SCHOLAR_API_KEY` header, and the request builder are not modelled; a send is a function from URL to response. `build_query_string` never fails in the source, so its `Result` is dropped.
- Embeddings: the provider is a function parameter that may fail.
- Text layout: formatter output is a sequence of structured lines. Exact whitespace and newlines are not modelled.
- Report.PrefixWithin: the cut of an abstract is made on a character boundary. When the source's `&s[0..n]` byte index falls inside a character, the source panics, and the model does not capture that panic.
- DebugText.ReadDebugList: Rust's `{:?}` escaping is modelled for quote, backslash, `\n`, `\r`, `\t` and `\0` only. The escaping of other control and non-printable characters is not modelled.
- Integer width: offsets and limits are unbounded naturals. `offset + 1` overflowing a `u64` and the `as usize` casts are not modelled, and JSON numbers are integers only.
- Logging (`log::debug!`, `log::warn!`) is left out.
- The `to_tool` schemas, `new` constructors of the tools, `main.rs` and the embedding crates are not part of this model.
- UnrestrictedEndpoint, PaperCitations.EndpointLimit, PaperDetails.EndpointLimit, AuthorDetails.EndpointLimit and AuthorPapers.EndpointLimit hold only for ids without certain letters. Ids are spliced into the path unescaped, so an id holding a restricted path would make the endpoint restricted.
