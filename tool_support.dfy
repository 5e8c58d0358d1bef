/**
 * What the tools share: the services a call runs against, the observable outcome of a call,
 * argument validation, and the two cache-hit rules of the tools: the scan for the first very
 * similar entry with the same action and parameters, and the look at the top entry only.
 */
module ToolSupport {
  import opened Wrappers
  import opened Text
  import opened Json
  import opened SortedTable
  import opened CacheModel
  import opened Similarity
  import opened Errors
  import opened LocalCacheModel

  /**
   * A call of `make_request`: the endpoint, the parameters that become the query string, and
   * the base-URL argument the recommendation tools pass in fifth position.
   */
  datatype Request = Request(endpoint: string, params: Value, base: Option<string>)

  /**
   * The environment of one call: the embedding provider (`None` when it fails), the cache's
   * similarity search, the API behind `make_request`, and whether `store` commits.
   */
  datatype Services = Services(
    embed: string -> Option<seq<real>>,
    search: seq<real> -> Result<seq<Hit>, Error>,
    respond: Request -> Result<Value, Error>,
    storeOk: bool)

  /** The answer of a call, the request it sent, and the query it handed to `store`. */
  datatype Outcome = Outcome(result: Result<string, Error>, request: Option<Request>, stored: Option<Query>)

  /** A call that fails before it embeds, searches or sends anything. */
  function Rejected(e: Error): Outcome {
    Outcome(Failure(e), None, None)
  }

  /** `arguments.ok_or_else(..)`. */
  function Arguments(arguments: Option<Value>): (r: Result<Value, Error>)
    ensures r.Success? <==> arguments.Some?
    ensures r.Failure? ==> r.error == MissingArguments
  {
    match arguments
    case Some(args) => Success(args)
    case None => Failure(MissingArguments)
  }

  /**
   * A required string argument: missing or not a string is `MissingParameter(key)`, blank
   * once trimmed is `EmptyParameter(name)`; the untrimmed string otherwise.
   */
  function RequiredText(args: Value, key: string, name: string): (r: Result<string, Error>)
    ensures r.Success? <==> GetStr(args, key).Some? && !IsBlank(GetStr(args, key).value)
    ensures r.Success? ==> r.value == GetStr(args, key).value
    ensures GetStr(args, key).None? ==> r == Failure(MissingParameter(key))
    ensures GetStr(args, key).Some? && IsBlank(GetStr(args, key).value) ==> r == Failure(EmptyParameter(name))
  {
    match GetStr(args, key)
    case None => Failure(MissingParameter(key))
    case Some(s) => if IsBlank(s) then Failure(EmptyParameter(name)) else Success(s)
  }

  /** `{"fields": fields}` when the caller gave fields, `{}` otherwise. */
  function FieldsParams(fields: Option<Value>): (p: Value)
    ensures p.Object? && Get(p, "fields") == fields
    ensures fields.None? ==> p.members == []
  {
    match fields
    case Some(f) => ObjectOfMembers([("fields", f)]); ObjectOf([("fields", f)])
    case None => Object([])
  }

  /** `serde_json::from_value::<String>(results)`: a cached answer is a JSON string. */
  function CachedText(results: Value): (r: Result<string, Error>)
    ensures r.Success? <==> results.Str?
    ensures r.Success? ==> results == Str(r.value)
    ensures r.Failure? ==> r.error == Deserialize
  {
    if results.Str? then Success(results.s) else Failure(Deserialize)
  }

  // ----- The scanning rule (`for (cached_query, similarity) in similar_queries.iter()`)

  /** An entry that answers the call: very similar, same action, same parameters. */
  predicate Matches(h: Hit, action: string, params: Value) {
    VerySimilar(h.score) && h.query.action == action && h.query.params == Some(params)
  }

  /** The query of the first matching hit, in the order the search returned them. */
  function FirstMatch(similar: seq<Hit>, action: string, params: Value): (r: Option<Query>)
    ensures r.Some? <==> exists i :: 0 <= i < |similar| && Matches(similar[i], action, params)
    ensures r.Some? ==>
              exists i :: 0 <= i < |similar| && Matches(similar[i], action, params) && similar[i].query == r.value
                          && forall j | 0 <= j < i :: !Matches(similar[j], action, params)
    decreases |similar|
  {
    if |similar| == 0 then None
    else if Matches(similar[0], action, params) then Some(similar[0].query)
    else
      var r := FirstMatch(similar[1..], action, params);
      assert forall i | 1 <= i < |similar| :: similar[i] == similar[1..][i - 1];
      if r.Some? then
        var i :| 0 <= i < |similar| - 1 && Matches(similar[1..][i], action, params) && similar[1..][i].query == r.value
                 && forall j | 0 <= j < i :: !Matches(similar[1..][j], action, params);
        assert Matches(similar[i + 1], action, params) && similar[i + 1].query == r.value;
        r
      else r
  }

  /** The scan, with its early return on the first matching entry. */
  method FindCachedMatch(similar: seq<Hit>, action: string, params: Value) returns (found: Option<Query>)
    ensures found == FirstMatch(similar, action, params)
  {
    for i := 0 to |similar|
      invariant FirstMatch(similar[i..], action, params) == FirstMatch(similar, action, params)
    {
      var h := similar[i];
      if VerySimilar(h.score) && h.query.action == action {
        if h.query.params == Some(params) {
          return Some(h.query);
        }
      }
      assert similar[i..][1..] == similar[i + 1..];
    }
    assert similar[|similar|..] == [];
    return None;
  }

  // ----- The top-entry rule (`similar_queries[0].1 > 0.95`)

  /** The first hit's query when it is very similar, whatever its action and parameters. */
  function TopHit(similar: seq<Hit>): Option<Query> {
    if |similar| > 0 && VerySimilar(similar[0].score) then Some(similar[0].query) else None
  }

  /**
   * On a ranking (highest score first) looking at the top entry is looking for any very
   * similar entry: the top one answers exactly when some entry is very similar, and a scan
   * hit implies a top hit.
   */
  lemma TopHitRanked(similar: seq<Hit>, action: string, params: Value)
    requires NonIncreasing(similar)
    ensures TopHit(similar).Some? <==> exists i :: 0 <= i < |similar| && VerySimilar(similar[i].score)
    ensures FirstMatch(similar, action, params).Some? ==> TopHit(similar).Some?
  {
    if exists i :: 0 <= i < |similar| && VerySimilar(similar[i].score) {
      var i :| 0 <= i < |similar| && VerySimilar(similar[i].score);
      if i > 0 {
        assert similar[0].score >= similar[i].score;
      }
    }
  }

  // ----- The cache-then-request skeleton of the scanning tools

  /**
   * Embed `text`, scan the similar queries, answer from the first match; otherwise send
   * `request`, format the response, and hand the formatted answer to `store` under `text`
   * (a store failure is only logged).
   */
  function ScanAndFetch(s: Services, text: string, action: string, params: Value, request: Request, format: Value -> string): Outcome {
    match s.embed(text)
    case None => Rejected(Embedding)
    case Some(e) =>
      match s.search(e)
      case Failure(err) => Rejected(err)
      case Success(similar) =>
        match FirstMatch(similar, action, params)
        case Some(q) => Outcome(CachedText(q.results), None, None)
        case None =>
          match s.respond(request)
          case Failure(err) => Outcome(Failure(err), Some(request), None)
          case Success(raw) =>
            var answer := format(raw);
            Outcome(Success(answer), Some(request), Some(Query(action, text, Some(params), e, Str(answer))))
  }

  /**
   * What the skeleton guarantees: a request only when no cached entry matches, and then the
   * given one; a cached match is answered with its stored text; what is stored is keyed by
   * `text`, carries the action, parameters and embedding, and deserialises back to the answer
   * that was returned; and whether the store commits changes nothing.
   */
  lemma ScanAndFetchSpec(s: Services, text: string, action: string, params: Value, request: Request, format: Value -> string)
    ensures var o := ScanAndFetch(s, text, action, params, request, format);
            && (o.request.Some? ==>
                  o.request == Some(request) && s.embed(text).Some? && s.search(s.embed(text).value).Success?
                  && FirstMatch(s.search(s.embed(text).value).value, action, params).None?)
            && (s.embed(text).Some? && s.search(s.embed(text).value).Success?
                && FirstMatch(s.search(s.embed(text).value).value, action, params).Some? ==>
                  o.request.None? && o.stored.None?
                  && o.result == CachedText(FirstMatch(s.search(s.embed(text).value).value, action, params).value.results))
            && (o.stored.Some? ==>
                  o.request == Some(request) && s.respond(request).Success?
                  && o.stored.value.text == text && o.stored.value.action == action
                  && o.stored.value.params == Some(params) && o.stored.value.embedding == s.embed(text).value
                  && o.result.Success? && CachedText(o.stored.value.results) == o.result
                  && o.result.value == format(s.respond(request).value))
            && o == ScanAndFetch(s.(storeOk := !s.storeOk), text, action, params, request, format)
  {
  }

  /**
   * The skeleton of `paper_recommendations_multi`: like `ScanAndFetch`, but the cache holds the
   * raw response, so a cached match is formatted again and what is stored is the response.
   */
  function ScanAndFetchRaw(s: Services, text: string, action: string, params: Value, request: Request, format: Value -> string): Outcome {
    match s.embed(text)
    case None => Rejected(Embedding)
    case Some(e) =>
      match s.search(e)
      case Failure(err) => Rejected(err)
      case Success(similar) =>
        match FirstMatch(similar, action, params)
        case Some(q) => Outcome(Success(format(q.results)), None, None)
        case None =>
          match s.respond(request)
          case Failure(err) => Outcome(Failure(err), Some(request), None)
          case Success(raw) => Outcome(Success(format(raw)), Some(request), Some(Query(action, text, Some(params), e, raw)))
  }

  /**
   * A request only when no cached entry matches; a cached match is answered by formatting its
   * stored response; what is stored is that response, keyed by `text`, so formatting it again
   * gives the answer returned.
   */
  lemma ScanAndFetchRawSpec(s: Services, text: string, action: string, params: Value, request: Request, format: Value -> string)
    ensures var o := ScanAndFetchRaw(s, text, action, params, request, format);
            && (o.request.Some? ==>
                  o.request == Some(request) && s.embed(text).Some? && s.search(s.embed(text).value).Success?
                  && FirstMatch(s.search(s.embed(text).value).value, action, params).None?)
            && (s.embed(text).Some? && s.search(s.embed(text).value).Success?
                && FirstMatch(s.search(s.embed(text).value).value, action, params).Some? ==>
                  o.request.None? && o.stored.None?
                  && o.result == Success(format(FirstMatch(s.search(s.embed(text).value).value, action, params).value.results)))
            && (o.stored.Some? ==>
                  o.request == Some(request) && s.respond(request).Success?
                  && o.stored.value.text == text && o.stored.value.action == action
                  && o.stored.value.params == Some(params) && o.stored.value.embedding == s.embed(text).value
                  && o.stored.value.results == s.respond(request).value
                  && o.result == Success(format(o.stored.value.results)))
            && o == ScanAndFetchRaw(s.(storeOk := !s.storeOk), text, action, params, request, format)
  {
  }

  // ----- The top-entry skeleton of `paper_citations`, `paper_details` and `author_details`

  /** What such a tool keeps in the cache: the raw response, or the formatted answer. */
  datatype Kept = RawResponse | FormattedAnswer

  /** A cached entry read back: a raw response is formatted again, an answer deserialised. */
  function FromCache(kept: Kept, results: Value, format: Value -> string): Result<string, Error> {
    match kept
    case RawResponse => Success(format(results))
    case FormattedAnswer => CachedText(results)
  }

  /**
   * Embed `text`; when the top similar entry is very similar, answer from it whatever its
   * action, parameters and text; otherwise build the request (which may still fail), send it,
   * and hand the response or its formatted answer to `store` under `text`, with no action and
   * no parameters; a store failure is only logged unless `storeFatal`.
   */
  function TopAndFetch(s: Services, text: string, request: Result<Request, Error>, format: Value -> string,
                       kept: Kept, storeFatal: bool): Outcome {
    match s.embed(text)
    case None => Rejected(Embedding)
    case Some(e) =>
      match s.search(e)
      case Failure(err) => Rejected(err)
      case Success(similar) =>
        match TopHit(similar)
        case Some(q) => Outcome(FromCache(kept, q.results, format), None, None)
        case None =>
          match request
          case Failure(err) => Rejected(err)
          case Success(req) =>
            match s.respond(req)
            case Failure(err) => Outcome(Failure(err), Some(req), None)
            case Success(raw) =>
              var answer := format(raw);
              var results := match kept case RawResponse => raw case FormattedAnswer => Str(answer);
              var stored := Some(Query("", text, None, e, results));
              if storeFatal && !s.storeOk then Outcome(Failure(Storage), Some(req), stored)
              else Outcome(Success(answer), Some(req), stored)
  }

  /**
   * What the skeleton guarantees: a very similar top entry answers without a request, even when
   * the request could not have been built; the request is checked only on a miss, and sent
   * only then; what is stored is keyed by `text` and reads back to the answer returned; and
   * the store's success matters exactly when it is fatal.
   */
  lemma TopAndFetchSpec(s: Services, text: string, request: Result<Request, Error>, format: Value -> string,
                        kept: Kept, storeFatal: bool)
    ensures var o := TopAndFetch(s, text, request, format, kept, storeFatal);
            && (o.request.Some? ==>
                  request.Success? && o.request == Some(request.value) && s.embed(text).Some?
                  && s.search(s.embed(text).value).Success? && TopHit(s.search(s.embed(text).value).value).None?)
            && (s.embed(text).Some? && s.search(s.embed(text).value).Success?
                && TopHit(s.search(s.embed(text).value).value).Some? ==>
                  o.request.None? && o.stored.None?
                  && o.result == FromCache(kept, TopHit(s.search(s.embed(text).value).value).value.results, format))
            && (s.embed(text).Some? && s.search(s.embed(text).value).Success?
                && TopHit(s.search(s.embed(text).value).value).None? && request.Failure? ==>
                  o == Rejected(request.error))
            && (o.stored.Some? ==>
                  o.request.Some? && s.respond(o.request.value).Success?
                  && o.stored.value.text == text && o.stored.value.action == "" && o.stored.value.params.None?
                  && o.stored.value.embedding == s.embed(text).value
                  && FromCache(kept, o.stored.value.results, format) == Success(format(s.respond(o.request.value).value))
                  && (o.result.Success? || (storeFatal && !s.storeOk && o.result == Failure(Storage)))
                  && (o.result.Success? ==> o.result == Success(format(s.respond(o.request.value).value))))
            && (!storeFatal ==> o == TopAndFetch(s.(storeOk := !s.storeOk), text, request, format, kept, storeFatal))
  {
  }
}
