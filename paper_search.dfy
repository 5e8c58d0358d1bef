/**
 * The `paper_search` tool: validation of its arguments, the parameters it sends to
 * `/paper/search` and caches under, the formatter of the search results, and the call itself.
 */
module PaperSearch {
  import opened Wrappers
  import opened Text
  import opened Json
  import opened SortedTable
  import opened Errors
  import opened RequestUtils
  import opened Report
  import opened ToolSupport

  const Action: string := "paper_search"
  const Endpoint: string := "/paper/search"
  const MaxLimit: nat := 100
  const DefaultLimit: nat := 10
  const DefaultFields: Value :=
    Array([Str("title"), Str("abstract"), Str("year"), Str("citationCount"), Str("authors"), Str("url")])
  /** The optional filters, copied into the parameters as given (or `null`). */
  const FilterKeys: seq<string> :=
    ["publication_types", "open_access_pdf", "min_citation_count", "year", "venue", "fields_of_study"]

  /** The validated arguments; `args` is kept for the filters. */
  datatype SearchArgs = SearchArgs(query: string, fields: Value, offset: nat, limit: nat, args: Value)

  function Validate(arguments: Option<Value>): (r: Result<SearchArgs, Error>)
    ensures r.Success? <==>
              arguments.Some? && RequiredText(arguments.value, "query", "Query string").Success?
              && GetU64(arguments.value, "limit").GetOr(DefaultLimit) <= MaxLimit
    ensures arguments.None? ==> r == Failure(MissingArguments)
    ensures arguments.Some? && RequiredText(arguments.value, "query", "Query string").Failure? ==>
              r == Failure(RequiredText(arguments.value, "query", "Query string").error)
    ensures arguments.Some? && RequiredText(arguments.value, "query", "Query string").Success?
            && GetU64(arguments.value, "limit").GetOr(DefaultLimit) > MaxLimit ==>
              r == Failure(LimitExceeded(MaxLimit))
    ensures r.Success? ==>
              var args := arguments.value;
              && r.value.query == GetStr(args, "query").value
              && r.value.fields == Get(args, "fields").GetOr(DefaultFields)
              && r.value.offset == GetU64(args, "offset").GetOr(0)
              && r.value.limit == GetU64(args, "limit").GetOr(DefaultLimit)
              && r.value.args == args
  {
    var args :- Arguments(arguments);
    var query :- RequiredText(args, "query", "Query string");
    var fields := Get(args, "fields").GetOr(DefaultFields);
    var offset := GetU64(args, "offset").GetOr(0);
    var limit := GetU64(args, "limit").GetOr(DefaultLimit);
    if limit > MaxLimit then Failure(LimitExceeded(MaxLimit))
    else Success(SearchArgs(query, fields, offset, limit, args))
  }

  /** The members of the request, in the order the `json!` literal lists them. */
  function ParamPairs(a: SearchArgs): (pairs: seq<(string, Value)>)
    ensures DistinctKeys(pairs)
  {
    [("query", Str(a.query)), ("fields", a.fields), ("offset", Number(a.offset)), ("limit", Number(a.limit))]
    + seq(|FilterKeys|, i requires 0 <= i < |FilterKeys| => (FilterKeys[i], Index(a.args, FilterKeys[i])))
  }

  /** The `json!` object of the request: the search terms and every filter, `null` when absent. */
  function Params(a: SearchArgs): Value {
    ObjectOf(ParamPairs(a))
  }

  /** The parameters hold the search terms and each filter under its own key. */
  lemma ParamsMembers(a: SearchArgs)
    ensures Get(Params(a), "query") == Some(Str(a.query))
    ensures Get(Params(a), "fields") == Some(a.fields)
    ensures Get(Params(a), "offset") == Some(Number(a.offset))
    ensures Get(Params(a), "limit") == Some(Number(a.limit))
    ensures forall k | k in FilterKeys :: Get(Params(a), k) == Some(Index(a.args, k))
  {
    var pairs := ParamPairs(a);
    ObjectOfMembers(pairs);
    assert pairs[0].0 == "query" && pairs[1].0 == "fields" && pairs[2].0 == "offset" && pairs[3].0 == "limit";
    forall k | k in FilterKeys ensures Get(Params(a), k) == Some(Index(a.args, k)) {
      var i :| 0 <= i < |FilterKeys| && FilterKeys[i] == k;
      assert pairs[4 + i] == (k, Index(a.args, k));
    }
  }

  /**
   * Equal parameters mean the same search: a cached entry with these parameters was made for
   * the same query text, fields, offset and limit.
   */
  lemma ParamsDetermineSearch(a: SearchArgs, b: SearchArgs)
    requires Params(a) == Params(b)
    ensures a.query == b.query && a.fields == b.fields && a.offset == b.offset && a.limit == b.limit
  {
    ParamsMembers(a);
    ParamsMembers(b);
  }

  /** A filter the caller left out is sent as `null`, which adds nothing to the query string. */
  lemma AbsentFilterNotSent(a: SearchArgs, key: string)
    requires key in FilterKeys && Get(a.args, key).None?
    ensures forall f | f in Fields(Params(a).members) :: f.0 != key
  {
    ParamsMembers(a);
    NullOmitted(Params(a), key);
  }

  // ----- format_search_results

  function PaperTitle(paper: Value): string {
    GetStr(paper, "title").GetOr("Unknown title")
  }

  /** The lines under a paper's title; abstracts are cut at 300 bytes. */
  function PaperBody(paper: Value): (r: seq<Line>)
    ensures FieldsOnly(r)
  {
    AuthorsField(paper) + NumberField(paper, "year", "Year") + NonEmptyField(paper, "venue", "Venue")
    + NumberField(paper, "citationCount", "Citations") + AbstractField(paper, Some(300))
    + StrField(paper, "url", "URL") + StrField(paper, "paperId", "Paper ID")
  }

  /** The "For more results" hint when the response names a next offset. */
  function NextHint(next: Option<nat>): seq<Line> {
    match next
    case Some(n) => [Blank, Next(n, "results")]
    case None => []
  }

  function SearchLines(response: Value): seq<Line> {
    if HasError(response) then ErrorLines(response)
    else
      match GetArray(response, "data")
      case None => [Message("No results found or unexpected API response format.")]
      case Some(data) =>
        if |data| == 0 then [Message("No papers found matching your criteria.")]
        else Page(GetU64(response, "total").GetOr(0), GetU64(response, "offset").GetOr(0), GetU64(response, "next"), data)
  }

  /** A non-empty page of results: the range header, the listing and the next-offset hint. */
  function Page(total: nat, offset: nat, next: Option<nat>, data: seq<Value>): seq<Line> {
    [Range(total, offset + 1, offset + |data|, "papers matching your query"), Blank]
    + Listing(data, 1, PaperTitle, PaperBody) + NextHint(next)
  }

  function FormatText(response: Value): string {
    Render(SearchLines(response))
  }

  method FormatSearchResults(response: Value) returns (text: string)
    ensures text == FormatText(response)
  {
    if HasError(response) {
      return Render(ErrorLines(response));
    }
    match GetArray(response, "data")
    case None =>
      text := Render([Message("No results found or unexpected API response format.")]);
    case Some(data) =>
      if |data| == 0 {
        return Render([Message("No papers found matching your criteria.")]);
      }
      var total := GetU64(response, "total").GetOr(0);
      var offset := GetU64(response, "offset").GetOr(0);
      var lines := FormatPage(total, offset, GetU64(response, "next"), data);
      text := Render(lines);
  }

  /** The header, the loop over the papers and the hint of a non-empty page. */
  method FormatPage(total: nat, offset: nat, next: Option<nat>, data: seq<Value>) returns (lines: seq<Line>)
    ensures lines == Page(total, offset, next, data)
  {
    lines := [Range(total, offset + 1, offset + |data|, "papers matching your query"), Blank];
    var items := ListLines(data, 1, PaperTitle, PaperBody);
    lines := lines + items;
    if next.Some? {
      lines := lines + [Blank, Next(next.value, "results")];
    }
  }

  /**
   * A non-empty page is announced with the total and the range `offset + 1` to
   * `offset + len`, and its papers are numbered from 1 (not from the offset) in order, one
   * entry per paper.
   */
  lemma SearchListing(total: nat, offset: nat, next: Option<nat>, data: seq<Value>)
    requires |data| > 0
    ensures var lines := Page(total, offset, next, data);
            && lines[0] == Range(total, offset + 1, offset + |data|, "papers matching your query")
            && |Entries(lines)| == |data|
            && forall k | 0 <= k < |data| :: Entries(lines)[k].0 == 1 + k && Entries(lines)[k].1 == PaperTitle(data[k])
  {
    var head := [Range(total, offset + 1, offset + |data|, "papers matching your query"), Blank];
    BodiesWithoutEntries(data);
    FramedListing(head, data, 1, PaperTitle, PaperBody, NextHint(next));
  }

  lemma BodiesWithoutEntries(data: seq<Value>)
    ensures forall j | 0 <= j < |data| :: NoEntries(PaperBody(data[j]))
  {
  }

  /** A page ends with the next-offset hint exactly when the response gives a next offset. */
  lemma SearchNextHint(total: nat, offset: nat, next: Option<nat>, data: seq<Value>)
    requires |data| > 0
    ensures var lines := Page(total, offset, next, data);
            && (lines[|lines| - 1].Next? <==> next.Some?)
            && (next.Some? ==> lines[|lines| - 1] == Next(next.value, "results"))
  {
    ListingLast(data, 1, PaperTitle, PaperBody);
  }

  // ----- execute

  function Execute(arguments: Option<Value>, s: Services): Outcome {
    match Validate(arguments)
    case Failure(e) => Rejected(e)
    case Success(a) => ScanAndFetch(s, a.query, Action, Params(a), Request(Endpoint, Params(a), None), FormatText)
  }

  /**
   * Invalid arguments fail before anything is embedded, searched or sent; a request goes to
   * `/paper/search`, which the rate limiter spaces one second apart, only when no cached entry
   * matches; what is stored is keyed by the raw query and gives back the answer returned; a
   * failed store does not change the answer.
   */
  lemma ExecuteSpec(arguments: Option<Value>, s: Services)
    ensures Validate(arguments).Failure? ==> Execute(arguments, s) == Rejected(Validate(arguments).error)
    ensures var o := Execute(arguments, s);
            && (o.request.Some? ==>
                  Validate(arguments).Success?
                  && o.request.value == Request(Endpoint, Params(Validate(arguments).value), None)
                  && RateLimit(RestrictedEndpoints, o.request.value.endpoint) == 1000)
            && (o.stored.Some? ==>
                  o.stored.value.text == Validate(arguments).value.query && o.stored.value.action == Action
                  && CachedText(o.stored.value.results) == o.result)
            && o == Execute(arguments, s.(storeOk := !s.storeOk))
  {
    if Validate(arguments).Success? {
      var a := Validate(arguments).value;
      ScanAndFetchSpec(s, a.query, Action, Params(a), Request(Endpoint, Params(a), None), FormatText);
      RateLimitIff(RestrictedEndpoints, Endpoint);
      assert OccursAt(Endpoint, "/paper/search", 0);
      assert "/paper/search" in RestrictedEndpoints;
    }
  }
}
