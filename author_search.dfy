/**
 * The `author_search` tool: validation, the parameters sent to `/author/search`, the
 * formatter of the matching authors (with up to three representative papers each), and the
 * call itself.
 */
module AuthorSearch {
  import opened Wrappers
  import opened Text
  import opened Json
  import opened SortedTable
  import opened Errors
  import opened RequestUtils
  import opened Report
  import opened ToolSupport

  const Action: string := "author_search"
  const Endpoint: string := "/author/search"
  const MaxLimit: nat := 1000
  const DefaultLimit: nat := 100
  /** How many representative papers are listed per author. */
  const ShownPapers: nat := 3

  datatype SearchArgs = SearchArgs(query: string, fields: Option<Value>, offset: nat, limit: nat)

  function Validate(arguments: Option<Value>): (r: Result<SearchArgs, Error>)
    ensures r.Success? <==>
              arguments.Some? && RequiredText(arguments.value, "query", "Query string").Success?
              && GetU64(arguments.value, "limit").GetOr(DefaultLimit) <= MaxLimit
    ensures arguments.None? ==> r == Failure(MissingArguments)
    ensures arguments.Some? && RequiredText(arguments.value, "query", "Query string").Failure? ==>
              r == Failure(RequiredText(arguments.value, "query", "Query string").error)
    ensures arguments.Some? && RequiredText(arguments.value, "query", "Query string").Success?
            && GetU64(arguments.value, "limit").GetOr(DefaultLimit) > MaxLimit ==>
              r == Failure(LimitExceeded(MaxLimit))
    ensures r.Success? ==>
              var args := arguments.value;
              && r.value.query == GetStr(args, "query").value
              && r.value.fields == Get(args, "fields")
              && r.value.offset == GetU64(args, "offset").GetOr(0)
              && r.value.limit == GetU64(args, "limit").GetOr(DefaultLimit)
  {
    var args :- Arguments(arguments);
    var query :- RequiredText(args, "query", "Query string");
    var fields := Get(args, "fields");
    var offset := GetU64(args, "offset").GetOr(0);
    var limit := GetU64(args, "limit").GetOr(DefaultLimit);
    if limit > MaxLimit then Failure(LimitExceeded(MaxLimit))
    else Success(SearchArgs(query, fields, offset, limit))
  }

  /** The inserts into `params_map`: query, offset and limit, then the fields when given. */
  function ParamPairs(a: SearchArgs): (pairs: seq<(string, Value)>)
    ensures DistinctKeys(pairs)
  {
    [("query", Str(a.query)), ("offset", Number(a.offset)), ("limit", Number(a.limit))]
    + match a.fields case Some(f) => [("fields", f)] case None => []
  }

  function Params(a: SearchArgs): Value {
    ObjectOf(ParamPairs(a))
  }

  /** The parameters hold the query, the offset, the limit, and the fields only when given. */
  lemma ParamsMembers(a: SearchArgs)
    ensures Get(Params(a), "query") == Some(Str(a.query))
    ensures Get(Params(a), "offset") == Some(Number(a.offset))
    ensures Get(Params(a), "limit") == Some(Number(a.limit))
    ensures Get(Params(a), "fields") == a.fields
  {
    var pairs := ParamPairs(a);
    ObjectOfMembers(pairs);
    assert pairs[0].0 == "query" && pairs[1].0 == "offset" && pairs[2].0 == "limit";
    if a.fields.Some? {
      assert pairs[3] == ("fields", a.fields.value);
    } else {
      ObjectOfGet(pairs, "fields");
      LastForMissing(pairs, "fields");
    }
  }

  /** Equal parameters mean the same query text, fields, offset and limit. */
  lemma ParamsDetermineSearch(a: SearchArgs, b: SearchArgs)
    requires Params(a) == Params(b)
    ensures a == b
  {
    ParamsMembers(a);
    ParamsMembers(b);
  }

  // ----- format_author_search

  function AuthorHead(author: Value): string {
    GetStr(author, "name").GetOr("Unknown name") + " (ID: " + GetStr(author, "authorId").GetOr("Unknown ID") + ")"
  }

  function Least(a: nat, b: nat): nat {
    if a < b then a else b
  }

  /** The lines under a representative paper. */
  function PaperDetails(paper: Value): (r: seq<Line>)
    ensures FieldsOnly(r)
  {
    NumberField(paper, "year", "Year") + NonEmptyField(paper, "venue", "Venue")
  }

  /** The representative papers: a heading with the count, the first three, and the rest's count. */
  function Representative(papers: seq<Value>): seq<Line> {
    if |papers| == 0 then []
    else
      [Note("Representative papers (showing up to 3 of " + NatToString(|papers|) + "):")]
      + Nest(papers, 0, Least(ShownPapers, |papers|), TitleWithId, PaperDetails)
      + (if |papers| > ShownPapers then [More(|papers| - ShownPapers, "papers")] else [])
  }

  function PapersOf(author: Value): seq<Line> {
    match GetArray(author, "papers")
    case Some(papers) => Representative(papers)
    case None => []
  }

  /** The fields under an author's name, before the representative papers. */
  function AuthorFacts(author: Value): (r: seq<Line>)
    ensures FieldsOnly(r)
  {
    StringsField(author, "affiliations", "Affiliations") + StringsField(author, "aliases", "Also known as")
    + NumberField(author, "paperCount", "Papers") + NumberField(author, "citationCount", "Citations")
    + NumberField(author, "hIndex", "h-index") + NonEmptyField(author, "homepage", "Homepage")
    + StrField(author, "url", "Semantic Scholar URL")
  }

  /** The lines under an author's name. */
  function AuthorBody(author: Value): seq<Line> {
    AuthorFacts(author) + PapersOf(author)
  }

  function NextHint(next: Option<nat>): seq<Line> {
    match next
    case Some(n) => [Blank, Next(n, "authors")]
    case None => []
  }

  /** A non-empty page: the range header, the authors numbered from `offset + 1`, the hint. */
  function Page(total: nat, offset: nat, next: Option<nat>, data: seq<Value>): seq<Line> {
    [Range(total, offset + 1, offset + |data|, "authors matching your query"), Blank]
    + Listing(data, offset + 1, AuthorHead, AuthorBody) + NextHint(next)
  }

  function AuthorLines(response: Value): seq<Line> {
    if HasError(response) then ErrorLines(response)
    else
      match GetArray(response, "data")
      case None => [Message("No authors found or unexpected API response format.")]
      case Some(data) =>
        if |data| == 0 then [Message("No authors found matching your query.")]
        else Page(GetU64(response, "total").GetOr(0), GetU64(response, "offset").GetOr(0), GetU64(response, "next"), data)
  }

  function FormatText(response: Value): string {
    Render(AuthorLines(response))
  }

  method FormatAuthorSearch(response: Value) returns (text: string)
    ensures text == FormatText(response)
  {
    if HasError(response) {
      return Render(ErrorLines(response));
    }
    var total := GetU64(response, "total").GetOr(0);
    var offset := GetU64(response, "offset").GetOr(0);
    var next := GetU64(response, "next");
    match GetArray(response, "data")
    case None =>
      text := Render([Message("No authors found or unexpected API response format.")]);
    case Some(data) =>
      if |data| == 0 {
        return Render([Message("No authors found matching your query.")]);
      }
      var lines := FormatPage(total, offset, next, data);
      text := Render(lines);
  }

  /** The header, the loop over the authors and the hint of a non-empty page. */
  method FormatPage(total: nat, offset: nat, next: Option<nat>, data: seq<Value>) returns (lines: seq<Line>)
    ensures lines == Page(total, offset, next, data)
  {
    lines := [Range(total, offset + 1, offset + |data|, "authors matching your query"), Blank];
    var items := AuthorBlocks(data, offset + 1);
    lines := lines + items;
    if next.Some? {
      lines := lines + [Blank, Next(next.value, "authors")];
    }
  }

  /** The loop over the authors, each block's body built by `AuthorLinesOf`. */
  method AuthorBlocks(data: seq<Value>, first: nat) returns (lines: seq<Line>)
    ensures lines == Listing(data, first, AuthorHead, AuthorBody)
  {
    lines := [];
    for i := 0 to |data|
      invariant lines + BlocksFrom(data, first, AuthorHead, AuthorBody, i) == Listing(data, first, AuthorHead, AuthorBody)
    {
      var author := data[i];
      var body := AuthorLinesOf(author);
      var sep: seq<Line> := if i < |data| - 1 then [Blank] else [];
      ListingStep(data, first, AuthorHead, AuthorBody, i, lines, body);
      lines := lines + ([Entry(first + i, AuthorHead(author))] + body + sep);
    }
    ListingDone(data, first, AuthorHead, AuthorBody, lines);
  }

  /** The lines under one author's entry, with the inner loop over the first three papers. */
  method AuthorLinesOf(author: Value) returns (lines: seq<Line>)
    ensures lines == AuthorBody(author)
  {
    lines := AuthorFacts(author);
    var papers := GetArray(author, "papers");
    if papers.Some? {
      var shown := RepresentativeLines(papers.value);
      lines := lines + shown;
    }
  }

  method RepresentativeLines(papers: seq<Value>) returns (lines: seq<Line>)
    ensures lines == Representative(papers)
  {
    if |papers| == 0 {
      return [];
    }
    lines := [Note("Representative papers (showing up to 3 of " + NatToString(|papers|) + "):")];
    var shown := NestLines(papers, Least(ShownPapers, |papers|), TitleWithId, PaperDetails);
    lines := lines + shown;
    if |papers| > ShownPapers {
      lines := lines + [More(|papers| - ShownPapers, "papers")];
    }
  }

  /**
   * At most three representative papers are listed, numbered 1 to 3; the rest are counted in a
   * final "more papers" line, which appears exactly when there are more than three.
   */
  lemma RepresentativeShape(papers: seq<Value>)
    requires |papers| > 0
    ensures var r, shown := Representative(papers), Least(ShownPapers, |papers|);
            var ns := NestedNumbers(r);
            && |ns| == shown && (forall j | 0 <= j < shown :: ns[j] == j + 1)
            && (|papers| > ShownPapers ==> r[|r| - 1] == More(|papers| - ShownPapers, "papers"))
            && (|papers| <= ShownPapers ==> forall i | 0 <= i < |r| :: !r[i].More?)
  {
    var n := Least(ShownPapers, |papers|);
    var heading := [Note("Representative papers (showing up to 3 of " + NatToString(|papers|) + "):")];
    var shown := Nest(papers, 0, n, TitleWithId, PaperDetails);
    var more: seq<Line> := if |papers| > ShownPapers then [More(|papers| - ShownPapers, "papers")] else [];
    assert Representative(papers) == heading + shown + more;
    NestNumbers(papers, 0, n, TitleWithId, PaperDetails);
    NestKinds(papers, 0, n, TitleWithId, PaperDetails);
    NestedConcat(heading, shown);
    NestedConcat(heading + shown, more);
    assert NestedNumbers(heading) == [];
    assert NestedNumbers(more) == [];
  }

  /**
   * The authors of a page are numbered from `offset + 1` in order, so the numbers agree with
   * the range in the header.
   */
  lemma AuthorListing(total: nat, offset: nat, next: Option<nat>, data: seq<Value>)
    requires |data| > 0
    ensures var lines := Page(total, offset, next, data);
            && lines[0] == Range(total, offset + 1, offset + |data|, "authors matching your query")
            && |Entries(lines)| == |data|
            && (forall k | 0 <= k < |data| :: Entries(lines)[k].0 == offset + 1 + k && Entries(lines)[k].1 == AuthorHead(data[k]))
            && Entries(lines)[0].0 == lines[0].first && Entries(lines)[|data| - 1].0 == lines[0].last
  {
    var head := [Range(total, offset + 1, offset + |data|, "authors matching your query"), Blank];
    BodiesWithoutEntries(data);
    FramedListing(head, data, offset + 1, AuthorHead, AuthorBody, NextHint(next));
  }

  lemma BodiesWithoutEntries(data: seq<Value>)
    ensures forall j | 0 <= j < |data| :: NoEntries(AuthorBody(data[j]))
  {
    BodiesInner(data);
    forall j | 0 <= j < |data| ensures NoEntries(AuthorBody(data[j])) {
      InnerNoEntries(AuthorBody(data[j]));
    }
  }

  lemma BodiesInner(data: seq<Value>)
    ensures forall j | 0 <= j < |data| :: Inner(AuthorBody(data[j]))
  {
    forall j | 0 <= j < |data| ensures Inner(AuthorBody(data[j])) {
      BodyInner(data[j]);
    }
  }

  /** An author's block holds fields and the representative papers, nothing else. */
  lemma BodyInner(author: Value)
    ensures Inner(AuthorBody(author))
  {
    var facts := AuthorFacts(author);
    assert Inner(facts);
    if GetArray(author, "papers").Some? {
      RepresentativeInner(GetArray(author, "papers").value);
    }
    InnerConcat(facts, PapersOf(author));
  }

  lemma RepresentativeInner(papers: seq<Value>)
    ensures Inner(Representative(papers))
  {
    if |papers| > 0 {
      var n := Least(ShownPapers, |papers|);
      var heading := [Note("Representative papers (showing up to 3 of " + NatToString(|papers|) + "):")];
      var shown := Nest(papers, 0, n, TitleWithId, PaperDetails);
      var more: seq<Line> := if |papers| > ShownPapers then [More(|papers| - ShownPapers, "papers")] else [];
      NestKinds(papers, 0, n, TitleWithId, PaperDetails);
      InnerConcat(heading, shown);
      InnerConcat(heading + shown, more);
      assert Representative(papers) == heading + shown + more;
    }
  }

  /** A page ends with the next-offset hint exactly when the response gives a next offset. */
  lemma AuthorNextHint(total: nat, offset: nat, next: Option<nat>, data: seq<Value>)
    requires |data| > 0
    ensures var lines := Page(total, offset, next, data);
            && (lines[|lines| - 1].Next? <==> next.Some?)
            && (next.Some? ==> lines[|lines| - 1] == Next(next.value, "authors"))
  {
    var head := [Range(total, offset + 1, offset + |data|, "authors matching your query"), Blank];
    BodiesInner(data);
    FramedLast(head, data, offset + 1, AuthorHead, AuthorBody, NextHint(next));
  }

  // ----- execute

  function Execute(arguments: Option<Value>, s: Services): Outcome {
    match Validate(arguments)
    case Failure(e) => Rejected(e)
    case Success(a) => ScanAndFetch(s, a.query, Action, Params(a), Request(Endpoint, Params(a), None), FormatText)
  }

  /**
   * Invalid arguments fail before anything is embedded, searched or sent; a request goes to
   * `/author/search`, spaced only 100 ms apart, and only when no cached entry matches; what is
   * stored is keyed by the raw query and gives back the answer returned.
   */
  lemma ExecuteSpec(arguments: Option<Value>, s: Services)
    ensures Validate(arguments).Failure? ==> Execute(arguments, s) == Rejected(Validate(arguments).error)
    ensures var o := Execute(arguments, s);
            && (o.request.Some? ==>
                  Validate(arguments).Success?
                  && o.request.value == Request(Endpoint, Params(Validate(arguments).value), None)
                  && RateLimit(RestrictedEndpoints, o.request.value.endpoint) == 100)
            && (o.stored.Some? ==>
                  o.stored.value.text == Validate(arguments).value.query && o.stored.value.action == Action
                  && CachedText(o.stored.value.results) == o.result)
            && o == Execute(arguments, s.(storeOk := !s.storeOk))
  {
    if Validate(arguments).Success? {
      var a := Validate(arguments).value;
      ScanAndFetchSpec(s, a.query, Action, Params(a), Request(Endpoint, Params(a), None), FormatText);
      EndpointLimit();
    }
  }

  /** `/author/search` is not one of the restricted endpoints. */
  lemma EndpointLimit()
    ensures RateLimit(RestrictedEndpoints, Endpoint) == 100
  {
    UnrestrictedEndpoint(Endpoint);
  }
}
