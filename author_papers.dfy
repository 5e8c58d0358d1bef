/**
 * The `author_papers` tool: validation, the parameters sent to `/author/{id}/papers`, the
 * formatter of one page of an author's papers (numbered on from the offset), and the call,
 * which caches the formatted page under the bare author id.
 */
module AuthorPapers {
  import opened Wrappers
  import opened Text
  import opened Json
  import opened SortedTable
  import opened Errors
  import opened RequestUtils
  import opened Report
  import opened ToolSupport

  const Action: string := "author_papers"
  const MaxLimit: nat := 1000
  const DefaultLimit: nat := 100

  datatype PapersArgs = PapersArgs(authorId: string, fields: Option<Value>, offset: nat, limit: nat)

  function Validate(arguments: Option<Value>): (r: Result<PapersArgs, Error>)
    ensures r.Success? <==>
              arguments.Some? && RequiredText(arguments.value, "author_id", "Author ID").Success?
              && GetU64(arguments.value, "limit").GetOr(DefaultLimit) <= MaxLimit
    ensures arguments.None? ==> r == Failure(MissingArguments)
    ensures arguments.Some? && RequiredText(arguments.value, "author_id", "Author ID").Failure? ==>
              r == Failure(RequiredText(arguments.value, "author_id", "Author ID").error)
    ensures arguments.Some? && RequiredText(arguments.value, "author_id", "Author ID").Success?
            && GetU64(arguments.value, "limit").GetOr(DefaultLimit) > MaxLimit ==>
              r == Failure(LimitExceeded(MaxLimit))
    ensures r.Success? ==>
              var args := arguments.value;
              && r.value.authorId == GetStr(args, "author_id").value
              && r.value.fields == Get(args, "fields")
              && r.value.offset == GetU64(args, "offset").GetOr(0)
              && r.value.limit == GetU64(args, "limit").GetOr(DefaultLimit)
  {
    var args :- Arguments(arguments);
    var authorId :- RequiredText(args, "author_id", "Author ID");
    var fields := Get(args, "fields");
    var offset := GetU64(args, "offset").GetOr(0);
    var limit := GetU64(args, "limit").GetOr(DefaultLimit);
    if limit > MaxLimit then Failure(LimitExceeded(MaxLimit))
    else Success(PapersArgs(authorId, fields, offset, limit))
  }

  /** The inserts into `params_map`: offset and limit, then the fields when given. */
  function ParamPairs(a: PapersArgs): (pairs: seq<(string, Value)>)
    ensures DistinctKeys(pairs)
  {
    [("offset", Number(a.offset)), ("limit", Number(a.limit))]
    + match a.fields case Some(f) => [("fields", f)] case None => []
  }

  function Params(a: PapersArgs): Value {
    ObjectOf(ParamPairs(a))
  }

  /** The parameters hold the offset, the limit, and the fields only when given. */
  lemma ParamsMembers(a: PapersArgs)
    ensures Get(Params(a), "offset") == Some(Number(a.offset))
    ensures Get(Params(a), "limit") == Some(Number(a.limit))
    ensures Get(Params(a), "fields") == a.fields
  {
    var pairs := ParamPairs(a);
    ObjectOfMembers(pairs);
    assert pairs[0].0 == "offset" && pairs[1].0 == "limit";
    if a.fields.Some? {
      assert pairs[2] == ("fields", a.fields.value);
    } else {
      ObjectOfGet(pairs, "fields");
      LastForMissing(pairs, "fields");
    }
  }

  /**
   * Equal parameters mean the same fields, offset and limit; the author is not among them,
   * so only the similarity of the ids' embeddings tells two authors' entries apart.
   */
  lemma ParamsDetermine(a: PapersArgs, b: PapersArgs)
    requires Params(a) == Params(b)
    ensures a.fields == b.fields && a.offset == b.offset && a.limit == b.limit
    ensures Params(a) == Params(a.(authorId := b.authorId))
  {
    ParamsMembers(a);
    ParamsMembers(b);
  }

  function Endpoint(authorId: string): string {
    "/author/" + authorId + "/papers"
  }

  // ----- format_author_papers

  /** The "Open Access PDF" line: an open-access paper whose `openAccessPdf` has a URL. */
  function PdfField(paper: Value): (r: seq<Line>)
    ensures FieldsOnly(r) && |r| <= 1
  {
    if GetBool(paper, "isOpenAccess") == Some(true) && GetStr(Index(paper, "openAccessPdf"), "url").Some? then
      [Field("Open Access PDF", GetStr(Index(paper, "openAccessPdf"), "url").value)]
    else []
  }

  /** The PDF line is shown exactly for open-access papers whose PDF entry has a string `url`. */
  lemma PdfShown(paper: Value)
    ensures |PdfField(paper)| == 1 <==>
              GetBool(paper, "isOpenAccess") == Some(true) && Get(paper, "openAccessPdf").Some?
              && GetStr(Get(paper, "openAccessPdf").value, "url").Some?
    ensures |PdfField(paper)| == 1 ==>
              PdfField(paper)[0] == Field("Open Access PDF", GetStr(Get(paper, "openAccessPdf").value, "url").value)
  {
    if Get(paper, "openAccessPdf").None? {
      assert Index(paper, "openAccessPdf") == Null;
    }
  }

  /** The lines under a paper's title; abstracts are cut at 200 bytes. */
  function PaperBody(paper: Value): (r: seq<Line>)
    ensures FieldsOnly(r)
  {
    NumberField(paper, "year", "Year") + NonEmptyField(paper, "venue", "Venue")
    + NumberField(paper, "citationCount", "Citations") + AuthorsField(paper) + AbstractField(paper, Some(200))
    + StrField(paper, "url", "URL") + PdfField(paper)
  }

  function Caption(offset: nat): string {
    "papers by this author (offset: " + NatToString(offset) + "):"
  }

  function NextHint(next: Option<nat>): seq<Line> {
    match next
    case Some(n) => [Blank, Next(n, "papers")]
    case None => []
  }

  /** A non-empty page: the count with the offset, the papers numbered from `offset + 1`, the hint. */
  function Page(offset: nat, next: Option<nat>, data: seq<Value>): seq<Line> {
    [Count(|data|, Caption(offset)), Blank] + Listing(data, offset + 1, TitleWithId, PaperBody) + NextHint(next)
  }

  function PapersLines(response: Value): seq<Line> {
    if HasError(response) then ErrorLines(response)
    else
      match GetArray(response, "data")
      case None => [Message("No papers found or unexpected API response format.")]
      case Some(data) =>
        if |data| == 0 then [Message("No papers found for this author.")]
        else Page(GetU64(response, "offset").GetOr(0), GetU64(response, "next"), data)
  }

  function FormatText(response: Value): string {
    Render(PapersLines(response))
  }

  method FormatAuthorPapers(response: Value) returns (text: string)
    ensures text == FormatText(response)
  {
    if HasError(response) {
      return Render(ErrorLines(response));
    }
    var offset := GetU64(response, "offset").GetOr(0);
    var next := GetU64(response, "next");
    match GetArray(response, "data")
    case None =>
      text := Render([Message("No papers found or unexpected API response format.")]);
    case Some(data) =>
      if |data| == 0 {
        return Render([Message("No papers found for this author.")]);
      }
      var lines := FormatPage(offset, next, data);
      text := Render(lines);
  }

  method FormatPage(offset: nat, next: Option<nat>, data: seq<Value>) returns (lines: seq<Line>)
    ensures lines == Page(offset, next, data)
  {
    lines := [Count(|data|, Caption(offset)), Blank];
    var items := ListLines(data, offset + 1, TitleWithId, PaperBody);
    lines := lines + items;
    if next.Some? {
      lines := lines + [Blank, Next(next.value, "papers")];
    }
  }

  lemma BodiesWithoutEntries(data: seq<Value>)
    ensures forall j | 0 <= j < |data| :: NoEntries(PaperBody(data[j]))
  {
  }

  lemma BodiesInner(data: seq<Value>)
    ensures forall j | 0 <= j < |data| :: Inner(PaperBody(data[j]))
  {
  }

  /**
   * The header counts the papers of the page, and they are numbered on from the offset:
   * the k-th paper of a page at offset `o` is number `o + k + 1`, so consecutive pages
   * continue each other's numbering.
   */
  lemma PapersListing(offset: nat, next: Option<nat>, data: seq<Value>)
    requires |data| > 0
    ensures var lines := Page(offset, next, data);
            && lines[0] == Count(|data|, Caption(offset))
            && |Entries(lines)| == |data|
            && forall k | 0 <= k < |data| ::
                 Entries(lines)[k].0 == offset + k + 1 && Entries(lines)[k].1 == TitleWithId(data[k])
  {
    BodiesWithoutEntries(data);
    FramedListing([Count(|data|, Caption(offset)), Blank], data, offset + 1, TitleWithId, PaperBody, NextHint(next));
  }

  /** A page ends with the next-offset hint exactly when the response gives a next offset. */
  lemma PapersNextHint(offset: nat, next: Option<nat>, data: seq<Value>)
    requires |data| > 0
    ensures var lines := Page(offset, next, data);
            && (lines[|lines| - 1].Next? <==> next.Some?)
            && (next.Some? ==> lines[|lines| - 1] == Next(next.value, "papers"))
  {
    BodiesInner(data);
    FramedLast([Count(|data|, Caption(offset)), Blank], data, offset + 1, TitleWithId, PaperBody, NextHint(next));
  }

  // ----- execute

  function PapersRequest(a: PapersArgs): Request {
    Request(Endpoint(a.authorId), Params(a), None)
  }

  function Execute(arguments: Option<Value>, s: Services): Outcome {
    match Validate(arguments)
    case Failure(e) => Rejected(e)
    case Success(a) => ScanAndFetch(s, a.authorId, Action, Params(a), PapersRequest(a), FormatText)
  }

  /**
   * Invalid arguments fail before anything is embedded, searched or sent; a request goes to the
   * author's papers endpoint only when no cached entry matches; what is stored is keyed by the
   * bare author id and gives back the answer returned; a failed store changes nothing.
   */
  lemma ExecuteSpec(arguments: Option<Value>, s: Services)
    ensures Validate(arguments).Failure? ==> Execute(arguments, s) == Rejected(Validate(arguments).error)
    ensures var o := Execute(arguments, s);
            && (o.request.Some? ==>
                  Validate(arguments).Success?
                  && o.request.value == Request(Endpoint(Validate(arguments).value.authorId), Params(Validate(arguments).value), None))
            && (o.stored.Some? ==>
                  o.stored.value.text == Validate(arguments).value.authorId && o.stored.value.action == Action
                  && CachedText(o.stored.value.results) == o.result)
            && o == Execute(arguments, s.(storeOk := !s.storeOk))
  {
    if Validate(arguments).Success? {
      var a := Validate(arguments).value;
      ScanAndFetchSpec(s, a.authorId, Action, Params(a), PapersRequest(a), FormatText);
    }
  }

  /**
   * An endpoint built from an id without the letter `c` (Semantic Scholar author ids are
   * numeric) is not restricted, so calls are spaced 100 ms apart; an id is spliced into the
   * path unescaped, so one holding `/paper/search` would make it restricted.
   */
  lemma EndpointLimit(authorId: string)
    requires 'c' !in authorId
    ensures RateLimit(RestrictedEndpoints, Endpoint(authorId)) == 100
  {
    var e := Endpoint(authorId);
    forall i | 0 <= i < |e| ensures e[i] != 'c' {
      if i < 8 {
        assert e[i] == "/author/"[i];
      } else if i < 8 + |authorId| {
        assert e[i] == authorId[i - 8];
      } else {
        assert e[i] == "/papers"[i - 8 - |authorId|];
      }
    }
    UnrestrictedWithout(e, 'c', 'c');
  }
}
