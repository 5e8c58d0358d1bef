/**
 * The `paper_details` tool: the formatter of one paper's record, and the call, which answers
 * from the top cache entry, caches the raw response, and fails when the cache cannot store it.
 */
module PaperDetails {
  import opened Wrappers
  import opened Text
  import opened Json
  import opened SortedTable
  import opened Errors
  import opened RequestUtils
  import opened Report
  import opened ToolSupport

  // ----- format_paper_details

  /** "{name} (ID: {authorId})", with "Unknown" for either part that is missing. */
  function AuthorLabel(author: Value): string {
    GetStr(author, "name").GetOr("Unknown") + " (ID: " + GetStr(author, "authorId").GetOr("Unknown") + ")"
  }

  /** One bullet per author, in order. */
  function AuthorBullets(authors: seq<Value>): (r: seq<Line>)
    ensures |r| == |authors|
    decreases |authors|
  {
    if |authors| == 0 then [] else [Bullet(AuthorLabel(authors[0]))] + AuthorBullets(authors[1..])
  }

  lemma {:induction false} AuthorBulletsAt(authors: seq<Value>)
    ensures forall i | 0 <= i < |authors| :: AuthorBullets(authors)[i] == Bullet(AuthorLabel(authors[i]))
    decreases |authors|
  {
    if |authors| > 0 {
      AuthorBulletsAt(authors[1..]);
      forall i | 0 < i < |authors| ensures AuthorBullets(authors)[i] == Bullet(AuthorLabel(authors[i])) {
        assert AuthorBullets(authors)[i] == AuthorBullets(authors[1..])[i - 1];
        assert authors[1..][i - 1] == authors[i];
      }
    }
  }

  /** The loop over the authors. */
  method ListAuthors(authors: seq<Value>) returns (lines: seq<Line>)
    ensures lines == AuthorBullets(authors)
    ensures forall i | 0 <= i < |authors| :: lines[i] == Bullet(AuthorLabel(authors[i]))
  {
    lines := [];
    for i := 0 to |authors|
      invariant lines + AuthorBullets(authors[i..]) == AuthorBullets(authors)
    {
      assert authors[i..][1..] == authors[i + 1..];
      lines := lines + [Bullet(AuthorLabel(authors[i]))];
    }
    assert authors[|authors|..] == [];
    AuthorBulletsAt(authors);
  }

  /** The "Authors:" block, present whenever `authors` is an array, even an empty one. */
  function AuthorsBlock(response: Value): seq<Line> {
    match GetArray(response, "authors")
    case Some(authors) => [Note("Authors:")] + AuthorBullets(authors) + [Blank]
    case None => []
  }

  function DetailNumber(v: Value, key: string, caption: string): (r: seq<Line>)
    ensures |r| <= 1
  {
    match GetU64(v, key)
    case Some(n) => [Detail(caption, NatToString(n))]
    case None => []
  }

  function DetailText(v: Value, key: string, caption: string): (r: seq<Line>)
    ensures |r| <= 1
  {
    match GetStr(v, key)
    case Some(t) => [Detail(caption, t)]
    case None => []
  }

  function NonEmptyDetail(v: Value, key: string, caption: string): (r: seq<Line>)
    ensures |r| <= 1
  {
    match GetStr(v, key)
    case Some(t) => if t == "" then [] else [Detail(caption, t)]
    case None => []
  }

  /** Year, venue, date, the two counts and the fields of study. */
  function Facts(response: Value): seq<Line> {
    DetailNumber(response, "year", "Year") + NonEmptyDetail(response, "venue", "Venue")
    + DetailText(response, "publicationDate", "Publication Date") + DetailNumber(response, "citationCount", "Citation Count")
    + DetailNumber(response, "influentialCitationCount", "Influential Citation Count")
    + (match GetArray(response, "fieldsOfStudy")
       case Some(items) => if |StringsOf(items)| > 0 then [Detail("Fields of Study", Join(StringsOf(items), ", "))] else []
       case None => [])
  }

  /** "Open Access: Yes/No", and the PDF's URL for an open-access paper that has one. */
  function OpenAccess(response: Value): seq<Line> {
    match GetBool(response, "isOpenAccess")
    case None => []
    case Some(open) =>
      [Detail("Open Access", if open then "Yes" else "No")]
      + (if open && GetStr(Index(response, "openAccessPdf"), "url").Some? then
           [Detail("Open Access PDF", GetStr(Index(response, "openAccessPdf"), "url").value)]
         else [])
  }

  /**
   * The open-access line appears exactly when `isOpenAccess` is a boolean, and says Yes exactly
   * when it is true; the PDF line follows exactly for an open-access paper whose PDF entry has
   * a string `url`.
   */
  lemma OpenAccessShown(response: Value)
    ensures var r := OpenAccess(response);
            && (|r| > 0 <==> GetBool(response, "isOpenAccess").Some?)
            && (|r| > 0 ==> r[0] == Detail("Open Access", if GetBool(response, "isOpenAccess").value then "Yes" else "No"))
            && (|r| == 2 <==>
                  GetBool(response, "isOpenAccess") == Some(true) && Get(response, "openAccessPdf").Some?
                  && GetStr(Get(response, "openAccessPdf").value, "url").Some?)
            && (|r| == 2 ==> r[1] == Detail("Open Access PDF", GetStr(Get(response, "openAccessPdf").value, "url").value))
  {
    if Get(response, "openAccessPdf").None? {
      assert Index(response, "openAccessPdf") == Null;
    }
  }

  /** The abstract (whole, when not empty), the TL;DR and the Semantic Scholar URL. */
  function Texts(response: Value): seq<Line> {
    (match GetStr(response, "abstract")
     case Some(a) => if a == "" then [] else [Blank, Note("Abstract:"), Note(a)]
     case None => [])
    + (match Get(response, "tldr")
       case Some(tldr) => if GetStr(tldr, "text").Some? then [Blank, Note("TL;DR:"), Note(GetStr(tldr, "text").value)] else []
       case None => [])
    + (match GetStr(response, "url")
       case Some(u) => [Blank, Detail("Semantic Scholar URL", u)]
       case None => [])
  }

  /** The "External IDs:" block, present whenever the member is, with the ids that are strings. */
  function ExternalIds(response: Value): seq<Line> {
    match Get(response, "externalIds")
    case Some(ids) =>
      [Blank, Note("External IDs:")] + DetailText(ids, "DOI", "DOI") + DetailText(ids, "ArXiv", "ArXiv")
      + DetailText(ids, "PubMed", "PubMed") + DetailText(ids, "ACL", "ACL")
    case None => []
  }

  /** "{caption}: {n} papers" and the hint naming the tool that lists them. */
  function Related(response: Value, key: string, caption: string, tool: string): seq<Line> {
    match GetArray(response, key)
    case Some(items) =>
      [Blank, Detail(caption, NatToString(|items|) + " papers"),
       Note("(Use the " + tool + " tool with this paper ID to see details)")]
    case None => []
  }

  function Heading(response: Value): seq<Line> {
    [Title("Paper Details: " + GetStr(response, "title").GetOr("Unknown title")),
     Detail("Paper ID", GetStr(response, "paperId").GetOr("Unknown ID")), Blank]
  }

  /** Everything after the authors. */
  function Rest(response: Value): seq<Line> {
    Facts(response) + OpenAccess(response) + Texts(response) + ExternalIds(response)
    + Related(response, "citations", "Citations", "paper_citations")
    + Related(response, "references", "References", "paper_references")
  }

  function DetailLines(response: Value): seq<Line> {
    if HasError(response) then ErrorLines(response)
    else Heading(response) + AuthorsBlock(response) + Rest(response)
  }

  function FormatText(response: Value): string {
    Render(DetailLines(response))
  }

  method FormatPaperDetails(response: Value) returns (text: string)
    ensures text == FormatText(response)
  {
    if HasError(response) {
      return Render(ErrorLines(response));
    }
    var block := [];
    var authors := GetArray(response, "authors");
    if authors.Some? {
      var bullets := ListAuthors(authors.value);
      block := [Note("Authors:")] + bullets + [Blank];
    }
    text := Render(Heading(response) + block + Rest(response));
  }

  /**
   * Every record, however sparse, is answered with the title (or "Unknown title") and the id
   * (or "Unknown ID"), an error object only with its message; the authors follow the heading,
   * one bullet per author in order.
   */
  lemma DetailsShape(response: Value)
    ensures var lines := DetailLines(response);
            && (HasError(response) ==> lines == ErrorLines(response))
            && (!HasError(response) ==>
                  && lines[0] == Title("Paper Details: " + GetStr(response, "title").GetOr("Unknown title"))
                  && lines[1] == Detail("Paper ID", GetStr(response, "paperId").GetOr("Unknown ID"))
                  && (GetArray(response, "authors").Some? ==>
                        var authors := GetArray(response, "authors").value;
                        lines[3] == Note("Authors:")
                        && forall i | 0 <= i < |authors| :: lines[4 + i] == Bullet(AuthorLabel(authors[i]))))
  {
    if !HasError(response) {
      HeadShape(response, Rest(response));
    }
  }

  lemma HeadShape(response: Value, rest: seq<Line>)
    ensures var lines := Heading(response) + AuthorsBlock(response) + rest;
            && lines[0] == Title("Paper Details: " + GetStr(response, "title").GetOr("Unknown title"))
            && lines[1] == Detail("Paper ID", GetStr(response, "paperId").GetOr("Unknown ID"))
            && (GetArray(response, "authors").Some? ==>
                  var authors := GetArray(response, "authors").value;
                  lines[3] == Note("Authors:")
                  && forall i | 0 <= i < |authors| :: lines[4 + i] == Bullet(AuthorLabel(authors[i])))
  {
    if GetArray(response, "authors").Some? {
      var authors := GetArray(response, "authors").value;
      AuthorBulletsAt(authors);
      var block := AuthorsBlock(response);
      assert block == [Note("Authors:")] + AuthorBullets(authors) + [Blank];
      var lines := Heading(response) + block + rest;
      forall i | 0 <= i < |authors| ensures lines[4 + i] == Bullet(AuthorLabel(authors[i])) {
        assert lines[4 + i] == block[1 + i];
      }
    }
  }

  // ----- execute

  datatype DetailsArgs = DetailsArgs(paperId: string, fields: Option<Value>)

  function Validate(arguments: Option<Value>): (r: Result<DetailsArgs, Error>)
    ensures r.Success? <==> arguments.Some? && RequiredText(arguments.value, "paper_id", "Paper ID").Success?
    ensures arguments.None? ==> r == Failure(MissingArguments)
    ensures arguments.Some? && RequiredText(arguments.value, "paper_id", "Paper ID").Failure? ==>
              r == Failure(RequiredText(arguments.value, "paper_id", "Paper ID").error)
    ensures r.Success? ==>
              r.value.paperId == GetStr(arguments.value, "paper_id").value && r.value.fields == Get(arguments.value, "fields")
  {
    var args :- Arguments(arguments);
    var paperId :- RequiredText(args, "paper_id", "Paper ID");
    Success(DetailsArgs(paperId, Get(args, "fields")))
  }

  /** `format!("paper_details:{}", paper_id)`. */
  function QueryText(paperId: string): string {
    "paper_details:" + paperId
  }

  function Endpoint(paperId: string): string {
    "/paper/" + paperId
  }

  function DetailsRequest(a: DetailsArgs): Request {
    Request(Endpoint(a.paperId), FieldsParams(a.fields), None)
  }

  function Execute(arguments: Option<Value>, s: Services): Outcome {
    match Validate(arguments)
    case Failure(e) => Rejected(e)
    case Success(a) => TopAndFetch(s, QueryText(a.paperId), Success(DetailsRequest(a)), FormatText, RawResponse, true)
  }

  /**
   * A missing or blank paper id fails first; a very similar top entry is formatted and returned
   * without a request; otherwise the paper is fetched with the caller's fields, the raw
   * response is stored under `paper_details:{id}`, and when the store fails the call fails
   * although the paper was fetched.
   */
  lemma ExecuteSpec(arguments: Option<Value>, s: Services)
    ensures Validate(arguments).Failure? ==> Execute(arguments, s) == Rejected(Validate(arguments).error)
    ensures Validate(arguments).Success? ==>
              var a := Validate(arguments).value;
              var text := QueryText(a.paperId);
              var o := Execute(arguments, s);
              && (s.embed(text).Some? && s.search(s.embed(text).value).Success?
                  && TopHit(s.search(s.embed(text).value).value).Some? ==>
                    o == Outcome(Success(FormatText(TopHit(s.search(s.embed(text).value).value).value.results)), None, None))
              && (o.request.Some? ==> o.request.value == DetailsRequest(a))
              && (o.stored.Some? ==>
                    o.stored.value.text == text && o.stored.value.results == s.respond(DetailsRequest(a)).value
                    && (s.storeOk ==> o.result == Success(FormatText(o.stored.value.results)))
                    && (!s.storeOk ==> o.result == Failure(Storage)))
  {
    if Validate(arguments).Success? {
      var a := Validate(arguments).value;
      TopAndFetchSpec(s, QueryText(a.paperId), Success(DetailsRequest(a)), FormatText, RawResponse, true);
    }
  }

  /** A paper id without the letters `h` and `m` gives an endpoint spaced 100 ms apart. */
  lemma EndpointLimit(paperId: string)
    requires 'h' !in paperId && 'm' !in paperId
    ensures RateLimit(RestrictedEndpoints, Endpoint(paperId)) == 100
  {
    var e := Endpoint(paperId);
    forall i | 0 <= i < |e| ensures e[i] != 'h' && e[i] != 'm' {
      if i < 7 {
        assert e[i] == "/paper/"[i];
      } else {
        assert e[i] == paperId[i - 7];
      }
    }
    UnrestrictedWithout(e, 'h', 'm');
  }
}
