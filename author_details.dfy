/**
 * The `author_details` tool: the formatter of one author's record (with up to ten
 * representative papers), and the call, which answers from the top cache entry and caches
 * the formatted answer.
 */
module AuthorDetails {
  import opened Wrappers
  import opened Text
  import opened Json
  import opened Errors
  import opened RequestUtils
  import opened Report
  import opened ToolSupport

  /** How many papers are listed. */
  const ShownPapers: nat := 10

  // ----- format_author_details

  function Heading(response: Value): seq<Line> {
    [Title("Author: " + GetStr(response, "name").GetOr("Unknown name")),
     Detail("Author ID", GetStr(response, "authorId").GetOr("Unknown ID")), Blank]
  }

  /** A captioned list of the string elements of an array member, when any. */
  function StringSection(v: Value, key: string, caption: string): seq<Line> {
    match GetArray(v, key)
    case Some(items) =>
      if |StringsOf(items)| > 0 then [Note(caption)] + Bullets(StringsOf(items)) + [Blank] else []
    case None => []
  }

  /**
   * The section is shown exactly when the member is an array holding some strings, and then
   * lists those strings, in order, one bullet each, after its caption.
   */
  lemma StringSectionShown(v: Value, key: string, caption: string)
    ensures var r := StringSection(v, key, caption);
            && (|r| > 0 <==> GetArray(v, key).Some? && |StringsOf(GetArray(v, key).value)| > 0)
            && (|r| > 0 ==>
                  var ss := StringsOf(GetArray(v, key).value);
                  |r| == |ss| + 2 && r[0] == Note(caption)
                  && forall i | 0 <= i < |ss| :: r[1 + i] == Bullet(ss[i]))
  {
    if GetArray(v, key).Some? && |StringsOf(GetArray(v, key).value)| > 0 {
      var ss := StringsOf(GetArray(v, key).value);
      BulletsAt(ss);
      var r := StringSection(v, key, caption);
      forall i | 0 <= i < |ss| ensures r[1 + i] == Bullet(ss[i]) {
        assert r[1 + i] == Bullets(ss)[i];
      }
    }
  }

  method StringSectionLines(v: Value, key: string, caption: string) returns (lines: seq<Line>)
    ensures lines == StringSection(v, key, caption)
  {
    lines := [];
    var items := GetArray(v, key);
    if items.Some? {
      var ss := StringsOf(items.value);
      if |ss| > 0 {
        var bullets := BulletLines(ss);
        lines := [Note(caption)] + bullets + [Blank];
      }
    }
  }

  function Metric(v: Value, key: string, caption: string): (r: seq<Line>)
    ensures |r| <= 1
  {
    match GetU64(v, key)
    case Some(n) => [Bullet(caption + ": " + NatToString(n))]
    case None => []
  }

  /** "Research Metrics:", always, with the counts that are present. */
  function Metrics(response: Value): seq<Line> {
    [Note("Research Metrics:")] + Metric(response, "paperCount", "Papers") + Metric(response, "citationCount", "Citations")
    + Metric(response, "hIndex", "h-index") + [Blank]
  }

  function Links(response: Value): seq<Line> {
    (match GetStr(response, "homepage")
     case Some(h) => if h == "" then [] else [Detail("Homepage", h)]
     case None => [])
    + (match GetStr(response, "url")
       case Some(u) => [Detail("Semantic Scholar URL", u), Blank]
       case None => [])
  }

  /** The lines under a representative paper; abstracts are cut at 200 bytes. */
  function PaperBody(paper: Value): (r: seq<Line>)
    ensures FieldsOnly(r)
  {
    NumberField(paper, "year", "Year") + NonEmptyField(paper, "venue", "Venue")
    + NumberField(paper, "citationCount", "Citations") + AuthorsField(paper) + AbstractField(paper, Some(200))
  }

  /** `papers.iter().take(10)`. */
  function FirstPapers(papers: seq<Value>): (r: seq<Value>)
    ensures |r| == (if |papers| < ShownPapers then |papers| else ShownPapers) && r == papers[..|r|]
  {
    if |papers| < ShownPapers then papers else papers[..ShownPapers]
  }

  const SeeAllPapers: string := "Use the author_papers tool to see all papers by this author."

  /** The count of papers past the tenth and the pointer to `author_papers`. */
  function Overflow(n: nat): seq<Line> {
    if n > ShownPapers then
      [Blank, More(n - ShownPapers, "papers"), Note(SeeAllPapers)]
    else []
  }

  function RepresentativeHead(n: nat): seq<Line> {
    [Note("Representative Papers (showing up to 10 of " + NatToString(n) + "):"), Blank]
  }

  function Representative(papers: seq<Value>): seq<Line> {
    RepresentativeHead(|papers|) + Listing(FirstPapers(papers), 1, TitleWithId, PaperBody) + Overflow(|papers|)
  }

  /** What is said when the record does not include the papers. */
  const PapersMissing: seq<Line> :=
    [Note("Paper information not included in the response. Use the 'fields' parameter to include 'papers'."),
     Note("Alternatively, use the author_papers tool to get all papers by this author.")]

  function PapersSection(response: Value): seq<Line> {
    match GetArray(response, "papers")
    case Some(papers) => if |papers| == 0 then [] else Representative(papers)
    case None =>
      PapersMissing
  }

  function Lists(response: Value): seq<Line> {
    StringSection(response, "affiliations", "Affiliations:") + StringSection(response, "aliases", "Also known as:")
  }

  function Tail(response: Value): (r: seq<Line>)
    ensures |r| > 0 && r[0] == Note("Research Metrics:")
  {
    Metrics(response) + Links(response) + PapersSection(response)
  }

  function DetailLines(response: Value): seq<Line> {
    if HasError(response) then ErrorLines(response)
    else Heading(response) + Lists(response) + Tail(response)
  }

  function FormatText(response: Value): string {
    Render(DetailLines(response))
  }

  method FormatAuthorDetails(response: Value) returns (text: string)
    ensures text == FormatText(response)
  {
    if HasError(response) {
      return Render(ErrorLines(response));
    }
    var affiliations := StringSectionLines(response, "affiliations", "Affiliations:");
    var aliases := StringSectionLines(response, "aliases", "Also known as:");
    var papers := PapersLines(response);
    text := Render(Heading(response) + (affiliations + aliases) + (Metrics(response) + Links(response) + papers));
  }

  method PapersLines(response: Value) returns (lines: seq<Line>)
    ensures lines == PapersSection(response)
  {
    match GetArray(response, "papers")
    case Some(papers) =>
      if |papers| == 0 {
        lines := [];
      } else {
        lines := RepresentativeLines(papers);
      }
    case None =>
      lines := PapersMissing;
  }

  method RepresentativeLines(papers: seq<Value>) returns (lines: seq<Line>)
    ensures lines == Representative(papers)
  {
    var listed := ListLines(FirstPapers(papers), 1, TitleWithId, PaperBody);
    lines := RepresentativeHead(|papers|) + listed + Overflow(|papers|);
  }

  lemma BodiesWithoutEntries(papers: seq<Value>)
    ensures forall j | 0 <= j < |papers| :: NoEntries(PaperBody(papers[j]))
  {
  }

  /**
   * Of n papers the first min(n, 10) are numbered 1, 2, ... in order with "title (ID: id)".
   */
  lemma RepresentativeListing(papers: seq<Value>)
    requires |papers| > 0
    ensures var es := Entries(Representative(papers));
            var shown := if |papers| < ShownPapers then |papers| else ShownPapers;
            && |es| == shown
            && forall k | 0 <= k < shown :: es[k].0 == k + 1 && es[k].1 == TitleWithId(papers[k])
  {
    var first := FirstPapers(papers);
    var es := Entries(Representative(papers));
    assert |es| == |first| && forall k | 0 <= k < |first| :: es[k].0 == k + 1 && es[k].1 == TitleWithId(first[k]) by {
      BodiesWithoutEntries(first);
      FramedListing(RepresentativeHead(|papers|), first, 1, TitleWithId, PaperBody, Overflow(|papers|));
    }
    forall k | 0 <= k < |first| ensures first[k] == papers[k] {
    }
  }

  /**
   * Past ten papers the answer ends by saying how many more there are; up to ten, every paper
   * is listed and nothing follows.
   */
  lemma RepresentativeOverflow(papers: seq<Value>)
    requires |papers| > 0
    ensures var lines := Representative(papers);
            && (|papers| > ShownPapers ==> lines[|lines| - 2] == More(|papers| - ShownPapers, "papers"))
            && (|papers| <= ShownPapers ==> lines == lines[..2] + Listing(papers, 1, TitleWithId, PaperBody))
  {
    var lines := Representative(papers);
    var head := RepresentativeHead(|papers|);
    var body := Listing(FirstPapers(papers), 1, TitleWithId, PaperBody);
    assert lines == head + body + Overflow(|papers|);
    if |papers| <= ShownPapers {
      assert FirstPapers(papers) == papers;
      assert Overflow(|papers|) == [];
      assert lines == head + body;
      assert lines[..2] == head;
    }
  }

  /**
   * Every record is answered with its heading first: the name, then the id (or their
   * defaults), then a blank line.
   */
  lemma DetailsShape(response: Value)
    requires !HasError(response)
    ensures |DetailLines(response)| > 3 && DetailLines(response)[..3] == Heading(response)
  {
    var h, l, t := Heading(response), Lists(response), Tail(response);
    HeadAt(h, l, t);
    assert DetailLines(response) == h + l + t;
  }

  lemma HeadAt(h: seq<Line>, l: seq<Line>, t: seq<Line>)
    requires |t| > 0
    ensures |h + l + t| > |h| && (h + l + t)[..|h|] == h
  {
  }

  /** The metrics heading is part of every record's answer, whatever the record holds. */
  lemma MetricsShown(response: Value)
    requires !HasError(response)
    ensures Note("Research Metrics:") in DetailLines(response)
  {
    var h, l, t := Heading(response), Lists(response), Tail(response);
    JoinAt(h, l, t);
    assert DetailLines(response) == h + l + t;
  }

  lemma JoinAt(h: seq<Line>, l: seq<Line>, t: seq<Line>)
    requires |t| > 0
    ensures t[0] in h + l + t
  {
    assert (h + l + t)[|h| + |l|] == t[0];
  }

  // ----- execute

  datatype DetailsArgs = DetailsArgs(authorId: string, fields: Option<Value>)

  function Validate(arguments: Option<Value>): (r: Result<DetailsArgs, Error>)
    ensures r.Success? <==> arguments.Some? && RequiredText(arguments.value, "author_id", "Author ID").Success?
    ensures arguments.None? ==> r == Failure(MissingArguments)
    ensures arguments.Some? && RequiredText(arguments.value, "author_id", "Author ID").Failure? ==>
              r == Failure(RequiredText(arguments.value, "author_id", "Author ID").error)
    ensures r.Success? ==>
              r.value.authorId == GetStr(arguments.value, "author_id").value && r.value.fields == Get(arguments.value, "fields")
  {
    var args :- Arguments(arguments);
    var authorId :- RequiredText(args, "author_id", "Author ID");
    Success(DetailsArgs(authorId, Get(args, "fields")))
  }

  /** `format!("author_details:{}", author_id)`. */
  function QueryText(authorId: string): string {
    "author_details:" + authorId
  }

  function Endpoint(authorId: string): string {
    "/author/" + authorId
  }

  function DetailsRequest(a: DetailsArgs): Request {
    Request(Endpoint(a.authorId), FieldsParams(a.fields), None)
  }

  function Execute(arguments: Option<Value>, s: Services): Outcome {
    match Validate(arguments)
    case Failure(e) => Rejected(e)
    case Success(a) => TopAndFetch(s, QueryText(a.authorId), Success(DetailsRequest(a)), FormatText, FormattedAnswer, false)
  }

  /**
   * A missing or blank author id fails first; a very similar top entry is deserialised as the
   * answer without a request; otherwise the author is fetched with the caller's fields, and the
   * formatted answer is stored under `author_details:{id}`; a failed store changes nothing.
   */
  lemma ExecuteSpec(arguments: Option<Value>, s: Services)
    ensures Validate(arguments).Failure? ==> Execute(arguments, s) == Rejected(Validate(arguments).error)
    ensures Validate(arguments).Success? ==>
              var a := Validate(arguments).value;
              var text := QueryText(a.authorId);
              var o := Execute(arguments, s);
              && (s.embed(text).Some? && s.search(s.embed(text).value).Success?
                  && TopHit(s.search(s.embed(text).value).value).Some? ==>
                    o == Outcome(CachedText(TopHit(s.search(s.embed(text).value).value).value.results), None, None))
              && (o.request.Some? ==> o.request.value == DetailsRequest(a))
              && (o.stored.Some? ==>
                    o.stored.value.text == text && CachedText(o.stored.value.results) == o.result
                    && o.result == Success(FormatText(s.respond(DetailsRequest(a)).value)))
    ensures Execute(arguments, s) == Execute(arguments, s.(storeOk := !s.storeOk))
  {
    if Validate(arguments).Success? {
      var a := Validate(arguments).value;
      TopAndFetchSpec(s, QueryText(a.authorId), Success(DetailsRequest(a)), FormatText, FormattedAnswer, false);
    }
  }

  /** An author id without the letter `c` gives an endpoint spaced 100 ms apart. */
  lemma EndpointLimit(authorId: string)
    requires 'c' !in authorId
    ensures RateLimit(RestrictedEndpoints, Endpoint(authorId)) == 100
  {
    var e := Endpoint(authorId);
    forall i | 0 <= i < |e| ensures e[i] != 'c' {
      if i < 8 {
        assert e[i] == "/author/"[i];
      } else {
        assert e[i] == authorId[i - 8];
      }
    }
    UnrestrictedWithout(e, 'c', 'c');
  }
}
