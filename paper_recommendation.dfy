/**
 * The two recommendation tools. `paper_recommendations_single` asks for papers like one seed
 * paper and caches its formatted answer under the paper id; `paper_recommendations_multi` asks
 * for papers like a list of positive examples and unlike a list of negative ones, and caches
 * the raw response under a text that spells out the whole request.
 */
module PaperRecommendation {
  import opened Wrappers
  import opened Text
  import opened Json
  import opened SortedTable
  import opened Errors
  import opened RequestUtils
  import opened Report
  import opened ToolSupport
  import opened DebugText

  const SingleAction: string := "paper_recommendations_single"
  const MultiAction: string := "paper_recommendations_multi"
  const MaxLimit: nat := 500
  const DefaultLimit: nat := 100
  const DefaultFields: string := "title,year,authors"
  const Pools: seq<string> := ["recent", "all-cs"]
  /** The base URL both tools pass to `make_request` in fifth position. */
  const RecommendationsBase: string := "https://api.semanticscholar.org"
  const ForPaper: string := "/recommendations/v1/papers/forpaper/"
  const MultiEndpoint: string := "/recommendations/v1/papers"
  const FieldsNote: string := "Note: To get more detailed information about each paper, use the 'fields' parameter."

  // ----- Shared formatter shape

  /** The count header, the papers numbered from 1, and the closing note. */
  function RecommendationPage(papers: seq<Value>, caption: string, body: Value -> seq<Line>): seq<Line> {
    [Count(|papers|, caption), Blank] + Listing(papers, 1, TitleWithId, body) + [Blank, Note(FieldsNote)]
  }

  method FormatPage(papers: seq<Value>, caption: string, body: Value -> seq<Line>) returns (lines: seq<Line>)
    ensures lines == RecommendationPage(papers, caption, body)
  {
    lines := [Count(|papers|, caption), Blank];
    var items := ListLines(papers, 1, TitleWithId, body);
    lines := lines + items + [Blank, Note(FieldsNote)];
  }

  /**
   * The count in the header is the number of numbered papers; they are numbered 1, 2, ... in
   * order with "title (ID: id)", and the answer ends with the note about `fields`.
   */
  lemma RecommendationListing(papers: seq<Value>, caption: string, body: Value -> seq<Line>)
    requires forall j | 0 <= j < |papers| :: FieldsOnly(body(papers[j]))
    ensures var lines := RecommendationPage(papers, caption, body);
            && lines[0] == Count(|papers|, caption) && lines[|lines| - 1] == Note(FieldsNote)
            && |Entries(lines)| == lines[0].count
            && forall k | 0 <= k < |papers| :: Entries(lines)[k].0 == k + 1 && Entries(lines)[k].1 == TitleWithId(papers[k])
  {
    forall j | 0 <= j < |papers| ensures NoEntries(body(papers[j])) {
      assert FieldsOnly(body(papers[j]));
    }
    FramedListing([Count(|papers|, caption), Blank], papers, 1, TitleWithId, body, [Blank, Note(FieldsNote)]);
  }

  // ----- paper_recommendations_single

  datatype SingleArgs = SingleArgs(paperId: string, fields: string, limit: nat, pool: string)

  function ValidateSingle(arguments: Option<Value>): (r: Result<SingleArgs, Error>)
    ensures r.Success? <==>
              arguments.Some? && RequiredText(arguments.value, "paper_id", "Paper ID").Success?
              && GetU64(arguments.value, "limit").GetOr(DefaultLimit) <= MaxLimit
              && GetStr(arguments.value, "from_pool").GetOr("recent") in Pools
    ensures arguments.None? ==> r == Failure(MissingArguments)
    ensures arguments.Some? && RequiredText(arguments.value, "paper_id", "Paper ID").Failure? ==>
              r == Failure(RequiredText(arguments.value, "paper_id", "Paper ID").error)
    ensures arguments.Some? && RequiredText(arguments.value, "paper_id", "Paper ID").Success?
            && GetU64(arguments.value, "limit").GetOr(DefaultLimit) > MaxLimit ==>
              r == Failure(LimitExceeded(MaxLimit))
    ensures arguments.Some? && RequiredText(arguments.value, "paper_id", "Paper ID").Success?
            && GetU64(arguments.value, "limit").GetOr(DefaultLimit) <= MaxLimit
            && GetStr(arguments.value, "from_pool").GetOr("recent") !in Pools ==>
              r == Failure(InvalidPool)
    ensures r.Success? ==>
              var args := arguments.value;
              && r.value.paperId == GetStr(args, "paper_id").value
              && r.value.fields == GetStr(args, "fields").GetOr(DefaultFields)
              && r.value.limit == GetU64(args, "limit").GetOr(DefaultLimit)
              && r.value.pool == GetStr(args, "from_pool").GetOr("recent")
  {
    var args :- Arguments(arguments);
    var paperId :- RequiredText(args, "paper_id", "Paper ID");
    var fields := GetStr(args, "fields").GetOr(DefaultFields);
    var limit := GetU64(args, "limit").GetOr(DefaultLimit);
    var pool := GetStr(args, "from_pool").GetOr("recent");
    if limit > MaxLimit then Failure(LimitExceeded(MaxLimit))
    else if pool != "recent" && pool != "all-cs" then Failure(InvalidPool)
    else Success(SingleArgs(paperId, fields, limit, pool))
  }

  function SingleParamPairs(a: SingleArgs): (pairs: seq<(string, Value)>)
    ensures DistinctKeys(pairs)
  {
    [("limit", Number(a.limit)), ("fields", Str(a.fields)), ("from", Str(a.pool))]
  }

  /** `params_map`: the limit, the fields and the pool under `from`. */
  function SingleParams(a: SingleArgs): Value {
    ObjectOf(SingleParamPairs(a))
  }

  /** Equal parameters mean the same fields, limit and pool (the paper id is the cache text). */
  lemma SingleParamsDetermine(a: SingleArgs, b: SingleArgs)
    requires SingleParams(a) == SingleParams(b)
    ensures a.fields == b.fields && a.limit == b.limit && a.pool == b.pool
  {
    ObjectOfMembers(SingleParamPairs(a));
    ObjectOfMembers(SingleParamPairs(b));
    assert SingleParamPairs(a)[0].0 == "limit" && SingleParamPairs(a)[1].0 == "fields" && SingleParamPairs(a)[2].0 == "from";
    assert SingleParamPairs(b)[0].0 == "limit" && SingleParamPairs(b)[1].0 == "fields" && SingleParamPairs(b)[2].0 == "from";
  }

  /** The lines under a recommended paper; the abstract is shown whole. */
  function SingleBody(paper: Value): (r: seq<Line>)
    ensures FieldsOnly(r)
  {
    NumberField(paper, "year", "Year") + NonEmptyField(paper, "venue", "Venue") + AuthorsField(paper)
    + NumberField(paper, "citationCount", "Citations") + AbstractField(paper, None) + StrField(paper, "url", "URL")
  }

  function SingleLines(response: Value): seq<Line> {
    if HasError(response) then ErrorLines(response)
    else
      match GetArray(response, "recommendedPapers")
      case None => [Message("No recommendations found or unexpected API response format.")]
      case Some(papers) =>
        if |papers| == 0 then [Message("No recommendations found for this paper.")]
        else RecommendationPage(papers, "recommended papers:", SingleBody)
  }

  function SingleText(response: Value): string {
    Render(SingleLines(response))
  }

  method FormatSingle(response: Value) returns (text: string)
    ensures text == SingleText(response)
  {
    if HasError(response) {
      return Render(ErrorLines(response));
    }
    var papers := GetArray(response, "recommendedPapers");
    if papers.None? {
      return Render([Message("No recommendations found or unexpected API response format.")]);
    }
    if |papers.value| == 0 {
      return Render([Message("No recommendations found for this paper.")]);
    }
    var lines := FormatPage(papers.value, "recommended papers:", SingleBody);
    text := Render(lines);
  }

  function SingleRequest(a: SingleArgs): Request {
    Request(ForPaper + a.paperId, SingleParams(a), Some(RecommendationsBase))
  }

  function ExecuteSingle(arguments: Option<Value>, s: Services): Outcome {
    match ValidateSingle(arguments)
    case Failure(e) => Rejected(e)
    case Success(a) => ScanAndFetch(s, a.paperId, SingleAction, SingleParams(a), SingleRequest(a), SingleText)
  }

  /**
   * Invalid arguments fail before anything is embedded, searched or sent; the request goes to
   * the paper's `forpaper` endpoint under the recommendations base URL, spaced one second
   * apart, only when no cached entry matches; what is stored is keyed by the raw paper id and
   * gives back the answer returned.
   */
  lemma ExecuteSingleSpec(arguments: Option<Value>, s: Services)
    ensures ValidateSingle(arguments).Failure? ==>
              ExecuteSingle(arguments, s) == Rejected(ValidateSingle(arguments).error)
    ensures var o := ExecuteSingle(arguments, s);
            && (o.request.Some? ==>
                  ValidateSingle(arguments).Success?
                  && o.request.value.endpoint == ForPaper + ValidateSingle(arguments).value.paperId
                  && o.request.value.params == SingleParams(ValidateSingle(arguments).value)
                  && o.request.value.base == Some(RecommendationsBase)
                  && RateLimit(RestrictedEndpoints, o.request.value.endpoint) == 1000)
            && (o.stored.Some? ==>
                  o.stored.value.text == ValidateSingle(arguments).value.paperId && o.stored.value.action == SingleAction
                  && CachedText(o.stored.value.results) == o.result)
            && o == ExecuteSingle(arguments, s.(storeOk := !s.storeOk))
  {
    if ValidateSingle(arguments).Success? {
      var a := ValidateSingle(arguments).value;
      ScanAndFetchSpec(s, a.paperId, SingleAction, SingleParams(a), SingleRequest(a), SingleText);
      RecommendationsLimited(a.paperId);
    }
  }

  /** Every `forpaper` endpoint starts with `/recommendations`, so it is limited to 1 call/s. */
  lemma RecommendationsLimited(paperId: string)
    ensures RateLimit(RestrictedEndpoints, ForPaper + paperId) == 1000
    ensures RateLimit(RestrictedEndpoints, MultiEndpoint) == 1000
  {
    var e := ForPaper + paperId;
    assert e[..16] == "/recommendations";
    RestrictedPrefix(e, "/recommendations");
    assert MultiEndpoint[..16] == "/recommendations";
    RestrictedPrefix(MultiEndpoint, "/recommendations");
  }

  // ----- paper_recommendations_multi

  datatype MultiArgs = MultiArgs(positive: seq<string>, negative: seq<string>, fields: string, limit: nat)

  function NegativeIds(args: Value): seq<string> {
    match GetArray(args, "negative_paper_ids")
    case Some(items) => StringsOf(items)
    case None => []
  }

  function ValidateMulti(arguments: Option<Value>): (r: Result<MultiArgs, Error>)
    ensures arguments.None? ==> r == Failure(MissingArguments)
    ensures arguments.Some? && GetArray(arguments.value, "positive_paper_ids").None? ==>
              r == Failure(MissingParameter("positive_paper_ids"))
    ensures arguments.Some? && GetArray(arguments.value, "positive_paper_ids") == Some([]) ==>
              r == Failure(NoPositiveIds)
    ensures arguments.Some? && GetArray(arguments.value, "positive_paper_ids").Some?
            && |GetArray(arguments.value, "positive_paper_ids").value| > 0
            && StringsOf(GetArray(arguments.value, "positive_paper_ids").value) == [] ==>
              r == Failure(NonStringPositiveIds)
    ensures r.Success? <==>
              arguments.Some? && GetArray(arguments.value, "positive_paper_ids").Some?
              && StringsOf(GetArray(arguments.value, "positive_paper_ids").value) != []
              && GetU64(arguments.value, "limit").GetOr(DefaultLimit) <= MaxLimit
    ensures r.Success? ==>
              var args := arguments.value;
              && r.value.positive == StringsOf(GetArray(args, "positive_paper_ids").value)
              && r.value.negative == NegativeIds(args)
              && r.value.fields == GetStr(args, "fields").GetOr(DefaultFields)
              && r.value.limit == GetU64(args, "limit").GetOr(DefaultLimit)
  {
    var args :- Arguments(arguments);
    match GetArray(args, "positive_paper_ids")
    case None => Failure(MissingParameter("positive_paper_ids"))
    case Some(items) =>
      if |items| == 0 then Failure(NoPositiveIds)
      else
        var positive := StringsOf(items);
        if |positive| == 0 then Failure(NonStringPositiveIds)
        else
          var fields := GetStr(args, "fields").GetOr(DefaultFields);
          var limit := GetU64(args, "limit").GetOr(DefaultLimit);
          if limit > MaxLimit then Failure(LimitExceeded(MaxLimit))
          else Success(MultiArgs(positive, NegativeIds(args), fields, limit))
  }

  const TextPrefix: string := "paper_recommendations_multi:positive="

  /** The text the call embeds and caches under, which spells out the whole request. */
  function QueryText(a: MultiArgs): string {
    TextPrefix + (DebugList(a.positive) + (":negative=" + (DebugList(a.negative) + Settings(a.fields, a.limit))))
  }

  function Settings(fields: string, limit: nat): string {
    ":fields=" + fields + ":limit=" + NatToString(limit)
  }

  function Strs(ss: seq<string>): (r: Value)
    ensures r.Array? && StringsOf(r.items) == ss
  {
    StringsOfAllStrings(ss);
    Array(seq(|ss|, i requires 0 <= i < |ss| => Str(ss[i])))
  }

  function MultiParamPairs(a: MultiArgs): (pairs: seq<(string, Value)>)
    ensures DistinctKeys(pairs)
  {
    [("positivePaperIds", Strs(a.positive)), ("negativePaperIds", Strs(a.negative)),
     ("fields", Str(a.fields)), ("limit", Number(a.limit))]
  }

  /** `request_body`: the id lists, the fields and the limit. */
  function MultiParams(a: MultiArgs): Value {
    ObjectOf(MultiParamPairs(a))
  }

  /** The request body determines the request: equal bodies mean equal arguments. */
  lemma MultiParamsDetermine(a: MultiArgs, b: MultiArgs)
    requires MultiParams(a) == MultiParams(b)
    ensures a == b
  {
    var pa, pb := MultiParamPairs(a), MultiParamPairs(b);
    ObjectOfMembers(pa);
    ObjectOfMembers(pb);
    assert pa[0].0 == pb[0].0 == "positivePaperIds" && pa[1].0 == pb[1].0 == "negativePaperIds";
    assert pa[2].0 == pb[2].0 == "fields" && pa[3].0 == pb[3].0 == "limit";
    assert Strs(a.positive) == Strs(b.positive);
    assert Strs(a.negative) == Strs(b.negative);
  }

  /** The lines under a recommended paper; abstracts are cut at 200 bytes. */
  function MultiBody(paper: Value): (r: seq<Line>)
    ensures FieldsOnly(r)
  {
    NumberField(paper, "year", "Year") + NonEmptyField(paper, "venue", "Venue") + AuthorsField(paper)
    + NumberField(paper, "citationCount", "Citations") + AbstractField(paper, Some(200)) + StrField(paper, "url", "URL")
  }

  function MultiLines(response: Value): seq<Line> {
    if HasError(response) then ErrorLines(response)
    else
      match GetArray(response, "recommendedPapers")
      case None => [Message("No recommendations found or unexpected API response format.")]
      case Some(papers) =>
        if |papers| == 0 then [Message("No recommendations found for these papers.")]
        else RecommendationPage(papers, "recommended papers based on your input papers:", MultiBody)
  }

  function MultiText(response: Value): string {
    Render(MultiLines(response))
  }

  method FormatMulti(response: Value) returns (text: string)
    ensures text == MultiText(response)
  {
    if HasError(response) {
      return Render(ErrorLines(response));
    }
    var papers := GetArray(response, "recommendedPapers");
    if papers.None? {
      return Render([Message("No recommendations found or unexpected API response format.")]);
    }
    if |papers.value| == 0 {
      return Render([Message("No recommendations found for these papers.")]);
    }
    var lines := FormatPage(papers.value, "recommended papers based on your input papers:", MultiBody);
    text := Render(lines);
  }

  function MultiRequest(a: MultiArgs): Request {
    Request(MultiEndpoint, MultiParams(a), Some(RecommendationsBase))
  }

  function ExecuteMulti(arguments: Option<Value>, s: Services): Outcome {
    match ValidateMulti(arguments)
    case Failure(e) => Rejected(e)
    case Success(a) => ScanAndFetchRaw(s, QueryText(a), MultiAction, MultiParams(a), MultiRequest(a), MultiText)
  }

  /**
   * Invalid arguments fail before anything is embedded, searched or sent; the request goes to
   * `/recommendations/v1/papers` with the request body as its parameters, only when no cached
   * entry matches; what is stored is the raw response under the spelled-out request text, and
   * formatting it again gives the answer returned, as a later cache hit on it does.
   */
  lemma ExecuteMultiSpec(arguments: Option<Value>, s: Services)
    ensures ValidateMulti(arguments).Failure? ==>
              ExecuteMulti(arguments, s) == Rejected(ValidateMulti(arguments).error)
    ensures var o := ExecuteMulti(arguments, s);
            && (o.request.Some? ==>
                  ValidateMulti(arguments).Success?
                  && o.request.value == MultiRequest(ValidateMulti(arguments).value)
                  && RateLimit(RestrictedEndpoints, o.request.value.endpoint) == 1000)
            && (o.stored.Some? ==>
                  o.stored.value.text == QueryText(ValidateMulti(arguments).value)
                  && o.stored.value.action == MultiAction
                  && o.stored.value.params == Some(MultiParams(ValidateMulti(arguments).value))
                  && o.result == Success(MultiText(o.stored.value.results)))
            && o == ExecuteMulti(arguments, s.(storeOk := !s.storeOk))
  {
    if ValidateMulti(arguments).Success? {
      var a := ValidateMulti(arguments).value;
      ScanAndFetchRawSpec(s, QueryText(a), MultiAction, MultiParams(a), MultiRequest(a), MultiText);
      RecommendationsLimited("");
    }
  }

  // ----- Reading the request text back

  /** The number of decimal digits at the end of `s`. */
  function TrailingDigits(s: string): (n: nat)
    ensures n <= |s| && forall i | |s| - n <= i < |s| :: IsDigit(s[i])
    decreases |s|
  {
    if |s| == 0 || !IsDigit(s[|s| - 1]) then 0 else 1 + TrailingDigits(s[..|s| - 1])
  }

  /** Recovers the request from the text: the inverse of `QueryText`. */
  function ReadQueryText(t: string): Option<MultiArgs> {
    if !StartsWith(t, TextPrefix) then None
    else
      match ReadList(t[|TextPrefix|..])
      case None => None
      case Some(p) => ReadNegative(p.0, p.1)
  }

  /** Reads `:negative=<list>` and the settings after the positive ids. */
  function ReadNegative(positive: seq<string>, r: string): Option<MultiArgs> {
    if !StartsWith(r, ":negative=") then None
    else
      match ReadList(r[|":negative="|..])
      case None => None
      case Some(p) =>
        match ReadSettings(p.1)
        case None => None
        case Some(fl) => Some(MultiArgs(positive, p.0, fl.0, fl.1))
  }

  /** Reads `:fields=<fields>:limit=<digits>`, which ends the text. */
  function ReadSettings(r: string): Option<(string, nat)> {
    if !StartsWith(r, ":fields=") then None
    else
      var r1 := r[|":fields="|..];
      var d := TrailingDigits(r1);
      var front := r1[..|r1| - d];
      if d == 0 || |front| < |":limit="| || front[|front| - |":limit="|..] != ":limit=" then None
      else Some((front[..|front| - |":limit="|], ParseDigits(r1[|r1| - d..])))
  }

  lemma {:induction false} TrailingDigitsAfter(p: string, ds: string)
    requires |p| > 0 && !IsDigit(p[|p| - 1])
    requires forall i | 0 <= i < |ds| :: IsDigit(ds[i])
    ensures TrailingDigits(p + ds) == |ds|
    decreases |ds|
  {
    if |ds| == 0 {
      assert p + ds == p;
    } else {
      var s := p + ds;
      assert s[..|s| - 1] == p + ds[..|ds| - 1];
      TrailingDigitsAfter(p, ds[..|ds| - 1]);
    }
  }

  /** Reading the text back gives the request: different requests are embedded as different texts. */
  lemma ReadSettingsOf(fields: string, limit: nat)
    ensures ReadSettings(Settings(fields, limit)) == Some((fields, limit))
  {
    var digits := NatToString(limit);
    var front := fields + ":limit=";
    var r1 := front + digits;
    Behind(":fields=", r1);
    assert Settings(fields, limit) == ":fields=" + r1;
    TrailingDigitsAfter(front, digits);
    assert r1[..|r1| - |digits|] == front;
    assert r1[|r1| - |digits|..] == digits;
    assert front[|front| - |":limit="|..] == ":limit=";
    assert front[..|front| - |":limit="|] == fields;
    ParseNatToString(limit);
  }

  /** What follows a prefix. */
  lemma Behind(p: string, x: string)
    ensures StartsWith(p + x, p) && (p + x)[|p|..] == x
  {
    assert (p + x)[..|p|] == p;
  }

  /** Reading the text back gives the request: different requests are embedded as different texts. */
  lemma QueryTextRoundTrip(a: MultiArgs)
    ensures ReadQueryText(QueryText(a)) == Some(a)
  {
    var tail1 := ":negative=" + (DebugList(a.negative) + Settings(a.fields, a.limit));
    Behind(TextPrefix, DebugList(a.positive) + tail1);
    ReadDebugList(a.positive, tail1);
    ReadNegativeOf(a);
  }

  lemma ReadNegativeOf(a: MultiArgs)
    ensures ReadNegative(a.positive, ":negative=" + (DebugList(a.negative) + Settings(a.fields, a.limit))) == Some(a)
  {
    var tail2 := Settings(a.fields, a.limit);
    Behind(":negative=", DebugList(a.negative) + tail2);
    ReadDebugList(a.negative, tail2);
    ReadSettingsOf(a.fields, a.limit);
  }

  lemma QueryTextInjective(a: MultiArgs, b: MultiArgs)
    requires QueryText(a) == QueryText(b)
    ensures a == b
  {
    QueryTextRoundTrip(a);
    QueryTextRoundTrip(b);
  }
}
