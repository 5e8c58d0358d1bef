/**
 * The `paper_citations` tool: the formatter of one page of citing papers (with influence
 * marker, citation contexts and intents), and the call, which answers from the top cache
 * entry before it even checks the limit, and caches the raw response.
 */
module PaperCitations {
  import opened Wrappers
  import opened Text
  import opened Json
  import opened SortedTable
  import opened Errors
  import opened RequestUtils
  import opened Report
  import opened ToolSupport

  const MaxLimit: nat := 1000
  const DefaultLimit: nat := 100
  /** How many citation contexts are considered per citing paper. */
  const ShownContexts: nat := 3

  // ----- format_citations

  /** The marker of an influential citation. */
  function InfluenceFlag(paper: Value): (r: seq<Line>)
    ensures Inner(r) && (|r| > 0 <==> GetBool(paper, "isInfluential") == Some(true))
  {
    if GetBool(paper, "isInfluential") == Some(true) then [Flag("[INFLUENTIAL CITATION]")] else []
  }

  /** Authors, year, venue and citation count. */
  function CitationFacts(paper: Value): (r: seq<Line>)
    ensures FieldsOnly(r)
  {
    AuthorsField(paper) + NumberField(paper, "year", "Year") + NonEmptyField(paper, "venue", "Venue")
    + NumberField(paper, "citationCount", "Citations")
  }

  /** The context at position `i` of the first three, numbered `i + 1`, when it is a string. */
  function ContextSlot(contexts: seq<Value>, i: nat): seq<Line> {
    if i < |contexts| && contexts[i].Str? then [Nested(i + 1, "\"" + contexts[i].s + "\"")] else []
  }

  /** The contexts block: a sub-heading, the string contexts among the first three, the rest's count. */
  function ContextLines(contexts: seq<Value>): seq<Line> {
    if |contexts| == 0 then []
    else
      [Flag("Citation contexts:")] + ContextSlot(contexts, 0) + ContextSlot(contexts, 1) + ContextSlot(contexts, 2)
      + (if |contexts| > ShownContexts then [More(|contexts| - ShownContexts, "contexts")] else [])
  }

  function ContextsOf(paper: Value): seq<Line> {
    match GetArray(paper, "contexts")
    case Some(contexts) => ContextLines(contexts)
    case None => []
  }

  /** Intents and URL. */
  function CitationTrailer(paper: Value): (r: seq<Line>)
    ensures FieldsOnly(r)
  {
    StringsField(paper, "intents", "Citation intents") + StrField(paper, "url", "URL")
  }

  function CitationBody(paper: Value): seq<Line> {
    InfluenceFlag(paper) + CitationFacts(paper) + ContextsOf(paper) + CitationTrailer(paper)
  }

  /** The number `ContextSlot` shows, if any. */
  function SlotNumber(contexts: seq<Value>, i: nat): seq<nat> {
    if i < |contexts| && contexts[i].Str? then [i + 1] else []
  }

  lemma ContextNumbers(contexts: seq<Value>)
    requires |contexts| > 0
    ensures NestedNumbers(ContextLines(contexts)) == SlotNumber(contexts, 0) + SlotNumber(contexts, 1) + SlotNumber(contexts, 2)
  {
    var h: seq<Line> := [Flag("Citation contexts:")];
    var s0, s1, s2 := ContextSlot(contexts, 0), ContextSlot(contexts, 1), ContextSlot(contexts, 2);
    var more: seq<Line> := if |contexts| > ShownContexts then [More(|contexts| - ShownContexts, "contexts")] else [];
    assert ContextLines(contexts) == h + s0 + s1 + s2 + more;
    NestedConcat(h + s0 + s1 + s2, more);
    NestedConcat(h + s0 + s1, s2);
    NestedConcat(h + s0, s1);
    NestedConcat(h, s0);
    assert NestedNumbers(more) == [] && NestedNumbers(h) == [];
    SlotNested(contexts, 0);
    SlotNested(contexts, 1);
    SlotNested(contexts, 2);
  }

  lemma SlotNested(contexts: seq<Value>, i: nat)
    ensures NestedNumbers(ContextSlot(contexts, i)) == SlotNumber(contexts, i)
  {
    if i < |contexts| && contexts[i].Str? {
      var l := ContextSlot(contexts, i);
      assert l[1..] == [];
    }
  }

  /**
   * Of the first three contexts exactly the strings are shown, each numbered by its position
   * (so a skipped one leaves a gap), in increasing order.
   */
  lemma ContextsShown(contexts: seq<Value>)
    requires |contexts| > 0
    ensures var ns := NestedNumbers(ContextLines(contexts));
            && (forall j: nat :: j + 1 in ns <==> j < ShownContexts && j < |contexts| && contexts[j].Str?)
            && (forall a, b | 0 <= a < b < |ns| :: ns[a] < ns[b])
  {
    ContextNumbers(contexts);
    var n0, n1, n2 := SlotNumber(contexts, 0), SlotNumber(contexts, 1), SlotNumber(contexts, 2);
    var ns := n0 + n1 + n2;
    forall a, b | 0 <= a < b < |ns| ensures ns[a] < ns[b] {
      assert ns[a] in n0 + n1 + n2 && ns[b] in n0 + n1 + n2;
    }
  }

  /** The block opens with its sub-heading and ends with the count of contexts past the third. */
  lemma ContextsLast(contexts: seq<Value>)
    requires |contexts| > 0
    ensures var lines := ContextLines(contexts);
            && lines[0] == Flag("Citation contexts:")
            && (lines[|lines| - 1].More? <==> |contexts| > ShownContexts)
            && (|contexts| > ShownContexts ==> lines[|lines| - 1] == More(|contexts| - ShownContexts, "contexts"))
  {
  }

  lemma BodyInner(paper: Value)
    ensures Inner(CitationBody(paper))
  {
    var c := ContextsOf(paper);
    assert Inner(c) by {
      if GetArray(paper, "contexts").Some? && |GetArray(paper, "contexts").value| > 0 {
        var contexts := GetArray(paper, "contexts").value;
        var more := if |contexts| > ShownContexts then [More(|contexts| - ShownContexts, "contexts")] else [];
        InnerConcat([Flag("Citation contexts:")], ContextSlot(contexts, 0));
        InnerConcat([Flag("Citation contexts:")] + ContextSlot(contexts, 0), ContextSlot(contexts, 1));
        InnerConcat([Flag("Citation contexts:")] + ContextSlot(contexts, 0) + ContextSlot(contexts, 1), ContextSlot(contexts, 2));
        InnerConcat([Flag("Citation contexts:")] + ContextSlot(contexts, 0) + ContextSlot(contexts, 1) + ContextSlot(contexts, 2), more);
      }
    }
    InnerConcat(InfluenceFlag(paper), CitationFacts(paper));
    InnerConcat(InfluenceFlag(paper) + CitationFacts(paper), c);
    InnerConcat(InfluenceFlag(paper) + CitationFacts(paper) + c, CitationTrailer(paper));
  }

  lemma BodiesInner(data: seq<Value>)
    ensures forall j | 0 <= j < |data| :: Inner(CitationBody(data[j]))
  {
    forall j | 0 <= j < |data| ensures Inner(CitationBody(data[j])) {
      BodyInner(data[j]);
    }
  }

  function Caption(offset: nat): string {
    "citing papers (offset: " + NatToString(offset) + "):"
  }

  function NextHint(next: Option<nat>): seq<Line> {
    match next
    case Some(n) => [Blank, Next(n, "citations")]
    case None => []
  }

  /** A non-empty page: the count with the offset, the citing papers numbered from `offset + 1`, the hint. */
  function Page(offset: nat, next: Option<nat>, data: seq<Value>): seq<Line> {
    [Count(|data|, Caption(offset)), Blank] + Listing(data, offset + 1, TitleWithId, CitationBody) + NextHint(next)
  }

  function CitationLines(response: Value): seq<Line> {
    if HasError(response) then ErrorLines(response)
    else
      match GetArray(response, "data")
      case None => [Message("No citations found or unexpected API response format.")]
      case Some(data) =>
        if |data| == 0 then [Message("No citations found for this paper.")]
        else Page(GetU64(response, "offset").GetOr(0), GetU64(response, "next"), data)
  }

  function FormatText(response: Value): string {
    Render(CitationLines(response))
  }

  method FormatCitations(response: Value) returns (text: string)
    ensures text == FormatText(response)
  {
    if HasError(response) {
      return Render(ErrorLines(response));
    }
    var offset := GetU64(response, "offset").GetOr(0);
    var next := GetU64(response, "next");
    match GetArray(response, "data")
    case None =>
      text := Render([Message("No citations found or unexpected API response format.")]);
    case Some(data) =>
      if |data| == 0 {
        return Render([Message("No citations found for this paper.")]);
      }
      var lines := FormatPage(offset, next, data);
      text := Render(lines);
  }

  method FormatPage(offset: nat, next: Option<nat>, data: seq<Value>) returns (lines: seq<Line>)
    ensures lines == Page(offset, next, data)
  {
    lines := [Count(|data|, Caption(offset)), Blank];
    var items := ListLines(data, offset + 1, TitleWithId, CitationBody);
    lines := lines + items;
    if next.Some? {
      lines := lines + [Blank, Next(next.value, "citations")];
    }
  }

  /**
   * The header counts the citing papers of the page; they are numbered on from the offset in
   * order, and the page ends with the next-offset hint exactly when the response gives one.
   */
  lemma CitationListing(offset: nat, next: Option<nat>, data: seq<Value>)
    requires |data| > 0
    ensures var lines := Page(offset, next, data);
            && lines[0] == Count(|data|, Caption(offset))
            && |Entries(lines)| == |data|
            && (forall k | 0 <= k < |data| ::
                  Entries(lines)[k].0 == offset + k + 1 && Entries(lines)[k].1 == TitleWithId(data[k]))
            && (lines[|lines| - 1].Next? <==> next.Some?)
  {
    BodiesInner(data);
    forall j | 0 <= j < |data| ensures NoEntries(CitationBody(data[j])) {
      InnerNoEntries(CitationBody(data[j]));
    }
    var head := [Count(|data|, Caption(offset)), Blank];
    FramedListing(head, data, offset + 1, TitleWithId, CitationBody, NextHint(next));
    FramedLast(head, data, offset + 1, TitleWithId, CitationBody, NextHint(next));
  }

  // ----- execute

  datatype CitationArgs = CitationArgs(paperId: string, fields: Option<Value>, offset: nat, limit: nat)

  /** The checks made before the cache is consulted: only the paper id. */
  function Validate(arguments: Option<Value>): (r: Result<CitationArgs, Error>)
    ensures r.Success? <==> arguments.Some? && RequiredText(arguments.value, "paper_id", "Paper ID").Success?
    ensures arguments.None? ==> r == Failure(MissingArguments)
    ensures arguments.Some? && RequiredText(arguments.value, "paper_id", "Paper ID").Failure? ==>
              r == Failure(RequiredText(arguments.value, "paper_id", "Paper ID").error)
    ensures r.Success? ==>
              var args := arguments.value;
              && r.value.paperId == GetStr(args, "paper_id").value
              && r.value.fields == Get(args, "fields")
              && r.value.offset == GetU64(args, "offset").GetOr(0)
              && r.value.limit == GetU64(args, "limit").GetOr(DefaultLimit)
  {
    var args :- Arguments(arguments);
    var paperId :- RequiredText(args, "paper_id", "Paper ID");
    Success(CitationArgs(paperId, Get(args, "fields"), GetU64(args, "offset").GetOr(0), GetU64(args, "limit").GetOr(DefaultLimit)))
  }

  /** `format!("paper_citations:{}", paper_id)`. */
  function QueryText(paperId: string): string {
    "paper_citations:" + paperId
  }

  function ParamPairs(a: CitationArgs): (pairs: seq<(string, Value)>)
    ensures DistinctKeys(pairs)
  {
    [("offset", Number(a.offset)), ("limit", Number(a.limit))]
    + match a.fields case Some(f) => [("fields", f)] case None => []
  }

  function Params(a: CitationArgs): Value {
    ObjectOf(ParamPairs(a))
  }

  function Endpoint(paperId: string): string {
    "/paper/" + paperId + "/citations"
  }

  /** The checks made on a cache miss: the limit, then the request to send. */
  function CitationsRequest(a: CitationArgs): (r: Result<Request, Error>)
    ensures r.Failure? <==> a.limit > MaxLimit
    ensures r.Failure? ==> r.error == LimitExceeded(MaxLimit)
    ensures r.Success? ==> r.value.endpoint == Endpoint(a.paperId) && r.value.base.None?
    ensures r.Success? ==>
              Get(r.value.params, "offset") == Some(Number(a.offset)) && Get(r.value.params, "limit") == Some(Number(a.limit))
              && Get(r.value.params, "fields") == a.fields
  {
    ParamsMembers(a);
    if a.limit > MaxLimit then Failure(LimitExceeded(MaxLimit)) else Success(Request(Endpoint(a.paperId), Params(a), None))
  }

  lemma ParamsMembers(a: CitationArgs)
    ensures Get(Params(a), "offset") == Some(Number(a.offset))
    ensures Get(Params(a), "limit") == Some(Number(a.limit))
    ensures Get(Params(a), "fields") == a.fields
  {
    var pairs := ParamPairs(a);
    ObjectOfMembers(pairs);
    assert pairs[0].0 == "offset" && pairs[1].0 == "limit";
    if a.fields.Some? {
      assert pairs[2] == ("fields", a.fields.value);
    } else {
      ObjectOfGet(pairs, "fields");
      LastForMissing(pairs, "fields");
    }
  }

  function Execute(arguments: Option<Value>, s: Services): Outcome {
    match Validate(arguments)
    case Failure(e) => Rejected(e)
    case Success(a) => TopAndFetch(s, QueryText(a.paperId), CitationsRequest(a), FormatText, RawResponse, false)
  }

  /**
   * A missing or blank paper id fails first. A very similar top entry is formatted and returned
   * even when the limit is over 1000; the limit is rejected only on a miss, before any request.
   * The stored entry holds the raw response under `paper_citations:{id}`, and formatting it
   * gives the answer returned; a failed store changes nothing.
   */
  lemma ExecuteSpec(arguments: Option<Value>, s: Services)
    ensures Validate(arguments).Failure? ==> Execute(arguments, s) == Rejected(Validate(arguments).error)
    ensures Validate(arguments).Success? ==>
              var a := Validate(arguments).value;
              var text := QueryText(a.paperId);
              var o := Execute(arguments, s);
              && (s.embed(text).Some? && s.search(s.embed(text).value).Success?
                  && TopHit(s.search(s.embed(text).value).value).Some? ==>
                    o == Outcome(Success(FormatText(TopHit(s.search(s.embed(text).value).value).value.results)), None, None))
              && (s.embed(text).Some? && s.search(s.embed(text).value).Success?
                  && TopHit(s.search(s.embed(text).value).value).None? && a.limit > MaxLimit ==>
                    o == Rejected(LimitExceeded(MaxLimit)))
              && (o.request.Some? ==> a.limit <= MaxLimit && o.request.value.endpoint == Endpoint(a.paperId))
              && (o.stored.Some? ==>
                    o.stored.value.text == text && o.result == Success(FormatText(o.stored.value.results)))
    ensures Execute(arguments, s) == Execute(arguments, s.(storeOk := !s.storeOk))
  {
    if Validate(arguments).Success? {
      var a := Validate(arguments).value;
      TopAndFetchSpec(s, QueryText(a.paperId), CitationsRequest(a), FormatText, RawResponse, false);
    }
  }

  /**
   * A paper id without the letters `h` and `m` (as Semantic Scholar's hexadecimal ids are)
   * gives an endpoint that is not restricted, so calls are spaced 100 ms apart.
   */
  lemma EndpointLimit(paperId: string)
    requires 'h' !in paperId && 'm' !in paperId
    ensures RateLimit(RestrictedEndpoints, Endpoint(paperId)) == 100
  {
    var e := Endpoint(paperId);
    forall i | 0 <= i < |e| ensures e[i] != 'h' && e[i] != 'm' {
      if i < 7 {
        assert e[i] == "/paper/"[i];
      } else if i < 7 + |paperId| {
        assert e[i] == paperId[i - 7];
      } else {
        assert e[i] == "/citations"[i - 7 - |paperId|];
      }
    }
    UnrestrictedWithout(e, 'h', 'm');
  }
}
