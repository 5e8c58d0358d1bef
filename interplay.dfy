/**
 * How the tools and the cache act on each other: a call stores an entry under its text, a
 * later call searches the same table, and the two hit rules then decide whether that entry,
 * or another tool's entry, answers. Entries are keyed by text alone, so tools that use the
 * same text overwrite each other's entries, and the top-entry tools answer from whatever
 * entry ranks first.
 */
module Interplay {
  import opened Wrappers
  import opened Json
  import opened SortedTable
  import opened CacheModel
  import opened Similarity
  import opened Errors
  import opened LocalCacheModel
  import opened Report
  import opened ToolSupport
  import AuthorPapers
  import PaperSearch
  import AuthorSearch
  import PaperCitations
  import AuthorDetails

  /** What a search at `now` with `embedding` returns after `q` was stored at `createdAt`. */
  function SearchAfterStore(t: Table, q: Query, createdAt: int, embedding: seq<real>, now: int, ttl: nat): seq<Hit>
    requires KeysSorted(t)
  {
    Ranked(Insert(t, q.text, CacheEntry(q, createdAt)), embedding, now, ttl)
  }

  /**
   * A stored query searched again with its own embedding while it is live ranks first with
   * similarity 1, so both hit rules fire: the top entry is very similar, and some entry with
   * the stored action and parameters is.
   */
  lemma StoredIsFound(t: Table, q: Query, createdAt: int, now: int, ttl: nat)
    requires KeysSorted(t)
    requires Comparable(q.embedding, q.embedding)
    requires now - createdAt <= ttl
    ensures TopHit(SearchAfterStore(t, q, createdAt, q.embedding, now, ttl)).Some?
    ensures q.params.Some? ==> FirstMatch(SearchAfterStore(t, q, createdAt, q.embedding, now, ttl), q.action, q.params.value).Some?
  {
    var r := SearchAfterStore(t, q, createdAt, q.embedding, now, ttl);
    StoreThenSearch(t, q, createdAt, now, ttl);
    assert VerySimilar(1.0);
    if q.params.Some? {
      var j :| 0 <= j < |r| && r[j] == Hit(q, 1.0);
      assert Matches(r[j], q.action, q.params.value);
    }
  }

  /**
   * A scanning tool called again with the same text, while the entry its first call stored is
   * live (and nothing has overwritten it), sends no second request: the call is answered
   * from the cache.
   */
  lemma ScanRepeat(s: Services, again: Services, text: string, action: string, params: Value, request: Request,
                   format: Value -> string, t: Table, createdAt: int, now: int, ttl: nat)
    requires ScanAndFetch(s, text, action, params, request, format).stored.Some?
    requires var q := ScanAndFetch(s, text, action, params, request, format).stored.value;
             && KeysSorted(t) && Comparable(q.embedding, q.embedding) && now - createdAt <= ttl
             && again.embed(text) == s.embed(text)
             && again.search(q.embedding) == Success(SearchAfterStore(t, q, createdAt, q.embedding, now, ttl))
    ensures ScanAndFetch(again, text, action, params, request, format).request.None?
    ensures ScanAndFetch(again, text, action, params, request, format).stored.None?
  {
    var q := ScanAndFetch(s, text, action, params, request, format).stored.value;
    ScanAndFetchSpec(s, text, action, params, request, format);
    StoredIsFound(t, q, createdAt, now, ttl);
    ScanAndFetchSpec(again, text, action, params, request, format);
  }

  /**
   * A top-entry tool called again with the same text while its own entry is live also sends
   * no request, whatever the request would have been.
   */
  lemma TopRepeat(s: Services, again: Services, text: string, request: Result<Request, Error>, format: Value -> string,
                  kept: Kept, storeFatal: bool, t: Table, createdAt: int, now: int, ttl: nat)
    requires TopAndFetch(s, text, request, format, kept, storeFatal).stored.Some?
    requires var q := TopAndFetch(s, text, request, format, kept, storeFatal).stored.value;
             && KeysSorted(t) && Comparable(q.embedding, q.embedding) && now - createdAt <= ttl
             && again.embed(text) == s.embed(text)
             && again.search(q.embedding) == Success(SearchAfterStore(t, q, createdAt, q.embedding, now, ttl))
    ensures TopAndFetch(again, text, request, format, kept, storeFatal).request.None?
    ensures TopAndFetch(again, text, request, format, kept, storeFatal).stored.None?
  {
    var q := TopAndFetch(s, text, request, format, kept, storeFatal).stored.value;
    TopAndFetchSpec(s, text, request, format, kept, storeFatal);
    StoredIsFound(t, q, createdAt, now, ttl);
    TopAndFetchSpec(again, text, request, format, kept, storeFatal);
  }

  /** Two stores, in order, into a valid table. */
  function StoreBoth(t: Table, first: Query, firstAt: int, second: Query, secondAt: int): Table
    requires KeysSorted(t)
  {
    Insert(Insert(t, first.text, CacheEntry(first, firstAt)), second.text, CacheEntry(second, secondAt))
  }

  /** Once a second query with the same text is stored, no search returns the first one. */
  lemma Overwritten(t: Table, first: Query, firstAt: int, second: Query, secondAt: int,
                    embedding: seq<real>, now: int, ttl: nat)
    requires KeysSorted(t) && KeyedByText(t)
    requires first.text == second.text && first != second
    ensures forall h | h in Ranked(StoreBoth(t, first, firstAt, second, secondAt), embedding, now, ttl) :: h.query != first
  {
    StoreKeyed(t, first, firstAt);
    Evicted(Insert(t, first.text, CacheEntry(first, firstAt)), first, second, secondAt, embedding, now, ttl);
  }

  /**
   * `author_papers` keys its entries by the bare author id: fetching another page (another
   * offset) of the same author stores over the first page's entry, which no search returns
   * again.
   */
  lemma AuthorPagesOverwrite(first: Option<Value>, second: Option<Value>, s1: Services, s2: Services,
                             t: Table, firstAt: int, secondAt: int, embedding: seq<real>, now: int, ttl: nat)
    requires AuthorPapers.Execute(first, s1).stored.Some? && AuthorPapers.Execute(second, s2).stored.Some?
    requires AuthorPapers.Validate(first).Success? && AuthorPapers.Validate(second).Success?
    requires AuthorPapers.Validate(first).value.authorId == AuthorPapers.Validate(second).value.authorId
    requires AuthorPapers.Validate(first).value.offset != AuthorPapers.Validate(second).value.offset
    requires KeysSorted(t) && KeyedByText(t)
    ensures var q1, q2 := AuthorPapers.Execute(first, s1).stored.value, AuthorPapers.Execute(second, s2).stored.value;
            forall h | h in Ranked(StoreBoth(t, q1, firstAt, q2, secondAt), embedding, now, ttl) :: h.query != q1
  {
    var a, b := AuthorPapers.Validate(first).value, AuthorPapers.Validate(second).value;
    var q1, q2 := AuthorPapers.Execute(first, s1).stored.value, AuthorPapers.Execute(second, s2).stored.value;
    ScanAndFetchSpec(s1, a.authorId, AuthorPapers.Action, AuthorPapers.Params(a), AuthorPapers.PapersRequest(a), AuthorPapers.FormatText);
    ScanAndFetchSpec(s2, b.authorId, AuthorPapers.Action, AuthorPapers.Params(b), AuthorPapers.PapersRequest(b), AuthorPapers.FormatText);
    AuthorPapers.ParamsMembers(a);
    AuthorPapers.ParamsMembers(b);
    assert q1.params != q2.params;
    Overwritten(t, q1, firstAt, q2, secondAt, embedding, now, ttl);
  }

  /**
   * The author is not among `author_papers`' parameters: an entry stored for one author,
   * ranked very similar for another author's id with the same fields, offset and limit,
   * answers for that other author with the first author's papers, and nothing is fetched.
   */
  lemma AuthorPapersOtherAuthor(first: Option<Value>, second: Option<Value>, s1: Services, s2: Services,
                                score: real, rest: seq<Hit>)
    requires AuthorPapers.Execute(first, s1).stored.Some?
    requires AuthorPapers.Validate(first).Success? && AuthorPapers.Validate(second).Success?
    requires var a, b := AuthorPapers.Validate(first).value, AuthorPapers.Validate(second).value;
             && a.fields == b.fields && a.offset == b.offset && a.limit == b.limit
             && s2.embed(b.authorId).Some?
             && s2.search(s2.embed(b.authorId).value) == Success([Hit(AuthorPapers.Execute(first, s1).stored.value, score)] + rest)
    requires VerySimilar(score)
    ensures AuthorPapers.Execute(second, s2) == Outcome(AuthorPapers.Execute(first, s1).result, None, None)
  {
    var a, b := AuthorPapers.Validate(first).value, AuthorPapers.Validate(second).value;
    ScanAndFetchSpec(s1, a.authorId, AuthorPapers.Action, AuthorPapers.Params(a), AuthorPapers.PapersRequest(a), AuthorPapers.FormatText);
    assert b == a.(authorId := b.authorId);
    assert AuthorPapers.Params(b) == AuthorPapers.Params(a);
  }

  /**
   * `paper_search` and `author_search` both key their entries by the raw query: searching
   * authors for the words a paper search used stores over the paper search's entry.
   */
  lemma SearchesShareKeys(papers: Option<Value>, authors: Option<Value>, s1: Services, s2: Services,
                          t: Table, firstAt: int, secondAt: int, embedding: seq<real>, now: int, ttl: nat)
    requires PaperSearch.Execute(papers, s1).stored.Some? && AuthorSearch.Execute(authors, s2).stored.Some?
    requires PaperSearch.Validate(papers).Success? && AuthorSearch.Validate(authors).Success?
    requires PaperSearch.Validate(papers).value.query == AuthorSearch.Validate(authors).value.query
    requires KeysSorted(t) && KeyedByText(t)
    ensures var q1, q2 := PaperSearch.Execute(papers, s1).stored.value, AuthorSearch.Execute(authors, s2).stored.value;
            forall h | h in Ranked(StoreBoth(t, q1, firstAt, q2, secondAt), embedding, now, ttl) :: h.query != q1
  {
    var a, b := PaperSearch.Validate(papers).value, AuthorSearch.Validate(authors).value;
    var q1, q2 := PaperSearch.Execute(papers, s1).stored.value, AuthorSearch.Execute(authors, s2).stored.value;
    ScanAndFetchSpec(s1, a.query, PaperSearch.Action, PaperSearch.Params(a),
                     Request(PaperSearch.Endpoint, PaperSearch.Params(a), None), PaperSearch.FormatText);
    ScanAndFetchSpec(s2, b.query, AuthorSearch.Action, AuthorSearch.Params(b),
                     Request(AuthorSearch.Endpoint, AuthorSearch.Params(b), None), AuthorSearch.FormatText);
    assert q1.action != q2.action;
    Overwritten(t, q1, firstAt, q2, secondAt, embedding, now, ttl);
  }

  /** A very similar top entry answers a top-entry tool, whoever stored it. */
  lemma TopEntryAnswers(s: Services, text: string, request: Result<Request, Error>, format: Value -> string,
                        kept: Kept, storeFatal: bool, q: Query, score: real, rest: seq<Hit>)
    requires s.embed(text).Some? && s.search(s.embed(text).value) == Success([Hit(q, score)] + rest)
    requires VerySimilar(score)
    ensures TopAndFetch(s, text, request, format, kept, storeFatal) == Outcome(FromCache(kept, q.results, format), None, None)
  {
  }

  /** What `author_details` stores is its answer, a JSON string. */
  lemma DetailsStoreAnswers(author: Option<Value>, s: Services)
    requires AuthorDetails.Execute(author, s).stored.Some?
    ensures AuthorDetails.Execute(author, s).stored.value.results.Str?
  {
    var a := AuthorDetails.Validate(author).value;
    TopAndFetchSpec(s, AuthorDetails.QueryText(a.authorId), Success(AuthorDetails.DetailsRequest(a)),
                    AuthorDetails.FormatText, FormattedAnswer, false);
  }

  /**
   * The top-entry tools do not check whose entry ranks first. `author_details` reads the top
   * entry as a cached answer (a JSON string); when it is the raw response `paper_citations`
   * stored, and that response is not a string, the call fails to deserialise it.
   */
  lemma DetailsFromCitationsEntry(citing: Option<Value>, author: Option<Value>, s1: Services, s2: Services,
                                  score: real, rest: seq<Hit>)
    requires PaperCitations.Execute(citing, s1).stored.Some?
    requires !PaperCitations.Execute(citing, s1).stored.value.results.Str?
    requires AuthorDetails.Validate(author).Success?
    requires var text := AuthorDetails.QueryText(AuthorDetails.Validate(author).value.authorId);
             && s2.embed(text).Some?
             && s2.search(s2.embed(text).value) == Success([Hit(PaperCitations.Execute(citing, s1).stored.value, score)] + rest)
    requires VerySimilar(score)
    ensures AuthorDetails.Execute(author, s2) == Outcome(Failure(Deserialize), None, None)
  {
    var a := AuthorDetails.Validate(author).value;
    TopEntryAnswers(s2, AuthorDetails.QueryText(a.authorId), Success(AuthorDetails.DetailsRequest(a)),
                    AuthorDetails.FormatText, FormattedAnswer, false, PaperCitations.Execute(citing, s1).stored.value, score, rest);
  }

  /**
   * And `paper_citations` formats the top entry as a citations response: when it is the
   * answer `author_details` stored (a JSON string), the call answers that no citations were
   * found, without a request, whatever the limit.
   */
  lemma CitationsFromDetailsEntry(author: Option<Value>, citing: Option<Value>, s1: Services, s2: Services,
                                  score: real, rest: seq<Hit>)
    requires AuthorDetails.Execute(author, s1).stored.Some?
    requires PaperCitations.Validate(citing).Success?
    requires var text := PaperCitations.QueryText(PaperCitations.Validate(citing).value.paperId);
             && s2.embed(text).Some?
             && s2.search(s2.embed(text).value) == Success([Hit(AuthorDetails.Execute(author, s1).stored.value, score)] + rest)
    requires VerySimilar(score)
    ensures PaperCitations.Execute(citing, s2).request.None?
    ensures PaperCitations.Execute(citing, s2).result
            == Success(Render([Message("No citations found or unexpected API response format.")]))
  {
    var q := AuthorDetails.Execute(author, s1).stored.value;
    DetailsStoreAnswers(author, s1);
    var c := PaperCitations.Validate(citing).value;
    TopEntryAnswers(s2, PaperCitations.QueryText(c.paperId), PaperCitations.CitationsRequest(c),
                    PaperCitations.FormatText, RawResponse, false, q, score, rest);
    CitationsOfAnswer(q.results.s);
  }

  /** A JSON string read as a citations response has no `data` array. */
  lemma CitationsOfAnswer(answer: string)
    ensures PaperCitations.FormatText(Str(answer)) == Render([Message("No citations found or unexpected API response format.")])
  {
    assert !HasError(Str(answer)) && GetArray(Str(answer), "data").None?;
  }
}
