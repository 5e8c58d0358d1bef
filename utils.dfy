/**
 * The request helpers shared by the tools: the per-endpoint `RateLimiter`, the query-string
 * serialiser `build_query_string`, and `make_request`'s URL assembly and status handling.
 * Time is integer milliseconds taken as a parameter; the sleep of `acquire` is returned as a
 * delay; the HTTP exchange is a function from the URL to the response, or to nothing when the
 * request cannot be sent.
 */
module RequestUtils {
  import opened Wrappers
  import opened Text
  import opened Json
  import opened SortedTable
  import opened PercentEncoding
  import opened Errors

  /** Endpoints whose path holds one of these strings are limited to one call per second. */
  const RestrictedEndpoints: seq<string> := ["/paper/batch", "/paper/search", "/recommendations"]

  /** `restricted_endpoints.iter().any(|r| endpoint.contains(r))`. */
  predicate AnyContained(restricted: seq<string>, endpoint: string)
    decreases |restricted|
  {
    |restricted| > 0 && (Contains(endpoint, restricted[0]) || AnyContained(restricted[1..], endpoint))
  }

  /** The minimum spacing of calls to `endpoint`: 1 s when restricted, else 100 ms. */
  function RateLimit(restricted: seq<string>, endpoint: string): nat {
    if AnyContained(restricted, endpoint) then 1000 else 100
  }

  /** The spacing is one second exactly when some restricted string occurs in the endpoint. */
  lemma {:induction false} RateLimitIff(restricted: seq<string>, endpoint: string)
    ensures RateLimit(restricted, endpoint) == 1000 <==>
            exists r, i :: r in restricted && OccursAt(endpoint, r, i)
    ensures RateLimit(restricted, endpoint) == 100 || RateLimit(restricted, endpoint) == 1000
    decreases |restricted|
  {
    if |restricted| > 0 {
      RateLimitIff(restricted[1..], endpoint);
      ContainsIff(endpoint, restricted[0]);
      forall r, i | r in restricted && OccursAt(endpoint, r, i)
        ensures AnyContained(restricted, endpoint)
      {
        ContainsIff(endpoint, r);
        if r != restricted[0] {
          assert r in restricted[1..];
        }
      }
      if AnyContained(restricted, endpoint) && !Contains(endpoint, restricted[0]) {
        var r, i :| r in restricted[1..] && OccursAt(endpoint, r, i);
        assert r in restricted;
      }
    }
  }

  /**
   * An endpoint without the letters `p` and `m` holds none of the restricted strings, so its
   * calls are spaced 100 ms apart.
   */
  lemma UnrestrictedEndpoint(endpoint: string)
    requires 'p' !in endpoint && 'm' !in endpoint
    ensures RateLimit(RestrictedEndpoints, endpoint) == 100
  {
    NotContains(endpoint, "/paper/batch", 'p');
    NotContains(endpoint, "/paper/search", 'p');
    NotContains(endpoint, "/recommendations", 'm');
    assert RestrictedEndpoints[1..][1..][1..] == [];
  }

  /**
   * The same for any two letters: one that each `/paper` string holds and one that
   * `/recommendations` holds, both missing from the endpoint.
   */
  lemma UnrestrictedWithout(endpoint: string, c: char, d: char)
    requires c in "/paper/batch" && c in "/paper/search" && d in "/recommendations"
    requires c !in endpoint && d !in endpoint
    ensures RateLimit(RestrictedEndpoints, endpoint) == 100
  {
    NotContains(endpoint, "/paper/batch", c);
    NotContains(endpoint, "/paper/search", c);
    NotContains(endpoint, "/recommendations", d);
    assert RestrictedEndpoints[1..][1..][1..] == [];
  }

  /** An endpoint that starts with a restricted string is spaced one second apart. */
  lemma RestrictedPrefix(endpoint: string, r: string)
    requires r in RestrictedEndpoints && StartsWith(endpoint, r)
    ensures RateLimit(RestrictedEndpoints, endpoint) == 1000
  {
    RateLimitIff(RestrictedEndpoints, endpoint);
    assert OccursAt(endpoint, r, 0);
  }

  /**
   * The sleep `acquire` performs, given the time of the endpoint's previous call (if any).
   * `Instant::elapsed` saturates at zero.
   */
  function Wait(last: Option<int>, now: int, rateLimit: nat): (w: nat)
    ensures w <= rateLimit
    ensures last.None? ==> w == 0
    ensures last.Some? && now >= last.value ==>
              now + w >= last.value + rateLimit && (w == 0 || now + w == last.value + rateLimit)
  {
    match last
    case None => 0
    case Some(t) =>
      var elapsed := if now >= t then now - t else 0;
      if elapsed < rateLimit then rateLimit - elapsed else 0
  }

  function LastCall(calls: map<string, int>, endpoint: string): Option<int> {
    if endpoint in calls then Some(calls[endpoint]) else None
  }

  class RateLimiter {
    /** The time each endpoint string was last let through. */
    var lastCallTime: map<string, int>
    const restrictedEndpoints: seq<string>

    constructor ()
      ensures lastCallTime == map[] && restrictedEndpoints == RestrictedEndpoints
    {
      lastCallTime := map[];
      restrictedEndpoints := RestrictedEndpoints;
    }

    /**
     * `acquire(endpoint)` at time `now`: waits `delay`, then records the time after the wait
     * for that exact endpoint string; other endpoints keep their times.
     */
    method Acquire(endpoint: string, now: int) returns (delay: nat)
      modifies this
      ensures delay == Wait(LastCall(old(lastCallTime), endpoint), now, RateLimit(restrictedEndpoints, endpoint))
      ensures lastCallTime == old(lastCallTime)[endpoint := now + delay]
    {
      var rateLimit := if AnyContained(restrictedEndpoints, endpoint) then 1000 else 100;
      delay := 0;
      if endpoint in lastCallTime {
        var elapsed := if now >= lastCallTime[endpoint] then now - lastCallTime[endpoint] else 0;
        if elapsed < rateLimit {
          delay := rateLimit - elapsed;
        }
      }
      lastCallTime := lastCallTime[endpoint := now + delay];
    }
  }

  /**
   * Two calls of one endpoint, the later at `now` (not before the earlier was recorded at
   * `last`), are let through at least the endpoint's rate limit apart.
   */
  lemma AcquireSpacing(restricted: seq<string>, endpoint: string, last: int, now: int)
    requires now >= last
    ensures var w := Wait(Some(last), now, RateLimit(restricted, endpoint));
      now + w - last >= RateLimit(restricted, endpoint) >= 100
  {
    RateLimitIff(restricted, endpoint);
  }

  /** The text a value contributes to the query string, or nothing for `null` and objects. */
  function Rendered(v: Value): Option<string> {
    match v
    case Str(s) => Some(Encode(s))
    case Number(n) => Some(IntToString(n))
    case Bool(b) => Some(if b then "true" else "false")
    case Array(items) => Some(Encode(Join(StringsOf(items), ",")))
    case _ => None
  }

  /** The `(key, value text)` pairs of the query string, in the object's iteration order. */
  function Fields(members: seq<(string, Value)>): (fs: seq<(string, string)>)
    ensures |fs| <= |members|
    decreases |members|
  {
    if |members| == 0 then []
    else
      var first := match Rendered(members[0].1)
        case Some(text) => [(members[0].0, text)]
        case None => [];
      first + Fields(members[1..])
  }

  function Part(field: (string, string)): string {
    field.0 + "=" + field.1
  }

  function Parts(fields: seq<(string, string)>): (ps: seq<string>)
    ensures |ps| == |fields| && forall i | 0 <= i < |fields| :: ps[i] == Part(fields[i])
    decreases |fields|
  {
    if |fields| == 0 then [] else [Part(fields[0])] + Parts(fields[1..])
  }

  /** `build_query_string(params)`: empty for anything but an object. */
  function QueryString(params: Value): string {
    if params.Object? then Join(Parts(Fields(params.members)), "&") else ""
  }

  /** The loop of lines 113-136, pushing one part per member that renders. */
  method BuildQueryString(params: Value) returns (query: string)
    ensures query == QueryString(params)
  {
    var queryParts: seq<string> := [];
    if params.Object? {
      var members := params.members;
      for i := 0 to |members|
        invariant queryParts == Parts(Fields(members[..i]))
      {
        var (key, value) := members[i];
        assert members[..i + 1] == members[..i] + [members[i]];
        PartsStep(members[..i], members[i]);
        match value {
          case Str(s) =>
            queryParts := queryParts + [key + "=" + Encode(s)];
          case Number(n) =>
            queryParts := queryParts + [key + "=" + IntToString(n)];
          case Bool(b) =>
            queryParts := queryParts + [key + "=" + (if b then "true" else "false")];
          case Array(items) =>
            var joined := Join(StringsOf(items), ",");
            queryParts := queryParts + [key + "=" + Encode(joined)];
          case _ =>
        }
      }
      assert members[..|members|] == members;
    }
    query := Join(queryParts, "&");
  }

  lemma PartsStep(prefix: seq<(string, Value)>, member: (string, Value))
    ensures Parts(Fields(prefix + [member])) ==
            Parts(Fields(prefix)) + match Rendered(member.1)
                                    case Some(text) => [member.0 + "=" + text]
                                    case None => []
  {
    FieldsConcat(prefix, [member]);
    PartsConcat(Fields(prefix), Fields([member]));
    assert [member][1..] == [];
  }

  lemma {:induction false} FieldsConcat(a: seq<(string, Value)>, b: seq<(string, Value)>)
    ensures Fields(a + b) == Fields(a) + Fields(b)
    decreases |a|
  {
    if |a| == 0 {
      assert a + b == b;
    } else {
      assert (a + b)[0] == a[0];
      assert (a + b)[1..] == a[1..] + b;
      FieldsConcat(a[1..], b);
    }
  }

  lemma {:induction false} PartsConcat(x: seq<(string, string)>, y: seq<(string, string)>)
    ensures Parts(x + y) == Parts(x) + Parts(y)
  {
  }

  /** A rendered value never holds `&` or `=`. */
  lemma RenderedDelimiterFree(v: Value)
    requires Rendered(v).Some?
    ensures '&' !in Rendered(v).value && '=' !in Rendered(v).value
  {
    match v
    case Str(s) => EncodeDelimiterFree(s);
    case Array(items) => EncodeDelimiterFree(Join(StringsOf(items), ","));
    case Number(n) =>
      var t := IntToString(n);
      forall i | 0 <= i < |t| ensures t[i] != '&' && t[i] != '=' {
        assert IsDigit(t[i]) || t[i] == '-';
      }
    case Bool(b) =>
  }

  /** An array without string elements still gives a part, with an empty value. */
  lemma ArrayWithoutStrings(key: string, items: seq<Value>)
    requires forall i | 0 <= i < |items| :: !items[i].Str?
    ensures Fields([(key, Array(items))]) == [(key, "")]
  {
    StringsOfNone(items);
    assert Utf8("") == [];
  }

  /** Every part of the query string comes from a member whose value renders. */
  lemma {:induction false} FieldsSource(members: seq<(string, Value)>, f: (string, string))
    requires f in Fields(members)
    ensures exists i :: 0 <= i < |members| && members[i].0 == f.0 && Rendered(members[i].1) == Some(f.1)
    decreases |members|
  {
    var first := match Rendered(members[0].1)
      case Some(text) => [(members[0].0, text)]
      case None => [];
    assert Fields(members) == first + Fields(members[1..]);
    if f in first {
      assert members[0].0 == f.0 && Rendered(members[0].1) == Some(f.1);
    } else {
      FieldsSource(members[1..], f);
      var i :| 0 <= i < |members| - 1 && members[1..][i].0 == f.0 && Rendered(members[1..][i].1) == Some(f.1);
      assert members[i + 1] == members[1..][i];
    }
  }

  /** A parameter that is missing or `null` contributes no part to the query string. */
  lemma NullOmitted(params: Value, key: string)
    requires params.Object? && KeysSorted(params.members)
    requires Rendered(Index(params, key)).None?
    ensures forall f | f in Fields(params.members) :: f.0 != key
  {
    forall f | f in Fields(params.members) ensures f.0 != key {
      FieldsSource(params.members, f);
      var i :| 0 <= i < |params.members| && params.members[i].0 == f.0 && Rendered(params.members[i].1) == Some(f.1);
      LookupAt(params.members, i);
    }
  }

  lemma {:induction false} StringsOfNone(items: seq<Value>)
    requires forall i | 0 <= i < |items| :: !items[i].Str?
    ensures StringsOf(items) == []
    decreases |items|
  {
    if |items| > 0 {
      StringsOfNone(items[1..]);
    }
  }

  /** Reading a query string back: split on `&`, then each part at its first `=`. */
  function ParseQuery(query: string): Option<seq<(string, string)>> {
    if query == "" then Some([]) else ParseParts(Split(query, '&'))
  }

  function ParseParts(parts: seq<string>): Option<seq<(string, string)>>
    decreases |parts|
  {
    if |parts| == 0 then Some([])
    else
      match SplitOnce(parts[0], '=')
      case None => None
      case Some(field) =>
        match ParseParts(parts[1..])
        case None => None
        case Some(rest) => Some([field] + rest)
  }

  predicate DelimiterFreeKeys(members: seq<(string, Value)>) {
    forall i | 0 <= i < |members| :: '&' !in members[i].0 && '=' !in members[i].0
  }

  lemma {:induction false} FieldsDelimiterFree(members: seq<(string, Value)>)
    requires DelimiterFreeKeys(members)
    ensures forall i | 0 <= i < |Fields(members)| ::
              '&' !in Fields(members)[i].0 && '=' !in Fields(members)[i].0
              && '&' !in Fields(members)[i].1 && '=' !in Fields(members)[i].1
    decreases |members|
  {
    if |members| > 0 {
      FieldsDelimiterFree(members[1..]);
      if Rendered(members[0].1).Some? {
        RenderedDelimiterFree(members[0].1);
      }
    }
  }

  lemma {:induction false} ParsePartsOfFields(fields: seq<(string, string)>)
    requires forall i | 0 <= i < |fields| :: '=' !in fields[i].0
    ensures ParseParts(Parts(fields)) == Some(fields)
    decreases |fields|
  {
    if |fields| > 0 {
      SplitOnceAt(fields[0].0, '=', fields[0].1);
      assert Part(fields[0]) == fields[0].0 + ['='] + fields[0].1;
      ParsePartsOfFields(fields[1..]);
      assert Parts(fields)[1..] == Parts(fields[1..]);
      assert [fields[0]] + fields[1..] == fields;
    }
  }

  /**
   * When no key holds `&` or `=`, the query string can be read back into exactly the
   * `(key, value text)` pairs it was built from: values are percent-encoded, so the
   * delimiters only ever come from the serialiser.
   */
  lemma QueryStringRoundTrip(members: seq<(string, Value)>)
    requires DelimiterFreeKeys(members)
    ensures ParseQuery(QueryString(Object(members))) == Some(Fields(members))
  {
    var fields := Fields(members);
    var parts := Parts(fields);
    FieldsDelimiterFree(members);
    ParsePartsOfFields(fields);
    if |parts| > 0 {
      forall i | 0 <= i < |parts| ensures '&' !in parts[i] {
        assert parts[i] == fields[i].0 + "=" + fields[i].1;
      }
      SplitJoin(parts, '&');
      assert |parts[0]| > 0 by {
        assert parts[0] == fields[0].0 + "=" + fields[0].1;
      }
      JoinNonEmpty(parts, "&");
    }
  }

  lemma JoinNonEmpty(parts: seq<string>, sep: string)
    requires |parts| > 0 && |parts[0]| > 0
    ensures Join(parts, sep) != ""
  {
  }

  /** The base URL `make_request` prefixes to every endpoint. */
  const BaseUrl: string := "https://api.semanticscholar.org/graph/v1"

  /** The URL of lines 65-71; the `?` is written even when the query string is empty. */
  function RequestUrl(endpoint: string, params: Option<Value>): string {
    match params
    case None => BaseUrl + endpoint
    case Some(p) => BaseUrl + endpoint + "?" + QueryString(p)
  }

  lemma {:induction false} SplitOnceAbsent(s: string, c: char)
    requires c !in s
    ensures SplitOnce(s, c) == None
    decreases |s|
  {
    if |s| > 0 {
      SplitOnceAbsent(s[1..], c);
    }
  }

  /**
   * For an endpoint without `?`, the URL splits at its first `?` into the base URL and endpoint
   * and the query string exactly when parameters were given.
   */
  lemma RequestUrlShape(endpoint: string, params: Option<Value>)
    requires '?' !in endpoint
    ensures SplitOnce(RequestUrl(endpoint, params), '?') ==
            match params
            case None => None
            case Some(p) => Some((BaseUrl + endpoint, QueryString(p)))
  {
    assert '?' !in BaseUrl + endpoint;
    match params
    case None => SplitOnceAbsent(BaseUrl + endpoint, '?');
    case Some(p) => SplitOnceAt(BaseUrl + endpoint, '?', QueryString(p));
  }

  /**
   * An HTTP response: its status, its body read as text (nothing when reading fails) and its
   * body parsed as JSON (nothing when it does not parse).
   */
  datatype Response = Response(status: int, text: Option<string>, json: Option<Value>)

  /** `status.is_success()`. */
  predicate IsSuccess(status: int) {
    200 <= status <= 299
  }

  /** Lines 85-107: what `make_request` returns for a response. */
  function Classify(response: Response): (r: Result<Value, Error>)
    ensures r.Success? <==> IsSuccess(response.status) && response.json.Some?
    ensures r.Success? ==> r.value == response.json.value
    ensures IsSuccess(response.status) && response.json.None? ==> r == Failure(ParseFailure)
    ensures response.status == 429 ==> r == Failure(RateLimitExceeded)
    ensures response.status == 404 ==> r == Failure(NotFound(response.text.GetOr("Unknown error")))
    ensures !IsSuccess(response.status) && response.status != 429 && response.status != 404 ==>
              r == Failure(HttpStatus(response.status, response.text.GetOr("Unknown error")))
  {
    if !IsSuccess(response.status) then
      var errorBody := response.text.GetOr("Unknown error");
      if response.status == 429 then Failure(RateLimitExceeded)
      else if response.status == 404 then Failure(NotFound(errorBody))
      else Failure(HttpStatus(response.status, errorBody))
    else
      match response.json
      case Some(body) => Success(body)
      case None => Failure(ParseFailure)
  }

  /**
   * `make_request(client, limiter, endpoint, params)` at time `now`: acquires the limiter, then
   * sends exactly one GET request and classifies the response. `sent` lists the URLs sent.
   */
  method MakeRequest(limiter: RateLimiter, endpoint: string, params: Option<Value>, now: int,
                     send: string -> Option<Response>)
    returns (r: Result<Value, Error>, delay: nat, sent: seq<string>)
    modifies limiter
    ensures delay == Wait(LastCall(old(limiter.lastCallTime), endpoint), now,
                          RateLimit(limiter.restrictedEndpoints, endpoint))
    ensures limiter.lastCallTime == old(limiter.lastCallTime)[endpoint := now + delay]
    ensures sent == [RequestUrl(endpoint, params)]
    ensures r == match send(RequestUrl(endpoint, params))
                 case None => Failure(Transport)
                 case Some(response) => Classify(response)
  {
    delay := limiter.Acquire(endpoint, now);
    var url;
    match params {
      case Some(p) =>
        var queryString := BuildQueryString(p);
        url := BaseUrl + endpoint + "?" + queryString;
      case None =>
        url := BaseUrl + endpoint;
    }
    sent := [url];
    var response := send(url);
    match response {
      case None =>
        r := Failure(Transport);
      case Some(resp) =>
        r := Classify(resp);
    }
  }
}
