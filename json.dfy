/**
 * The part of `serde_json::Value` the core uses. Numbers are integers. An object is the
 * sequence of its members in iteration order; `serde_json::Map` is ordered by key, so every
 * object built here is a sorted table (`SortedTable.KeysSorted`), and comparing two such
 * objects as sequences is comparing them as maps (`SortedTable.SortedCanonical`).
 */
module Json {
  import opened Wrappers
  import opened Text
  import opened SortedTable

  datatype Value =
    | Null
    | Bool(b: bool)
    | Number(n: int)
    | Str(s: string)
    | Array(items: seq<Value>)
    | Object(members: seq<(string, Value)>)

  /** One more than the largest `u64`. */
  const U64Limit: int := 0x1_0000_0000_0000_0000

  /** `v.get(key)`: the member of an object; nothing for any other kind of value. */
  function Get(v: Value, key: string): Option<Value> {
    if v.Object? then Lookup(v.members, key) else None
  }

  /** `v[key]`: like `get`, but `Null` when there is no such member. */
  function Index(v: Value, key: string): Value {
    Get(v, key).GetOr(Null)
  }

  /** `v.get(key).and_then(|x| x.as_str())`. */
  function GetStr(v: Value, key: string): Option<string> {
    match Get(v, key)
    case Some(Str(s)) => Some(s)
    case _ => None
  }

  /** `v.get(key).and_then(|x| x.as_u64())`: integers outside the `u64` range give nothing. */
  function GetU64(v: Value, key: string): Option<nat> {
    match Get(v, key)
    case Some(Number(n)) => if 0 <= n < U64Limit then Some(n) else None
    case _ => None
  }

  /** `v.get(key).and_then(|x| x.as_bool())`. */
  function GetBool(v: Value, key: string): Option<bool> {
    match Get(v, key)
    case Some(Bool(b)) => Some(b)
    case _ => None
  }

  /** `v.get(key).and_then(|x| x.as_array())`. */
  function GetArray(v: Value, key: string): Option<seq<Value>> {
    match Get(v, key)
    case Some(Array(items)) => Some(items)
    case _ => None
  }

  /** `items.iter().filter_map(|x| x.as_str())`: the string elements, in order. */
  function StringsOf(items: seq<Value>): (r: seq<string>)
    ensures |r| <= |items|
    decreases |items|
  {
    if |items| == 0 then []
    else if items[0].Str? then [items[0].s] + StringsOf(items[1..])
    else StringsOf(items[1..])
  }

  lemma {:induction false} StringsOfAllStrings(ss: seq<string>)
    ensures StringsOf(seq(|ss|, i requires 0 <= i < |ss| => Str(ss[i]))) == ss
    decreases |ss|
  {
    var items := seq(|ss|, i requires 0 <= i < |ss| => Str(ss[i]));
    if |ss| > 0 {
      var tail := seq(|ss| - 1, i requires 0 <= i < |ss| - 1 => Str(ss[1..][i]));
      assert items[1..] == tail;
      StringsOfAllStrings(ss[1..]);
      assert [ss[0]] + ss[1..] == ss;
    }
  }

  /** An object built by inserting the pairs in order into an empty map (`json!({...})`). */
  function ObjectOf(pairs: seq<(string, Value)>): (v: Value)
    ensures v.Object? && KeysSorted(v.members)
  {
    Object(InsertAll([], pairs))
  }

  /** Each member of a `json!` object holds the value written last for its key. */
  lemma ObjectOfGet(pairs: seq<(string, Value)>, key: string)
    ensures Get(ObjectOf(pairs), key) == LastFor(pairs, key)
  {
    InsertAllLookup([], pairs, key);
    match LastFor(pairs, key)
    case Some(_) =>
    case None =>
  }

  /** A `json!` object with distinct keys holds each value under its key. */
  lemma ObjectOfMembers(pairs: seq<(string, Value)>)
    requires DistinctKeys(pairs)
    ensures forall i | 0 <= i < |pairs| :: Get(ObjectOf(pairs), pairs[i].0) == Some(pairs[i].1)
  {
    forall i | 0 <= i < |pairs| ensures Get(ObjectOf(pairs), pairs[i].0) == Some(pairs[i].1) {
      ObjectOfGet(pairs, pairs[i].0);
      LastForDistinct(pairs, i);
    }
  }
}
