/**
 * `LocalCache`, the LMDB-backed implementation of the `Cache` trait.
 *
 * The LMDB table maps a string key to a serialised `CacheEntry<Query>`. LMDB iterates a table
 * in key order, so the table is a sorted sequence of `(key, entry)` pairs
 * (`SortedTable.KeysSorted`). Every write transaction is one atomic update of that sequence,
 * committed or not as the environment decides; each method takes the outcome of the
 * transactions it opens as a parameter, and the clock reading as an integer `now`.
 *
 * `search_similarity` runs in two phases: a read phase (`ReadPhase`) that partitions the entries
 * into expired keys and scored live entries and sorts the scores, and a purge that deletes the
 * expired keys in a single write transaction.
 */
module LocalCacheModel {
  import opened Wrappers
  import opened Text
  import opened SortedTable
  import opened CacheModel
  import opened Similarity
  import opened Errors

  type Table = seq<(string, CacheEntry<Query>)>

  /** 60 * 60 * 24 seconds, in milliseconds. */
  const DefaultTtl: nat := 24 * 60 * 60 * 1000

  /** Each entry is stored under its query's text. */
  predicate KeyedByText(t: Table) {
    forall i | 0 <= i < |t| :: t[i].0 == t[i].1.value.text
  }

  /** An entry is expired once it is strictly older than the TTL. */
  predicate IsExpired(entry: CacheEntry<Query>, now: int, ttl: nat) {
    now - entry.createdAt > ttl
  }

  /** An entry takes part in the result: live, and comparable with the query embedding. */
  predicate Admitted(entry: CacheEntry<Query>, embedding: seq<real>, now: int, ttl: nat) {
    !IsExpired(entry, now, ttl) && Comparable(entry.value.embedding, embedding)
  }

  /** The `keys_to_purge` of the read phase: the keys of expired entries, in table order. */
  function ExpiredKeys(t: Table, now: int, ttl: nat): (ks: seq<string>)
    ensures |ks| <= |t|
    decreases |t|
  {
    if |t| == 0 then []
    else (if IsExpired(t[0].1, now, ttl) then [t[0].0] else []) + ExpiredKeys(t[1..], now, ttl)
  }

  /** The `results` of the read phase before sorting: the admitted entries with their scores. */
  function Scored(t: Table, embedding: seq<real>, now: int, ttl: nat): (hs: seq<Hit>)
    ensures |hs| <= |t|
    decreases |t|
  {
    if |t| == 0 then []
    else
      var entry := t[0].1;
      (if Admitted(entry, embedding, now, ttl)
       then [Hit(entry.value, Score(entry.value.embedding, embedding))]
       else [])
      + Scored(t[1..], embedding, now, ttl)
  }

  predicate NonIncreasing(hs: seq<Hit>) {
    forall i, j | 0 <= i < j < |hs| :: hs[i].score >= hs[j].score
  }

  /** Places `h` before the first hit that does not score strictly more. */
  function InsertByScore(h: Hit, s: seq<Hit>): (r: seq<Hit>)
    ensures |r| == |s| + 1
    decreases |s|
  {
    if |s| == 0 || h.score >= s[0].score then [h] + s
    else [s[0]] + InsertByScore(h, s[1..])
  }

  lemma {:induction false} InsertByScorePermutes(h: Hit, s: seq<Hit>)
    ensures multiset(InsertByScore(h, s)) == multiset(s) + multiset{h}
    decreases |s|
  {
    if |s| > 0 && h.score < s[0].score {
      InsertByScorePermutes(h, s[1..]);
      assert s == [s[0]] + s[1..];
    }
  }

  /**
   * `sort_by` with the comparator `b.1.partial_cmp(&a.1)`: a stable sort by descending score.
   * The result is sorted, a permutation of the input (`SortByScorePermutes`) and stable
   * (`SortStable`).
   */
  function SortByScore(hs: seq<Hit>): (r: seq<Hit>)
    ensures NonIncreasing(r)
    decreases |hs|
  {
    if |hs| == 0 then []
    else
      InsertByScoreOrdered(hs[0], SortByScore(hs[1..]));
      InsertByScore(hs[0], SortByScore(hs[1..]))
  }

  /** The sort only reorders: the result is a permutation of its input. */
  lemma {:induction false} SortByScorePermutes(hs: seq<Hit>)
    ensures multiset(SortByScore(hs)) == multiset(hs)
    decreases |hs|
  {
    if |hs| > 0 {
      SortByScorePermutes(hs[1..]);
      InsertByScorePermutes(hs[0], SortByScore(hs[1..]));
      assert hs == [hs[0]] + hs[1..];
    }
  }

  /** The list `search_similarity` returns. */
  function Ranked(t: Table, embedding: seq<real>, now: int, ttl: nat): seq<Hit> {
    SortByScore(Scored(t, embedding, now, ttl))
  }

  function AsSet(ks: seq<string>): set<string> {
    set k | k in ks
  }

  /** The table once the purge of the expired keys has been committed. */
  function Purged(t: Table, now: int, ttl: nat): Table {
    Without(t, AsSet(ExpiredKeys(t, now, ttl)))
  }

  lemma {:induction false} InsertByScoreOrdered(h: Hit, s: seq<Hit>)
    requires NonIncreasing(s)
    ensures NonIncreasing(InsertByScore(h, s))
    decreases |s|
  {
    if |s| > 0 && h.score < s[0].score {
      var rest := InsertByScore(h, s[1..]);
      InsertByScoreOrdered(h, s[1..]);
      InsertByScoreBound(h, s[1..], s[0].score);
      var r := [s[0]] + rest;
      forall i, j | 0 <= i < j < |r| ensures r[i].score >= r[j].score {
        if i == 0 {
          assert r[j] == rest[j - 1];
        } else {
          assert r[i] == rest[i - 1] && r[j] == rest[j - 1];
        }
      }
    }
  }

  lemma {:induction false} InsertByScoreBound(h: Hit, s: seq<Hit>, bound: real)
    requires h.score <= bound && forall k | 0 <= k < |s| :: s[k].score <= bound
    ensures forall k | 0 <= k < |InsertByScore(h, s)| :: InsertByScore(h, s)[k].score <= bound
    decreases |s|
  {
    if |s| > 0 && h.score < s[0].score {
      InsertByScoreBound(h, s[1..], bound);
    }
  }

  /** The hits with score `x`, in order. */
  function WithScore(hs: seq<Hit>, x: real): seq<Hit>
    decreases |hs|
  {
    if |hs| == 0 then []
    else (if hs[0].score == x then [hs[0]] else []) + WithScore(hs[1..], x)
  }

  lemma {:induction false} InsertByScoreStable(h: Hit, s: seq<Hit>, x: real)
    ensures WithScore(InsertByScore(h, s), x) == WithScore([h] + s, x)
    decreases |s|
  {
    assert ([h] + s)[1..] == s;
    if |s| > 0 && h.score < s[0].score {
      InsertByScoreStable(h, s[1..], x);
      var rest := InsertByScore(h, s[1..]);
      assert ([s[0]] + rest)[1..] == rest;
      assert ([h] + s[1..])[1..] == s[1..];
    }
  }

  /** The sort is stable: hits of equal score keep their relative (table) order. */
  lemma {:induction false} SortStable(hs: seq<Hit>, x: real)
    ensures WithScore(SortByScore(hs), x) == WithScore(hs, x)
    decreases |hs|
  {
    if |hs| > 0 {
      SortStable(hs[1..], x);
      InsertByScoreStable(hs[0], SortByScore(hs[1..]), x);
      assert ([hs[0]] + SortByScore(hs[1..]))[1..] == SortByScore(hs[1..]);
    }
  }

  lemma {:induction false} InsertByScoreAt(h: Hit, s: seq<Hit>, j: int)
    requires 0 <= j <= |s|
    requires forall k | 0 <= k < j :: s[k].score > h.score
    requires j == |s| || s[j].score <= h.score
    ensures InsertByScore(h, s) == s[..j] + [h] + s[j..]
    decreases j
  {
    if j == 0 {
      assert s[..0] + [h] + s[0..] == [h] + s;
    } else {
      var tail := s[1..];
      assert h.score < s[0].score;
      assert InsertByScore(h, s) == [s[0]] + InsertByScore(h, tail);
      forall k | 0 <= k < j - 1 ensures tail[k].score > h.score {
        assert tail[k] == s[k + 1];
      }
      assert j - 1 == |tail| || tail[j - 1] == s[j];
      InsertByScoreAt(h, tail, j - 1);
      assert s[..j] == [s[0]] + tail[..j - 1];
      assert s[j..] == tail[j - 1..];
    }
  }

  /** The in-place `sort_by` of line 90, as an insertion sort from the back. */
  method SortDescending(hits: seq<Hit>) returns (sorted: seq<Hit>)
    ensures sorted == SortByScore(hits)
  {
    sorted := [];
    var i := |hits|;
    while i > 0
      invariant 0 <= i <= |hits|
      invariant sorted == SortByScore(hits[i..])
    {
      i := i - 1;
      var h := hits[i];
      var j := 0;
      while j < |sorted| && sorted[j].score > h.score
        invariant 0 <= j <= |sorted|
        invariant forall k | 0 <= k < j :: sorted[k].score > h.score
      {
        j := j + 1;
      }
      InsertByScoreAt(h, sorted, j);
      assert hits[i..][1..] == hits[i + 1..];
      sorted := sorted[..j] + [h] + sorted[j..];
    }
    assert hits[0..] == hits;
  }

  lemma {:induction false} ScoredConcat(a: Table, b: Table, embedding: seq<real>, now: int, ttl: nat)
    ensures Scored(a + b, embedding, now, ttl) == Scored(a, embedding, now, ttl) + Scored(b, embedding, now, ttl)
    decreases |a|
  {
    if |a| == 0 {
      assert a + b == b;
    } else {
      var ab := a + b;
      assert ab[0] == a[0] && ab[1..] == a[1..] + b;
      ScoredConcat(a[1..], b, embedding, now, ttl);
      var entry := a[0].1;
      var h := if Admitted(entry, embedding, now, ttl) then [Hit(entry.value, Score(entry.value.embedding, embedding))] else [];
      assert Scored(ab, embedding, now, ttl) == h + Scored(a[1..] + b, embedding, now, ttl);
      assert Scored(a, embedding, now, ttl) == h + Scored(a[1..], embedding, now, ttl);
      assert h + (Scored(a[1..], embedding, now, ttl) + Scored(b, embedding, now, ttl))
          == h + Scored(a[1..], embedding, now, ttl) + Scored(b, embedding, now, ttl);
    }
  }

  lemma {:induction false} ExpiredConcat(a: Table, b: Table, now: int, ttl: nat)
    ensures ExpiredKeys(a + b, now, ttl) == ExpiredKeys(a, now, ttl) + ExpiredKeys(b, now, ttl)
    decreases |a|
  {
    if |a| == 0 {
      assert a + b == b;
    } else {
      var ab := a + b;
      assert ab[0] == a[0] && ab[1..] == a[1..] + b;
      ExpiredConcat(a[1..], b, now, ttl);
      var h := if IsExpired(a[0].1, now, ttl) then [a[0].0] else [];
      assert ExpiredKeys(ab, now, ttl) == h + ExpiredKeys(a[1..] + b, now, ttl);
      assert ExpiredKeys(a, now, ttl) == h + ExpiredKeys(a[1..], now, ttl);
      assert h + (ExpiredKeys(a[1..], now, ttl) + ExpiredKeys(b, now, ttl))
          == h + ExpiredKeys(a[1..], now, ttl) + ExpiredKeys(b, now, ttl);
    }
  }

  /**
   * The block of lines 53-93: one pass over the table in key order that sets aside expired keys
   * and scores the live entries, then the sort.
   */
  method ReadPhase(t: Table, embedding: seq<real>, now: int, ttl: nat)
    returns (results: seq<Hit>, keysToPurge: seq<string>)
    ensures results == Ranked(t, embedding, now, ttl)
    ensures keysToPurge == ExpiredKeys(t, now, ttl)
  {
    var pushed: seq<Hit> := [];
    keysToPurge := [];
    for i := 0 to |t|
      invariant pushed == Scored(t[..i], embedding, now, ttl)
      invariant keysToPurge == ExpiredKeys(t[..i], now, ttl)
    {
      var (key, entry) := t[i];
      ScoredConcat(t[..i], [t[i]], embedding, now, ttl);
      ExpiredConcat(t[..i], [t[i]], now, ttl);
      assert t[..i + 1] == t[..i] + [t[i]];
      if IsExpired(entry, now, ttl) {
        keysToPurge := keysToPurge + [key];
        continue;
      }
      var comparable, similarity := PrefixSimilarity(entry.value.embedding, embedding);
      if comparable {
        pushed := pushed + [Hit(entry.value, similarity)];
      }
    }
    assert t[..|t|] == t;
    results := SortDescending(pushed);
  }

  /** The delete loop of lines 97-99, on the write transaction's view of the table. */
  method DeleteAll(t: Table, keys: seq<string>) returns (writeTxn: Table)
    ensures writeTxn == Without(t, AsSet(keys))
  {
    WithoutAbsent(t, {});
    assert AsSet(keys[..0]) == {};
    writeTxn := t;
    for i := 0 to |keys|
      invariant writeTxn == Without(t, AsSet(keys[..i]))
    {
      WithoutWithout(t, AsSet(keys[..i]), {keys[i]});
      assert AsSet(keys[..i + 1]) == AsSet(keys[..i]) + {keys[i]} by {
        assert keys[..i + 1] == keys[..i] + [keys[i]];
      }
      writeTxn := Delete(writeTxn, keys[i]);
    }
    assert keys[..|keys|] == keys;
  }

  class LocalCache {
    /** The `cache` database of the LMDB environment. */
    var table: Table
    const ttl: nat

    predicate Valid()
      reads this
    {
      KeysSorted(table) && KeyedByText(table)
    }

    /** `new(path, ttl)`: the TTL defaults to 24 hours; the database starts empty. */
    constructor (ttl: Option<nat>)
      ensures table == [] && this.ttl == ttl.GetOr(DefaultTtl)
      ensures Valid()
    {
      table := [];
      this.ttl := ttl.GetOr(DefaultTtl);
    }

    /**
     * `store`: puts `(query, now)` under `query.text`, replacing any entry of that text, in one
     * write transaction. If the transaction fails, nothing changes and the error is returned.
     */
    method Store(query: Query, now: int, commitOk: bool) returns (r: Result<(), Error>)
      requires Valid()
      modifies this
      ensures Valid()
      ensures r == if commitOk then Success(()) else Failure(Storage)
      ensures table == if commitOk then Insert(old(table), query.text, CacheEntry(query, now)) else old(table)
    {
      var writeTxn := Insert(table, query.text, CacheEntry(query, now));
      StoreKeyed(table, query, now);
      if !commitOk {
        return Failure(Storage);
      }
      table := writeTxn;
      return Success(());
    }

    /**
     * `search_similarity`: the ranked live entries, after deleting the expired ones. A failure
     * of the read phase, or of the purge transaction when there is something to purge, fails
     * the whole call and leaves the table as it was.
     */
    method SearchSimilarity(embedding: seq<real>, now: int, readOk: bool, purgeOk: bool)
      returns (r: Result<seq<Hit>, Error>)
      requires Valid()
      modifies this
      ensures Valid()
      ensures var purging := |ExpiredKeys(old(table), now, ttl)| > 0;
        && r == (if readOk && (!purging || purgeOk) then Success(Ranked(old(table), embedding, now, ttl))
                 else Failure(Storage))
        && table == (if readOk && purging && purgeOk then Purged(old(table), now, ttl) else old(table))
    {
      if !readOk {
        return Failure(Storage);
      }
      var results, keysToPurge := ReadPhase(table, embedding, now, ttl);
      if |keysToPurge| > 0 {
        var writeTxn := DeleteAll(table, keysToPurge);
        if !purgeOk {
          return Failure(Storage);
        }
        PurgedValid(table, now, ttl);
        table := writeTxn;
      }
      return Success(results);
    }
  }

  /** An upsert keyed by the query's text keeps the table sorted and keyed by text. */
  lemma StoreKeyed(t: Table, query: Query, now: int)
    requires KeysSorted(t) && KeyedByText(t)
    ensures var r := Insert(t, query.text, CacheEntry(query, now));
      KeysSorted(r) && KeyedByText(r)
  {
    var r := Insert(t, query.text, CacheEntry(query, now));
    InsertElements(t, query.text, CacheEntry(query, now));
    forall i | 0 <= i < |r| ensures r[i].0 == r[i].1.value.text {
      assert r[i] in r;
    }
  }

  lemma PurgedValid(t: Table, now: int, ttl: nat)
    requires KeysSorted(t) && KeyedByText(t)
    ensures KeysSorted(Purged(t, now, ttl)) && KeyedByText(Purged(t, now, ttl))
  {
    WithoutSorted(t, AsSet(ExpiredKeys(t, now, ttl)));
    WithoutElements(t, AsSet(ExpiredKeys(t, now, ttl)));
  }

  lemma {:induction false} WithoutElements(t: Table, ks: set<string>)
    requires KeyedByText(t)
    ensures KeyedByText(Without(t, ks))
    decreases |t|
  {
    if |t| > 0 {
      assert KeyedByText(t[1..]);
      WithoutElements(t[1..], ks);
    }
  }

  /** A key is purged iff one of the table's entries under it is expired. */
  lemma {:induction false} ExpiredKeysMember(t: Table, now: int, ttl: nat, key: string)
    ensures key in ExpiredKeys(t, now, ttl) <==>
            exists i :: 0 <= i < |t| && t[i].0 == key && IsExpired(t[i].1, now, ttl)
    decreases |t|
  {
    if |t| > 0 {
      ExpiredKeysMember(t[1..], now, ttl, key);
      if key in ExpiredKeys(t[1..], now, ttl) {
        var i :| 0 <= i < |t[1..]| && t[1..][i].0 == key && IsExpired(t[1..][i].1, now, ttl);
        assert t[i + 1] == t[1..][i];
      }
      forall i | 1 <= i < |t| && t[i].0 == key && IsExpired(t[i].1, now, ttl)
        ensures key in ExpiredKeys(t[1..], now, ttl)
      {
        assert t[1..][i - 1] == t[i];
      }
    }
  }

  /**
   * A hit is returned iff it is a live entry of the table that is comparable with the query,
   * paired with its score: expired entries and zero-magnitude prefixes never appear.
   */
  lemma {:induction false} ScoredMember(t: Table, embedding: seq<real>, now: int, ttl: nat, h: Hit)
    ensures h in Scored(t, embedding, now, ttl) <==>
            exists i :: 0 <= i < |t| && Admitted(t[i].1, embedding, now, ttl)
                        && h == Hit(t[i].1.value, Score(t[i].1.value.embedding, embedding))
    decreases |t|
  {
    if |t| > 0 {
      ScoredMember(t[1..], embedding, now, ttl, h);
      if h in Scored(t[1..], embedding, now, ttl) {
        var i :| 0 <= i < |t[1..]| && Admitted(t[1..][i].1, embedding, now, ttl)
                 && h == Hit(t[1..][i].1.value, Score(t[1..][i].1.value.embedding, embedding));
        assert t[i + 1] == t[1..][i];
      }
      forall i | 1 <= i < |t| && Admitted(t[i].1, embedding, now, ttl)
                 && h == Hit(t[i].1.value, Score(t[i].1.value.embedding, embedding))
        ensures h in Scored(t[1..], embedding, now, ttl)
      {
        assert t[1..][i - 1] == t[i];
      }
    }
  }

  /** The ranked list holds exactly the admitted entries, sorted by non-increasing score. */
  lemma RankedMember(t: Table, embedding: seq<real>, now: int, ttl: nat, h: Hit)
    ensures NonIncreasing(Ranked(t, embedding, now, ttl))
    ensures h in Ranked(t, embedding, now, ttl) <==>
            exists i :: 0 <= i < |t| && Admitted(t[i].1, embedding, now, ttl)
                        && h == Hit(t[i].1.value, Score(t[i].1.value.embedding, embedding))
  {
    var s := Scored(t, embedding, now, ttl);
    SortByScorePermutes(s);
    assert h in Ranked(t, embedding, now, ttl) <==> h in multiset(s);
    ScoredMember(t, embedding, now, ttl, h);
  }

  /** Every returned similarity lies in [-1, 1]. */
  lemma RankedRange(t: Table, embedding: seq<real>, now: int, ttl: nat)
    ensures forall h | h in Ranked(t, embedding, now, ttl) :: -1.0 <= h.score <= 1.0
  {
    forall h | h in Ranked(t, embedding, now, ttl) ensures -1.0 <= h.score <= 1.0 {
      RankedMember(t, embedding, now, ttl, h);
      var i :| 0 <= i < |t| && Admitted(t[i].1, embedding, now, ttl)
               && h == Hit(t[i].1.value, Score(t[i].1.value.embedding, embedding));
      ScoreRange(t[i].1.value.embedding, embedding);
    }
  }

  /** The purge removes exactly the expired entries: live entries keep their value. */
  lemma {:induction false} PurgedLookup(t: Table, now: int, ttl: nat, key: string)
    requires KeysSorted(t)
    ensures Lookup(Purged(t, now, ttl), key) ==
            match Lookup(t, key)
            case Some(entry) => if IsExpired(entry, now, ttl) then None else Some(entry)
            case None => None
  {
    LookupWithout(t, AsSet(ExpiredKeys(t, now, ttl)), key);
    ExpiredKeysMember(t, now, ttl, key);
    if Lookup(t, key).Some? {
      LookupIndex(t, key);
      var i :| 0 <= i < |t| && t[i] == (key, Lookup(t, key).value);
      forall j | 0 <= j < |t| && t[j].0 == key ensures j == i {
        SortedDistinct(t, i, j);
      }
    } else {
      forall j | 0 <= j < |t| && t[j].0 == key ensures false {
        LookupAt(t, j);
      }
    }
  }

  lemma {:induction false} ScoredWithout(t: Table, ks: set<string>, embedding: seq<real>, now: int, ttl: nat)
    requires forall i | 0 <= i < |t| && t[i].0 in ks :: IsExpired(t[i].1, now, ttl)
    ensures Scored(Without(t, ks), embedding, now, ttl) == Scored(t, embedding, now, ttl)
    decreases |t|
  {
    if |t| > 0 {
      ScoredWithout(t[1..], ks, embedding, now, ttl);
      if t[0].0 !in ks {
        assert ([t[0]] + Without(t[1..], ks))[1..] == Without(t[1..], ks);
      }
    }
  }

  lemma {:induction false} ExpiredKeysWithout(t: Table, ks: set<string>, now: int, ttl: nat)
    requires forall i | 0 <= i < |t| && IsExpired(t[i].1, now, ttl) :: t[i].0 in ks
    ensures ExpiredKeys(Without(t, ks), now, ttl) == []
    decreases |t|
  {
    if |t| > 0 {
      ExpiredKeysWithout(t[1..], ks, now, ttl);
      if t[0].0 !in ks {
        assert ([t[0]] + Without(t[1..], ks))[1..] == Without(t[1..], ks);
      }
    }
  }

  /**
   * A second search at the same time, after a successful first one, finds nothing to purge and
   * returns the same list.
   */
  lemma RepeatSearch(t: Table, embedding: seq<real>, now: int, ttl: nat)
    requires KeysSorted(t)
    ensures ExpiredKeys(Purged(t, now, ttl), now, ttl) == []
    ensures Ranked(Purged(t, now, ttl), embedding, now, ttl) == Ranked(t, embedding, now, ttl)
  {
    var ks := AsSet(ExpiredKeys(t, now, ttl));
    forall i | 0 <= i < |t| && IsExpired(t[i].1, now, ttl) ensures t[i].0 in ks {
      ExpiredKeysMember(t, now, ttl, t[i].0);
    }
    ExpiredKeysWithout(t, ks, now, ttl);
    forall i | 0 <= i < |t| && t[i].0 in ks ensures IsExpired(t[i].1, now, ttl) {
      ExpiredKeysMember(t, now, ttl, t[i].0);
      var j :| 0 <= j < |t| && t[j].0 == t[i].0 && IsExpired(t[j].1, now, ttl);
      SortedDistinct(t, i, j);
    }
    ScoredWithout(t, ks, embedding, now, ttl);
  }

  /**
   * A query stored at `createdAt`, searched with its own (non-zero) embedding while it is
   * live, is returned with similarity 1, and nothing scores higher.
   */
  lemma StoreThenSearch(t: Table, query: Query, createdAt: int, now: int, ttl: nat)
    requires KeysSorted(t)
    requires Comparable(query.embedding, query.embedding)
    requires now - createdAt <= ttl
    ensures var r := Ranked(Insert(t, query.text, CacheEntry(query, createdAt)), query.embedding, now, ttl);
      Hit(query, 1.0) in r && r[0].score == 1.0
  {
    var stored := Insert(t, query.text, CacheEntry(query, createdAt));
    var r := Ranked(stored, query.embedding, now, ttl);
    LookupIndex(stored, query.text);
    var i :| 0 <= i < |stored| && stored[i] == (query.text, CacheEntry(query, createdAt));
    ScoreSelf(query.embedding);
    RankedMember(stored, query.embedding, now, ttl, Hit(query, 1.0));
    var j :| 0 <= j < |r| && r[j] == Hit(query, 1.0);
    RankedRange(stored, query.embedding, now, ttl);
    assert r[0] in r;
    if j > 0 {
      assert r[0].score >= r[j].score;
    }
  }

  /**
   * Storing a second query with the same text evicts the first: whatever the embedding and
   * the time, a search never returns the earlier query.
   */
  lemma Evicted(t: Table, first: Query, second: Query, createdAt: int, embedding: seq<real>, now: int, ttl: nat)
    requires KeysSorted(t) && KeyedByText(t)
    requires first.text == second.text && first != second
    ensures forall h | h in Ranked(Insert(t, second.text, CacheEntry(second, createdAt)), embedding, now, ttl) ::
              h.query != first
  {
    var stored := Insert(t, second.text, CacheEntry(second, createdAt));
    StoreKeyed(t, second, createdAt);
    forall h | h in Ranked(stored, embedding, now, ttl) ensures h.query != first {
      RankedMember(stored, embedding, now, ttl, h);
      var i :| 0 <= i < |stored| && Admitted(stored[i].1, embedding, now, ttl)
               && h == Hit(stored[i].1.value, Score(stored[i].1.value.embedding, embedding));
      if h.query == first {
        LookupAt(stored, i);
        assert false;
      }
    }
  }
}
