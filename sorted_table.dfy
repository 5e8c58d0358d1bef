/**
 * A finite map from string keys kept as a sequence of pairs in strictly increasing key order.
 * This is both the iteration order of a `serde_json::Map` (a B-tree map) and the order in which
 * an LMDB table yields its records, so one definition serves JSON objects and the cache table.
 * For sorted tables, equality of the sequences is equality of the maps (`SortedCanonical`).
 */
module SortedTable {
  import opened Wrappers
  import opened Text

  /** Keys strictly increase, hence are pairwise distinct. */
  predicate KeysSorted<V>(t: seq<(string, V)>) {
    forall i | 0 <= i < |t| - 1 :: Less(t[i].0, t[i + 1].0)
  }

  /** `get(key)`: the value stored under `key`. */
  function Lookup<V>(t: seq<(string, V)>, key: string): Option<V>
    decreases |t|
  {
    if |t| == 0 then None
    else if t[0].0 == key then Some(t[0].1)
    else Lookup(t[1..], key)
  }

  /** The keys in table order. */
  function Keys<V>(t: seq<(string, V)>): (ks: seq<string>)
    ensures |ks| == |t| && forall i | 0 <= i < |t| :: ks[i] == t[i].0
    decreases |t|
  {
    if |t| == 0 then [] else [t[0].0] + Keys(t[1..])
  }

  /** `insert`/`put`: replaces the value of an existing key, else adds the key in order. */
  function Insert<V>(t: seq<(string, V)>, key: string, value: V): (r: seq<(string, V)>)
    requires KeysSorted(t)
    ensures KeysSorted(r)
    ensures |r| > 0 && (r[0].0 == key || (|t| > 0 && r[0].0 == t[0].0))
    ensures Lookup(r, key) == Some(value)
    ensures forall k :: k != key ==> Lookup(r, k) == Lookup(t, k)
    decreases |t|
  {
    if |t| == 0 then [(key, value)]
    else if t[0].0 == key then [(key, value)] + t[1..]
    else if Less(key, t[0].0) then [(key, value)] + t
    else
      LessTotal(key, t[0].0);
      [t[0]] + Insert(t[1..], key, value)
  }

  /** The table after deleting every key of `ks`. */
  function Without<V>(t: seq<(string, V)>, ks: set<string>): (r: seq<(string, V)>)
    ensures |r| <= |t|
    decreases |t|
  {
    if |t| == 0 then []
    else if t[0].0 in ks then Without(t[1..], ks)
    else [t[0]] + Without(t[1..], ks)
  }

  /** `delete(key)` on a table; deleting a missing key changes nothing. */
  function Delete<V>(t: seq<(string, V)>, key: string): seq<(string, V)> {
    Without(t, {key})
  }

  /** Inserting the pairs in order into `t`. */
  function InsertAll<V>(t: seq<(string, V)>, pairs: seq<(string, V)>): (r: seq<(string, V)>)
    requires KeysSorted(t)
    ensures KeysSorted(r)
    decreases |pairs|
  {
    if |pairs| == 0 then t
    else InsertAll(Insert(t, pairs[0].0, pairs[0].1), pairs[1..])
  }

  /** The value paired with `key` last in `pairs`. */
  function LastFor<V>(pairs: seq<(string, V)>, key: string): Option<V>
    decreases |pairs|
  {
    if |pairs| == 0 then None
    else match LastFor(pairs[1..], key)
      case Some(v) => Some(v)
      case None => if pairs[0].0 == key then Some(pairs[0].1) else None
  }

  /** No two pairs share a key. */
  predicate DistinctKeys<V>(pairs: seq<(string, V)>) {
    forall i, j | 0 <= i < j < |pairs| :: pairs[i].0 != pairs[j].0
  }

  lemma {:induction false} LastForMissing<V>(pairs: seq<(string, V)>, key: string)
    requires forall j | 0 <= j < |pairs| :: pairs[j].0 != key
    ensures LastFor(pairs, key) == None
    decreases |pairs|
  {
    if |pairs| > 0 {
      LastForMissing(pairs[1..], key);
    }
  }

  /** Among pairs with distinct keys, each key's last value is its only value. */
  lemma {:induction false} LastForDistinct<V>(pairs: seq<(string, V)>, i: int)
    requires DistinctKeys(pairs) && 0 <= i < |pairs|
    ensures LastFor(pairs, pairs[i].0) == Some(pairs[i].1)
    decreases |pairs|
  {
    if i == 0 {
      LastForMissing(pairs[1..], pairs[0].0);
    } else {
      LastForDistinct(pairs[1..], i - 1);
    }
  }

  /** After inserting `pairs`, a key holds the last value inserted for it, or its older value. */
  lemma {:induction false} InsertAllLookup<V>(t: seq<(string, V)>, pairs: seq<(string, V)>, key: string)
    requires KeysSorted(t)
    ensures Lookup(InsertAll(t, pairs), key) ==
            match LastFor(pairs, key) case Some(v) => Some(v) case None => Lookup(t, key)
    decreases |pairs|
  {
    if |pairs| > 0 {
      InsertAllLookup(Insert(t, pairs[0].0, pairs[0].1), pairs[1..], key);
    }
  }

  /** A key is present iff it is one of the table's keys, and then its value is that pair's. */
  lemma {:induction false} LookupAt<V>(t: seq<(string, V)>, i: int)
    requires KeysSorted(t) && 0 <= i < |t|
    ensures Lookup(t, t[i].0) == Some(t[i].1)
    decreases i
  {
    if i > 0 {
      SortedOrder(t, 0, i);
      LessIrreflexive(t[0].0);
      assert KeysSorted(t[1..]);
      LookupAt(t[1..], i - 1);
    }
  }

  /** In a sorted table an earlier key is below every later one. */
  lemma {:induction false} SortedOrder<V>(t: seq<(string, V)>, i: int, j: int)
    requires KeysSorted(t)
    requires 0 <= i < j < |t|
    ensures Less(t[i].0, t[j].0)
    decreases j - i
  {
    if j > i + 1 {
      SortedOrder(t, i, j - 1);
      LessTransitive(t[i].0, t[j - 1].0, t[j].0);
    }
  }

  /** Keys of a sorted table are pairwise distinct. */
  lemma SortedDistinct<V>(t: seq<(string, V)>, i: int, j: int)
    requires KeysSorted(t)
    requires 0 <= i < |t| && 0 <= j < |t| && t[i].0 == t[j].0
    ensures i == j
  {
    if i < j {
      SortedOrder(t, i, j);
      LessIrreflexive(t[i].0);
    } else if j < i {
      SortedOrder(t, j, i);
      LessIrreflexive(t[j].0);
    }
  }

  lemma {:induction false} LookupMissing<V>(t: seq<(string, V)>, key: string)
    requires forall j | 0 <= j < |t| :: t[j].0 != key
    ensures Lookup(t, key) == None
    decreases |t|
  {
    if |t| > 0 {
      LookupMissing(t[1..], key);
    }
  }

  lemma LookupAbsentBelowHead<V>(t: seq<(string, V)>, key: string)
    requires KeysSorted(t) && |t| > 0
    requires key == t[0].0 || Less(key, t[0].0)
    ensures Lookup(t[1..], key) == None
  {
    var tail := t[1..];
    forall j | 0 <= j < |tail| ensures tail[j].0 != key {
      SortedOrder(t, 0, j + 1);
      if key == t[0].0 {
        LessIrreflexive(key);
      } else {
        LessAsymmetric(key, t[0].0);
      }
    }
    LookupMissing(tail, key);
  }

  /** Two sorted tables that agree on every lookup are the same sequence. */
  lemma {:induction false} SortedCanonical<V>(a: seq<(string, V)>, b: seq<(string, V)>)
    requires KeysSorted(a) && KeysSorted(b)
    requires forall k :: Lookup(a, k) == Lookup(b, k)
    ensures a == b
    decreases |a|
  {
    if |a| > 0 {
      assert Lookup(a, a[0].0) == Lookup(b, a[0].0);
    }
    if |b| > 0 {
      assert Lookup(a, b[0].0) == Lookup(b, b[0].0);
    }
    assert |a| == 0 <==> |b| == 0;
    if |a| > 0 {
      var ka, kb := a[0].0, b[0].0;
      if ka != kb {
        LessTotal(ka, kb);
        if Less(ka, kb) {
          LookupAbsentBelowHead(b, ka);
          assert false;
        } else {
          LookupAbsentBelowHead(a, kb);
          assert false;
        }
      } else {
        assert Lookup(a, ka) == Some(a[0].1);
        assert a[0] == b[0];
        forall k ensures Lookup(a[1..], k) == Lookup(b[1..], k) {
          if k == ka {
            LookupAbsentBelowHead(a, k);
            LookupAbsentBelowHead(b, k);
          } else {
            assert Lookup(a, k) == Lookup(a[1..], k);
            assert Lookup(b, k) == Lookup(b[1..], k);
          }
        }
        SortedCanonical(a[1..], b[1..]);
        assert a == [a[0]] + a[1..];
        assert b == [b[0]] + b[1..];
      }
    }
  }

  /** Last write wins: a second insert under the same key leaves only the second value. */
  lemma InsertTwice<V>(t: seq<(string, V)>, key: string, v1: V, v2: V)
    requires KeysSorted(t)
    ensures Insert(Insert(t, key, v1), key, v2) == Insert(t, key, v2)
  {
    var a, b := Insert(Insert(t, key, v1), key, v2), Insert(t, key, v2);
    forall k ensures Lookup(a, k) == Lookup(b, k) {
    }
    SortedCanonical(a, b);
  }

  /** Deleting keys removes exactly those keys and leaves every other lookup as it was. */
  lemma {:induction false} LookupWithout<V>(t: seq<(string, V)>, ks: set<string>, key: string)
    ensures Lookup(Without(t, ks), key) == if key in ks then None else Lookup(t, key)
    decreases |t|
  {
    if |t| > 0 {
      LookupWithout(t[1..], ks, key);
    }
  }

  lemma {:induction false} WithoutSorted<V>(t: seq<(string, V)>, ks: set<string>)
    requires KeysSorted(t)
    ensures KeysSorted(Without(t, ks))
    decreases |t|
  {
    if |t| > 1 {
      assert KeysSorted(t[1..]);
      WithoutSorted(t[1..], ks);
      var rest := Without(t[1..], ks);
      if t[0].0 !in ks && |rest| > 0 {
        WithoutHead(t[1..], ks);
        if rest[0].0 != t[1].0 {
          LessTransitive(t[0].0, t[1].0, rest[0].0);
        }
      }
    }
  }

  /** The first surviving key is one of the table's keys, at or after its head. */
  lemma {:induction false} WithoutHead<V>(t: seq<(string, V)>, ks: set<string>)
    requires KeysSorted(t) && |Without(t, ks)| > 0
    ensures |t| > 0
    ensures Without(t, ks)[0].0 == t[0].0 || Less(t[0].0, Without(t, ks)[0].0)
    decreases |t|
  {
    if t[0].0 in ks {
      assert KeysSorted(t[1..]);
      WithoutHead(t[1..], ks);
      var h := Without(t, ks)[0].0;
      if h != t[1].0 {
        LessTransitive(t[0].0, t[1].0, h);
      }
    }
  }

  /** Deleting the keys one after another is deleting them all at once. */
  lemma {:induction false} WithoutWithout<V>(t: seq<(string, V)>, a: set<string>, b: set<string>)
    ensures Without(Without(t, a), b) == Without(t, a + b)
    decreases |t|
  {
    if |t| > 0 {
      WithoutWithout(t[1..], a, b);
    }
  }

  /** Deleting keys that the table does not hold changes nothing. */
  lemma {:induction false} WithoutAbsent<V>(t: seq<(string, V)>, ks: set<string>)
    requires forall i | 0 <= i < |t| :: t[i].0 !in ks
    ensures Without(t, ks) == t
    decreases |t|
  {
    if |t| > 0 {
      WithoutAbsent(t[1..], ks);
      assert [t[0]] + t[1..] == t;
    }
  }

  /** Every pair of `Insert(t, key, value)` is the new pair or an untouched pair of `t`. */
  lemma {:induction false} InsertElements<V>(t: seq<(string, V)>, key: string, value: V)
    requires KeysSorted(t)
    ensures forall p | p in Insert(t, key, value) :: p == (key, value) || (p in t && p.0 != key)
    decreases |t|
  {
    if |t| == 0 {
    } else if t[0].0 == key {
      forall j | 1 <= j < |t| ensures t[j].0 != key {
        SortedOrder(t, 0, j);
        LessIrreflexive(key);
      }
    } else if Less(key, t[0].0) {
      forall j | 0 <= j < |t| ensures t[j].0 != key {
        if j > 0 {
          SortedOrder(t, 0, j);
          LessTransitive(key, t[0].0, t[j].0);
        }
        LessIrreflexive(key);
      }
    } else {
      InsertElements(t[1..], key, value);
      assert forall p | p in t[1..] :: p in t;
    }
  }

  /** A key that is present is held by one of the table's pairs. */
  lemma {:induction false} LookupIndex<V>(t: seq<(string, V)>, key: string)
    requires Lookup(t, key).Some?
    ensures exists i :: 0 <= i < |t| && t[i] == (key, Lookup(t, key).value)
    decreases |t|
  {
    if t[0].0 != key {
      LookupIndex(t[1..], key);
      var i :| 0 <= i < |t[1..]| && t[1..][i] == (key, Lookup(t, key).value);
      assert t[i + 1] == t[1..][i];
    } else {
      assert t[0] == (key, Lookup(t, key).value);
    }
  }
}
