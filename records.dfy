/**
 * Plain JavaScript objects with string keys, as the dispatcher builds them.
 *
 * An object is the sequence of its own properties in insertion order, which is the
 * order `Object.keys` and `Object.values` report (for keys that are not array
 * indices). Assigning `obj[key] = value` replaces the value in place when the key
 * is present and appends a new property otherwise.
 */
module Records {
  import opened Wrappers

  type Record<V> = seq<(string, V)>

  /** `Object.keys(rec)` */
  function Keys<V>(rec: Record<V>): (keys: seq<string>)
    ensures |keys| == |rec|
    ensures forall i :: 0 <= i < |rec| ==> keys[i] == rec[i].0
  {
    if |rec| == 0 then [] else [rec[0].0] + Keys(rec[1..])
  }

  /** No key occurs twice. */
  predicate DistinctKeys<V>(rec: Record<V>)
  {
    forall i, j :: 0 <= i < j < |rec| ==> rec[i].0 != rec[j].0
  }

  /** `rec[key]`, with None for `undefined` */
  function Lookup<V>(rec: Record<V>, key: string): (r: Option<V>)
    ensures r.None? <==> key !in Keys(rec)
    ensures r.Some? ==>
      exists i :: 0 <= i < |rec| && rec[i] == (key, r.value) && (forall j :: 0 <= j < i ==> rec[j].0 != key)
  {
    if |rec| == 0 then None
    else if rec[0].0 == key then Some(rec[0].1)
    else Lookup(rec[1..], key)
  }

  /** `rec[key] = value` */
  function Put<V>(rec: Record<V>, key: string, value: V): Record<V>
  {
    if |rec| == 0 then [(key, value)]
    else if rec[0].0 == key then [(key, value)] + rec[1..]
    else [rec[0]] + Put(rec[1..], key, value)
  }

  /** After `rec[key] = value`, the key reads the new value and every other key is unchanged. */
  lemma {:induction false} PutLookup<V>(rec: Record<V>, key: string, value: V, other: string)
    ensures Lookup(Put(rec, key, value), key) == Some(value)
    ensures other != key ==> Lookup(Put(rec, key, value), other) == Lookup(rec, other)
    decreases |rec|
  {
    if |rec| > 0 && rec[0].0 != key {
      PutLookup(rec[1..], key, value, other);
      assert Put(rec, key, value)[1..] == Put(rec[1..], key, value);
    }
  }

  /** A present key keeps its position; a new key goes last. */
  lemma {:induction false} PutKeys<V>(rec: Record<V>, key: string, value: V)
    ensures Keys(Put(rec, key, value)) == if key in Keys(rec) then Keys(rec) else Keys(rec) + [key]
    decreases |rec|
  {
    if |rec| > 0 && rec[0].0 != key {
      PutKeys(rec[1..], key, value);
      var r := Put(rec, key, value);
      assert r[1..] == Put(rec[1..], key, value);
      assert Keys(r) == [rec[0].0] + Keys(r[1..]);
      assert Keys(rec) == [rec[0].0] + Keys(rec[1..]);
      assert key in Keys(rec) <==> key in Keys(rec[1..]);
    }
  }

  /** Assignment never introduces a repeated key. */
  lemma PutDistinct<V>(rec: Record<V>, key: string, value: V)
    requires DistinctKeys(rec)
    ensures DistinctKeys(Put(rec, key, value))
  {
    PutKeys(rec, key, value);
    var r := Put(rec, key, value);
    assert forall i :: 0 <= i < |r| ==> r[i].0 == Keys(r)[i];
    assert forall i :: 0 <= i < |rec| ==> rec[i].0 == Keys(rec)[i];
    if key !in Keys(rec) {
      forall i, j | 0 <= i < j < |r| ensures r[i].0 != r[j].0 {
        if j == |rec| {
          assert Keys(r)[i] == Keys(rec)[i];
        }
      }
    }
  }

  /** With distinct keys, every property is read back by its own key. */
  lemma {:induction false} LookupDistinct<V>(rec: Record<V>, j: nat)
    requires DistinctKeys(rec) && j < |rec|
    ensures Lookup(rec, rec[j].0) == Some(rec[j].1)
    decreases j
  {
    if j > 0 {
      var tail := rec[1..];
      assert DistinctKeys(tail) by {
        forall a, b | 0 <= a < b < |tail| ensures tail[a].0 != tail[b].0 {
          assert tail[a] == rec[a + 1] && tail[b] == rec[b + 1];
        }
      }
      assert rec[0].0 != rec[j].0;
      LookupDistinct(tail, j - 1);
    }
  }

  /** Reading a key of two objects laid end to end finds the first one's property first. */
  lemma {:induction false} LookupConcat<V>(a: Record<V>, b: Record<V>, key: string)
    ensures Lookup(a + b, key) == if key in Keys(a) then Lookup(a, key) else Lookup(b, key)
    decreases |a|
  {
    if |a| > 0 {
      assert (a + b)[0] == a[0] && (a + b)[1..] == a[1..] + b;
      assert Keys(a) == [a[0].0] + Keys(a[1..]);
      LookupConcat(a[1..], b, key);
    } else {
      assert a + b == b;
    }
  }

  /** The object obtained by assigning the pairs one after the other, from an empty object. */
  function FromPairs(pairs: seq<(string, string)>): Record<string>
  {
    if |pairs| == 0 then []
    else
      var last := pairs[|pairs| - 1];
      Put(FromPairs(pairs[..|pairs| - 1]), last.0, last.1)
  }

  /** Reference definition: the value of the last pair with the given key. */
  function LastValue(pairs: seq<(string, string)>, key: string): Option<string>
  {
    if |pairs| == 0 then None
    else if pairs[|pairs| - 1].0 == key then Some(pairs[|pairs| - 1].1)
    else LastValue(pairs[..|pairs| - 1], key)
  }

  /** Reference definition: the keys in order of their first occurrence. */
  function FirstOccurrences(keys: seq<string>): seq<string>
  {
    if |keys| == 0 then []
    else
      var earlier := FirstOccurrences(keys[..|keys| - 1]);
      if keys[|keys| - 1] in earlier then earlier else earlier + [keys[|keys| - 1]]
  }

  /**
   * `createQueryObject`: copy the pairs of a URLSearchParams, in order, into a fresh
   * object. The header copy of the request handler is the same loop.
   */
  method CreateQueryObject(searchParams: seq<(string, string)>) returns (queryObject: Record<string>)
    ensures queryObject == FromPairs(searchParams)
  {
    queryObject := [];
    var i := 0;
    while i < |searchParams|
      invariant 0 <= i <= |searchParams|
      invariant queryObject == FromPairs(searchParams[..i])
    {
      var (key, value) := searchParams[i];
      assert searchParams[..i + 1][..i] == searchParams[..i];
      queryObject := Put(queryObject, key, value);
      i := i + 1;
    }
    assert searchParams[..i] == searchParams;
  }

  // ---------------------------------------------------------------------------

  lemma {:induction false} FirstOccurrencesMembers(keys: seq<string>)
    ensures forall k :: k in FirstOccurrences(keys) <==> k in keys
    decreases |keys|
  {
    if |keys| > 0 {
      var init := keys[..|keys| - 1];
      FirstOccurrencesMembers(init);
      assert keys == init + [keys[|keys| - 1]];
    }
  }

  /**
   * The object built from the pairs has distinct keys, in order of first
   * occurrence, and each key holds the value of its last occurrence.
   */
  lemma {:induction false} FromPairsLastWins(pairs: seq<(string, string)>)
    ensures DistinctKeys(FromPairs(pairs))
    ensures Keys(FromPairs(pairs)) == FirstOccurrences(Keys(pairs))
    ensures forall k :: Lookup(FromPairs(pairs), k) == LastValue(pairs, k)
    decreases |pairs|
  {
    if |pairs| > 0 {
      var init := pairs[..|pairs| - 1];
      var last := pairs[|pairs| - 1];
      FromPairsLastWins(init);
      PutKeys(FromPairs(init), last.0, last.1);
      PutDistinct(FromPairs(init), last.0, last.1);
      forall k ensures Lookup(FromPairs(pairs), k) == LastValue(pairs, k) {
        PutLookup(FromPairs(init), last.0, last.1, k);
      }
      assert Keys(pairs)[..|pairs| - 1] == Keys(init);
    }
  }

  /** LastValue finds the last pair with the key, and nothing when no pair has it. */
  lemma {:induction false} LastValueIsLastOccurrence(pairs: seq<(string, string)>, key: string)
    ensures LastValue(pairs, key).None? <==> forall i :: 0 <= i < |pairs| ==> pairs[i].0 != key
    ensures LastValue(pairs, key).Some? ==>
      exists i :: 0 <= i < |pairs| && pairs[i] == (key, LastValue(pairs, key).value) &&
        forall j :: i < j < |pairs| ==> pairs[j].0 != key
    decreases |pairs|
  {
    if |pairs| > 0 {
      var n := |pairs| - 1;
      if pairs[n].0 != key {
        var init := pairs[..n];
        LastValueIsLastOccurrence(init, key);
        if LastValue(init, key).Some? {
          var i :| 0 <= i < |init| && init[i] == (key, LastValue(init, key).value) &&
            forall j :: i < j < |init| ==> init[j].0 != key;
          assert pairs[i] == (key, LastValue(pairs, key).value);
        }
      }
    }
  }

  /** The key set of the query object is exactly the set of keys that occur in the pairs. */
  lemma QueryObjectKeySet(pairs: seq<(string, string)>, key: string)
    ensures key in Keys(FromPairs(pairs)) <==> exists i :: 0 <= i < |pairs| && pairs[i].0 == key
  {
    FromPairsLastWins(pairs);
    FirstOccurrencesMembers(Keys(pairs));
    if key in Keys(pairs) {
      var i :| 0 <= i < |pairs| && Keys(pairs)[i] == key;
      assert pairs[i].0 == key;
    }
  }

  /** The pairs of the test request: `test=test-query-string&foo=123`. */
  lemma TestQueryString()
    ensures FromPairs([("test", "test-query-string"), ("foo", "123")]) ==
      [("test", "test-query-string"), ("foo", "123")]
  {
    var pairs := [("test", "test-query-string"), ("foo", "123")];
    assert pairs[..1] == [("test", "test-query-string")];
    assert [("test", "test-query-string")][..0] == [];
  }

  /** A repeated key keeps its first position and takes its last value. */
  lemma RepeatedKeyLastWins()
    ensures FromPairs([("a", "1"), ("b", "2"), ("a", "3")]) == [("a", "3"), ("b", "2")]
  {
    var pairs := [("a", "1"), ("b", "2"), ("a", "3")];
    assert pairs[..2] == [("a", "1"), ("b", "2")];
    assert pairs[..2][..1] == [("a", "1")];
    assert [("a", "1")][..0] == [];
  }
}
