/**
 * The array operations the stores and components use on their lists:
 * `filter`, `map` that swaps the elements with a given key, `findIndex`,
 * and the count `filter(...).length`. Keys are read through a key function
 * (the `id` of a record, the status of a document).
 */
module Seqs {
  import opened Wrappers

  /** `s.filter(x => !drop(x))`, and for strings `s.replace(/[class]/g, '')`. */
  function RemoveWhere<T>(s: seq<T>, drop: T -> bool): (r: seq<T>)
    ensures |r| <= |s|
    ensures forall k :: 0 <= k < |r| ==> !drop(r[k])
    ensures forall k :: 0 <= k < |s| && !drop(s[k]) ==> s[k] in r
    ensures forall k :: 0 <= k < |r| ==> r[k] in s
  {
    if s == [] then []
    else if drop(s[0]) then RemoveWhere(s[1..], drop)
    else [s[0]] + RemoveWhere(s[1..], drop)
  }

  /** Removal works piecewise, so the kept elements stay in their order. */
  lemma {:induction false} RemoveWhereAppend<T>(a: seq<T>, b: seq<T>, drop: T -> bool)
    ensures RemoveWhere(a + b, drop) == RemoveWhere(a, drop) + RemoveWhere(b, drop)
  {
    if a == [] {
      assert a + b == b;
    } else {
      assert (a + b)[0] == a[0];
      assert (a + b)[1..] == a[1..] + b;
      RemoveWhereAppend(a[1..], b, drop);
    }
  }

  /** A sequence with nothing to drop is left as it is. */
  lemma {:induction false} RemoveWhereKeep<T>(s: seq<T>, drop: T -> bool)
    requires forall k :: 0 <= k < |s| ==> !drop(s[k])
    ensures RemoveWhere(s, drop) == s
  {
    if s != [] {
      RemoveWhereKeep(s[1..], drop);
    }
  }

  /** Removing twice is the same as removing once. */
  lemma {:induction false} RemoveWhereIdempotent<T>(s: seq<T>, drop: T -> bool)
    ensures RemoveWhere(RemoveWhere(s, drop), drop) == RemoveWhere(s, drop)
  {
    if s != [] {
      RemoveWhereIdempotent(s[1..], drop);
    }
  }

  /** The elements of `s` whose key is `k`: `s.filter(x => key(x) === k)`. */
  function KeepKey<T, K(==)>(s: seq<T>, key: T -> K, k: K): (r: seq<T>)
    ensures |r| <= |s|
    ensures forall j :: 0 <= j < |r| ==> key(r[j]) == k
  {
    if s == [] then []
    else if key(s[0]) == k then [s[0]] + KeepKey(s[1..], key, k)
    else KeepKey(s[1..], key, k)
  }

  /** The elements of `s` whose key is not `k`: `s.filter(x => key(x) !== k)`. */
  function DropKey<T, K(==)>(s: seq<T>, key: T -> K, k: K): (r: seq<T>)
    ensures |r| <= |s|
    ensures forall j :: 0 <= j < |r| ==> key(r[j]) != k
  {
    if s == [] then []
    else if key(s[0]) == k then DropKey(s[1..], key, k)
    else [s[0]] + DropKey(s[1..], key, k)
  }

  /** An element survives `DropKey` exactly when it was there and has another key. */
  lemma {:induction false} DropKeyMembers<T, K>(s: seq<T>, key: T -> K, k: K, x: T)
    ensures x in DropKey(s, key, k) <==> x in s && key(x) != k
  {
    if s != [] {
      DropKeyMembers(s[1..], key, k, x);
      assert s == [s[0]] + s[1..];
    }
  }

  /** Dropping a key nobody has changes nothing. */
  lemma {:induction false} DropKeyAbsent<T, K>(s: seq<T>, key: T -> K, k: K)
    requires forall j :: 0 <= j < |s| ==> key(s[j]) != k
    ensures DropKey(s, key, k) == s
  {
    if s != [] {
      DropKeyAbsent(s[1..], key, k);
    }
  }

  /** Dropping elements keeps distinct keys distinct. */
  lemma {:induction false} DropKeyDistinct<T, K>(s: seq<T>, key: T -> K, k: K)
    requires DistinctKeys(s, key)
    ensures DistinctKeys(DropKey(s, key, k), key)
  {
    if s != [] {
      assert DistinctKeys(s[1..], key) by {
        forall a, b | 0 <= a < b < |s[1..]|
          ensures key(s[1..][a]) != key(s[1..][b])
        {
          assert s[1..][a] == s[a + 1] && s[1..][b] == s[b + 1];
        }
      }
      DropKeyDistinct(s[1..], key, k);
      var rest := DropKey(s[1..], key, k);
      if key(s[0]) != k {
        forall j | 0 <= j < |rest|
          ensures key(s[0]) != key(rest[j])
        {
          DropKeyMembers(s[1..], key, k, rest[j]);
          var m :| 0 <= m < |s[1..]| && s[1..][m] == rest[j];
          assert s[m + 1] == rest[j];
        }
        var r := [s[0]] + rest;
        forall a, b | 0 <= a < b < |r|
          ensures key(r[a]) != key(r[b])
        {
          assert r[b] == rest[b - 1];
          if a > 0 {
            assert r[a] == rest[a - 1];
          }
        }
      }
    }
  }

  /** An element survives `KeepKey` exactly when it was there and has the key. */
  lemma {:induction false} KeepKeyMembers<T, K>(s: seq<T>, key: T -> K, k: K, x: T)
    ensures x in KeepKey(s, key, k) <==> x in s && key(x) == k
  {
    if s != [] {
      KeepKeyMembers(s[1..], key, k, x);
      assert s == [s[0]] + s[1..];
    }
  }

  /** `KeepKey` works piecewise, so the kept elements stay in their order. */
  lemma {:induction false} KeepKeyAppend<T, K>(a: seq<T>, b: seq<T>, key: T -> K, k: K)
    ensures KeepKey(a + b, key, k) == KeepKey(a, key, k) + KeepKey(b, key, k)
  {
    if a == [] {
      assert a + b == b;
    } else {
      assert (a + b)[0] == a[0];
      assert (a + b)[1..] == a[1..] + b;
      KeepKeyAppend(a[1..], b, key, k);
    }
  }

  /** The keys of `s`, in order. */
  function Keys<T, K>(s: seq<T>, key: T -> K): (r: seq<K>)
    ensures |r| == |s|
  {
    seq(|s|, j requires 0 <= j < |s| => key(s[j]))
  }

  /** `KeepKey` keeps as many elements as the keys hold copies of `k`. */
  lemma {:induction false} KeepKeyCount<T, K>(s: seq<T>, key: T -> K, k: K)
    ensures |KeepKey(s, key, k)| == multiset(Keys(s, key))[k]
  {
    if s != [] {
      KeepKeyCount(s[1..], key, k);
      assert Keys(s, key) == [key(s[0])] + Keys(s[1..], key);
    }
  }

  /** Every element goes to exactly one of the two halves. */
  lemma {:induction false} KeepDropPartition<T, K>(s: seq<T>, key: T -> K, k: K)
    ensures |KeepKey(s, key, k)| + |DropKey(s, key, k)| == |s|
  {
    if s != [] {
      KeepDropPartition(s[1..], key, k);
    }
  }

  /** `s.map(x => key(x) === k ? y : x)`. */
  function ReplaceKey<T, K(==)>(s: seq<T>, key: T -> K, k: K, y: T): (r: seq<T>)
    ensures |r| == |s|
  {
    seq(|s|, j requires 0 <= j < |s| => if key(s[j]) == k then y else s[j])
  }

  /** Swapping in a record with the same key keeps every key in its place. */
  lemma ReplaceKeyKeys<T, K>(s: seq<T>, key: T -> K, y: T, j: nat)
    requires j < |s|
    ensures key(ReplaceKey(s, key, key(y), y)[j]) == key(s[j])
  {
  }

  /** Replacing a key nobody has changes nothing. */
  lemma ReplaceKeyAbsent<T, K>(s: seq<T>, key: T -> K, k: K, y: T)
    requires forall j :: 0 <= j < |s| ==> key(s[j]) != k
    ensures ReplaceKey(s, key, k, y) == s
  {
  }

  /** Replacing leaves the elements with other keys as they were, in order. */
  lemma {:induction false} ReplaceKeyOthers<T, K>(s: seq<T>, key: T -> K, y: T)
    ensures DropKey(ReplaceKey(s, key, key(y), y), key, key(y)) == DropKey(s, key, key(y))
  {
    if s != [] {
      var r := ReplaceKey(s, key, key(y), y);
      assert r[1..] == ReplaceKey(s[1..], key, key(y), y);
      ReplaceKeyOthers(s[1..], key, y);
    }
  }

  /** The elements with the replaced key all end up equal to the new one, and there are as many as before. */
  lemma {:induction false} ReplaceKeyMatches<T, K>(s: seq<T>, key: T -> K, y: T)
    ensures KeepKey(ReplaceKey(s, key, key(y), y), key, key(y)) == seq(|KeepKey(s, key, key(y))|, _ => y)
  {
    if s != [] {
      var r := ReplaceKey(s, key, key(y), y);
      assert r[1..] == ReplaceKey(s[1..], key, key(y), y);
      ReplaceKeyMatches(s[1..], key, y);
    }
  }

  /** `s.findIndex(x => key(x) === k)`, None for -1. */
  function FirstKey<T, K(==)>(s: seq<T>, key: T -> K, k: K): (r: Option<nat>)
    ensures r.Some? ==> r.value < |s| && key(s[r.value]) == k
    ensures r.Some? ==> forall j :: 0 <= j < r.value ==> key(s[j]) != k
    ensures r.None? ==> forall j :: 0 <= j < |s| ==> key(s[j]) != k
  {
    if s == [] then None
    else if key(s[0]) == k then Some(0)
    else match FirstKey(s[1..], key, k)
      case None => None
      case Some(j) => Some(j + 1)
  }

  /** The number of elements with key `k`. */
  function CountKey<T, K(==)>(s: seq<T>, key: T -> K, k: K): nat {
    |KeepKey(s, key, k)|
  }

  /** No two elements share a key. */
  predicate DistinctKeys<T, K(==)>(s: seq<T>, key: T -> K) {
    forall i, j :: 0 <= i < j < |s| ==> key(s[i]) != key(s[j])
  }

  /** The first element with `y`'s key becomes `y`; without one the sequence is unchanged. */
  function ReplaceFirstKey<T, K(==)>(s: seq<T>, key: T -> K, y: T): (r: seq<T>)
    ensures |r| == |s|
    ensures FirstKey(s, key, key(y)).None? ==> r == s
  {
    match FirstKey(s, key, key(y))
    case Some(i) => s[i := y]
    case None => s
  }

  /** The first element with `y`'s key becomes `y`; without one, `y` goes first. */
  function UpsertKey<T, K(==)>(s: seq<T>, key: T -> K, y: T): (r: seq<T>)
    ensures y in r
    ensures FirstKey(s, key, key(y)).Some? ==> |r| == |s|
    ensures FirstKey(s, key, key(y)).None? ==> r == [y] + s
  {
    match FirstKey(s, key, key(y))
    case Some(i) => assert s[i := y][i] == y; s[i := y]
    case None => [y] + s
  }

  /** Overwriting an element by one with the same key leaves the elements with other keys alone. */
  lemma {:induction false} DropKeyUpdate<T, K>(s: seq<T>, key: T -> K, i: nat, y: T)
    requires i < |s| && key(s[i]) == key(y)
    ensures DropKey(s[i := y], key, key(y)) == DropKey(s, key, key(y))
  {
    if i > 0 {
      assert s[i := y][1..] == s[1..][i - 1 := y];
      DropKeyUpdate(s[1..], key, i - 1, y);
    } else {
      assert s[i := y][1..] == s[1..];
    }
  }

  /** Overwriting an element by one with the same key keeps the keys distinct. */
  lemma DistinctKeysUpdate<T, K>(s: seq<T>, key: T -> K, i: nat, y: T)
    requires i < |s| && key(s[i]) == key(y) && DistinctKeys(s, key)
    ensures DistinctKeys(s[i := y], key)
  {
    var r := s[i := y];
    forall a, b | 0 <= a < b < |r|
      ensures key(r[a]) != key(r[b])
    {
      assert key(r[a]) == key(s[a]) && key(r[b]) == key(s[b]);
    }
  }

  /** Upserting changes nothing among the elements with other keys. */
  lemma UpsertKeyOthers<T, K>(s: seq<T>, key: T -> K, y: T)
    ensures DropKey(UpsertKey(s, key, y), key, key(y)) == DropKey(s, key, key(y))
  {
    match FirstKey(s, key, key(y))
    case Some(i) => DropKeyUpdate(s, key, i, y);
    case None => assert ([y] + s)[1..] == s;
  }

  /** Upserting keeps the keys distinct. */
  lemma UpsertKeyDistinct<T, K>(s: seq<T>, key: T -> K, y: T)
    requires DistinctKeys(s, key)
    ensures DistinctKeys(UpsertKey(s, key, y), key)
  {
    match FirstKey(s, key, key(y))
    case Some(i) => DistinctKeysUpdate(s, key, i, y);
    case None =>
      var r := [y] + s;
      forall a, b | 0 <= a < b < |r|
        ensures key(r[a]) != key(r[b])
      {
        assert r[b] == s[b - 1];
        if a > 0 {
          assert r[a] == s[a - 1];
        }
      }
  }

  /** On distinct keys, upserting an element already present replaces it and nothing else. */
  lemma UpsertKeyReplaces<T, K>(s: seq<T>, key: T -> K, y: T)
    requires DistinctKeys(s, key) && FirstKey(s, key, key(y)).Some?
    ensures UpsertKey(s, key, y) == ReplaceKey(s, key, key(y), y)
  {
  }

  /** Replacing the first match of a key nobody else shares is replacing all of them. */
  lemma ReplaceFirstKeyReplaces<T, K>(s: seq<T>, key: T -> K, y: T)
    requires DistinctKeys(s, key)
    ensures ReplaceFirstKey(s, key, y) == ReplaceKey(s, key, key(y), y)
  {
  }
}
