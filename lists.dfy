/** Generic list operations shared by the stores: keyed filters (`array.filter`), the first
    index of a key (`array.findIndex`) and grouping into a map (the `forEach` loops that build a
    `Map<string, T[]>`). */
module Lists {
  import opened Wrappers

  predicate Distinct<T(==)>(s: seq<T>) {
    forall a, b :: 0 <= a < b < |s| ==> s[a] != s[b]
  }

  lemma DistinctConcat<T>(x: seq<T>, y: seq<T>)
    requires Distinct(x) && Distinct(y)
    requires forall a, b :: 0 <= a < |x| && 0 <= b < |y| ==> x[a] != y[b]
    ensures Distinct(x + y)
  {
    var z := x + y;
    forall a, b | 0 <= a < b < |z| ensures z[a] != z[b] {
      if b < |x| {
        assert z[a] == x[a] && z[b] == x[b];
      } else if a < |x| {
        assert z[a] == x[a] && z[b] == y[b - |x|];
      } else {
        assert z[a] == y[a - |x|] && z[b] == y[b - |x|];
      }
    }
  }

  /** The elements of `s` whose key is `k`, in their original order. */
  function WithKey<T, K(==)>(s: seq<T>, key: T -> K, k: K): (r: seq<T>)
    ensures |r| <= |s|
    ensures forall i :: 0 <= i < |r| ==> r[i] in s && key(r[i]) == k
    ensures forall i :: 0 <= i < |s| && key(s[i]) == k ==> s[i] in r
  {
    if s == [] then []
    else (if key(s[0]) == k then [s[0]] else []) + WithKey(s[1..], key, k)
  }

  /** The elements of `s` whose key is not `k`, in their original order. */
  function WithoutKey<T, K(==)>(s: seq<T>, key: T -> K, k: K): (r: seq<T>)
    ensures |r| <= |s|
    ensures forall i :: 0 <= i < |r| ==> r[i] in s && key(r[i]) != k
    ensures forall i :: 0 <= i < |s| && key(s[i]) != k ==> s[i] in r
  {
    if s == [] then []
    else (if key(s[0]) != k then [s[0]] else []) + WithoutKey(s[1..], key, k)
  }

  /** How often `x` occurs in a non-empty list, counted from its head. */
  lemma MultisetCons<T>(s: seq<T>, x: T)
    requires s != []
    ensures multiset(s)[x] == multiset(s[1..])[x] + (if s[0] == x then 1 else 0)
  {
    assert s == [s[0]] + s[1..];
  }

  /** Each element is kept by `WithKey` as many times as it occurs in `s` when its key is `k`,
      and not at all otherwise. */
  lemma {:induction false} WithKeyMultiplicity<T, K>(s: seq<T>, key: T -> K, k: K, x: T)
    ensures multiset(WithKey(s, key, k))[x] == if key(x) == k then multiset(s)[x] else 0
  {
    if s != [] {
      WithKeyMultiplicity(s[1..], key, k, x);
      WithKeyHead(s, key, k, x);
      MultisetCons(s, x);
    }
  }

  /** One step of the filter: the head counts once for `x` if it is `x` and its key passes. */
  lemma WithKeyHead<T, K>(s: seq<T>, key: T -> K, k: K, x: T)
    requires s != []
    ensures multiset(WithKey(s, key, k))[x]
         == multiset(WithKey(s[1..], key, k))[x] + (if key(s[0]) == k && s[0] == x then 1 else 0)
  {
    var rest := WithKey(s[1..], key, k);
    if key(s[0]) == k {
      assert WithKey(s, key, k) == [s[0]] + rest;
    } else {
      assert WithKey(s, key, k) == rest;
    }
  }

  /** The same for `WithoutKey`, with the test reversed. */
  lemma {:induction false} WithoutKeyMultiplicity<T, K>(s: seq<T>, key: T -> K, k: K, x: T)
    ensures multiset(WithoutKey(s, key, k))[x] == if key(x) != k then multiset(s)[x] else 0
  {
    if s != [] {
      WithoutKeyMultiplicity(s[1..], key, k, x);
      WithoutKeyHead(s, key, k, x);
      MultisetCons(s, x);
    }
  }

  lemma WithoutKeyHead<T, K>(s: seq<T>, key: T -> K, k: K, x: T)
    requires s != []
    ensures multiset(WithoutKey(s, key, k))[x]
         == multiset(WithoutKey(s[1..], key, k))[x] + (if key(s[0]) != k && s[0] == x then 1 else 0)
  {
    var rest := WithoutKey(s[1..], key, k);
    if key(s[0]) != k {
      assert WithoutKey(s, key, k) == [s[0]] + rest;
    } else {
      assert WithoutKey(s, key, k) == rest;
    }
  }

  /** Filtering distributes over concatenation, so it keeps the relative order of what it keeps. */
  lemma {:induction false} WithKeyAppend<T, K>(a: seq<T>, b: seq<T>, key: T -> K, k: K)
    ensures WithKey(a + b, key, k) == WithKey(a, key, k) + WithKey(b, key, k)
  {
    if a == [] {
      assert a + b == b;
    } else {
      assert (a + b)[0] == a[0] && (a + b)[1..] == a[1..] + b;
      WithKeyAppend(a[1..], b, key, k);
    }
  }

  /** The same for the complementary filter. */
  lemma {:induction false} WithoutKeyAppend<T, K>(a: seq<T>, b: seq<T>, key: T -> K, k: K)
    ensures WithoutKey(a + b, key, k) == WithoutKey(a, key, k) + WithoutKey(b, key, k)
  {
    if a == [] {
      assert a + b == b;
    } else {
      assert (a + b)[0] == a[0] && (a + b)[1..] == a[1..] + b;
      WithoutKeyAppend(a[1..], b, key, k);
    }
  }

  /** Every element is kept by exactly one of the two filters. */
  lemma WithKeySplit<T, K>(s: seq<T>, key: T -> K, k: K)
    ensures |WithKey(s, key, k)| + |WithoutKey(s, key, k)| == |s|
    ensures multiset(WithKey(s, key, k)) + multiset(WithoutKey(s, key, k)) == multiset(s)
  {
    var kept, dropped := multiset(WithKey(s, key, k)), multiset(WithoutKey(s, key, k));
    forall x ensures (kept + dropped)[x] == multiset(s)[x] {
      WithKeyMultiplicity(s, key, k, x);
      WithoutKeyMultiplicity(s, key, k, x);
    }
    assert kept + dropped == multiset(s);
    assert |kept + dropped| == |kept| + |dropped|;
  }

  /** Removing a key that no element carries changes nothing. */
  lemma {:induction false} WithoutAbsentKey<T, K>(s: seq<T>, key: T -> K, k: K)
    requires forall i :: 0 <= i < |s| ==> key(s[i]) != k
    ensures WithoutKey(s, key, k) == s
  {
    if s != [] {
      WithoutAbsentKey(s[1..], key, k);
      assert s == [s[0]] + s[1..];
    }
  }

  /** Removing the key of an element just appended, when no earlier element carries it, gives
      back the list before the append. */
  lemma RemoveAppended<T, K>(s: seq<T>, x: T, key: T -> K)
    requires forall i :: 0 <= i < |s| ==> key(s[i]) != key(x)
    ensures WithoutKey(s + [x], key, key(x)) == s
  {
    WithoutKeyAppend(s, [x], key, key(x));
    WithoutAbsentKey(s, key, key(x));
    assert [x][1..] == [];
  }

  /** No two elements share a key. */
  ghost predicate UniqueKeys<T, K>(s: seq<T>, key: T -> K) {
    forall i, j :: 0 <= i < |s| && 0 <= j < |s| && key(s[i]) == key(s[j]) ==> i == j
  }

  /** With unique keys a key selects one element or none. */
  lemma {:induction false} WithKeyUnique<T, K>(s: seq<T>, key: T -> K, k: K)
    requires UniqueKeys(s, key)
    ensures |WithKey(s, key, k)| == if exists i :: 0 <= i < |s| && key(s[i]) == k then 1 else 0
  {
    if s != [] {
      var rest := s[1..];
      assert UniqueKeys(rest, key) by {
        forall i, j | 0 <= i < |rest| && 0 <= j < |rest| && key(rest[i]) == key(rest[j]) ensures i == j {
          assert rest[i] == s[i + 1] && rest[j] == s[j + 1];
        }
      }
      WithKeyUnique(rest, key, k);
      if key(s[0]) == k {
        assert forall i :: 0 <= i < |rest| ==> rest[i] == s[i + 1] && key(s[i + 1]) != k;
      } else if exists i :: 0 <= i < |s| && key(s[i]) == k {
        var i :| 0 <= i < |s| && key(s[i]) == k;
        assert rest[i - 1] == s[i];
      }
    }
  }

  /** The first index whose key is `k` (`findIndex`), or None (`-1`). */
  function IndexOfKey<T, K(==)>(s: seq<T>, key: T -> K, k: K): (r: Option<nat>)
    ensures r.None? <==> forall i :: 0 <= i < |s| ==> key(s[i]) != k
    ensures r.Some? ==> r.value < |s| && key(s[r.value]) == k
    ensures r.Some? ==> forall i :: 0 <= i < r.value ==> key(s[i]) != k
  {
    if s == [] then None
    else if key(s[0]) == k then Some(0)
    else match IndexOfKey(s[1..], key, k)
      case None => None
      case Some(i) => Some(i + 1)
  }

  /** The grouping loop: `grouped.set(key(x), (grouped.get(key(x)) || []).concat([x]))` for each
      `x` of `s` in turn. */
  function GroupBy<T, K(==)>(s: seq<T>, key: T -> K): map<K, seq<T>>
  {
    if s == [] then map[]
    else
      var g := GroupBy(s[..|s| - 1], key);
      var x := s[|s| - 1];
      g[key(x) := (if key(x) in g then g[key(x)] else []) + [x]]
  }

  /** The `forEach` loop itself, over a mutable map. */
  method GroupEach<T, K(==)>(s: seq<T>, key: T -> K) returns (grouped: map<K, seq<T>>)
    ensures grouped == GroupBy(s, key)
  {
    grouped := map[];
    var i := 0;
    while i < |s|
      invariant i <= |s|
      invariant grouped == GroupBy(s[..i], key)
    {
      var x := s[i];
      var list := if key(x) in grouped then grouped[key(x)] else [];
      list := list + [x];
      grouped := grouped[key(x) := list];
      assert s[..i + 1][..i] == s[..i];
      i := i + 1;
    }
    assert s[..|s|] == s;
  }

  /** The group of `k` exists exactly when some element has key `k`, and it is the list of those
      elements in their original order: every element lands once, in its own group. */
  lemma {:induction false} GroupByIsFilter<T, K>(s: seq<T>, key: T -> K, k: K)
    ensures k in GroupBy(s, key) <==> WithKey(s, key, k) != []
    ensures k in GroupBy(s, key) ==> GroupBy(s, key)[k] == WithKey(s, key, k)
  {
    if s != [] {
      var init, x := s[..|s| - 1], s[|s| - 1];
      GroupByIsFilter(init, key, k);
      assert s == init + [x];
      WithKeyAppend(init, [x], key, k);
      assert [x][1..] == [];
      assert WithKey([x], key, k) == if key(x) == k then [x] else [];
    }
  }
}
