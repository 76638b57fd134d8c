/**
 * The array built-ins the application relies on, as pure functions over
 * sequences: `filter`, `map`, `slice`, the stable `sort` of ECMAScript 2019,
 * and the ascending order in which `Object.entries` lists integer keys.
 */
module JsArrays {

  function Min(a: int, b: int): int { if a <= b then a else b }

  function Max(a: int, b: int): int { if a <= b then b else a }

  // ---------------------------------------------------------------------------
  // filter and map
  // ---------------------------------------------------------------------------

  /** `s.filter(p)`: the elements satisfying `p`, in their original order. */
  function Filter<T>(s: seq<T>, p: T -> bool): (r: seq<T>)
    ensures |r| <= |s|
  {
    if s == [] then []
    else if p(s[0]) then [s[0]] + Filter(s[1..], p)
    else Filter(s[1..], p)
  }

  /** `filter` keeps exactly the elements satisfying `p`: each kept one does, and each that does is kept. */
  lemma {:induction false} FilterMembers<T>(s: seq<T>, p: T -> bool)
    ensures forall i :: 0 <= i < |Filter(s, p)| ==> Filter(s, p)[i] in s && p(Filter(s, p)[i])
    ensures forall i :: 0 <= i < |s| && p(s[i]) ==> s[i] in Filter(s, p)
  {
    if s != [] {
      FilterMembers(s[1..], p);
      assert forall i :: 1 <= i < |s| ==> s[i] == s[1..][i - 1];
    }
  }

  /** `filter` only drops elements: what it keeps, it keeps no more often than `s` holds it. */
  lemma {:induction false} FilterSubMultiset<T>(s: seq<T>, p: T -> bool)
    ensures multiset(Filter(s, p)) <= multiset(s)
  {
    if s != [] {
      FilterSubMultiset(s[1..], p);
      assert s == [s[0]] + s[1..];
    }
  }

  lemma {:induction false} FilterAppend<T>(a: seq<T>, b: seq<T>, p: T -> bool)
    ensures Filter(a + b, p) == Filter(a, p) + Filter(b, p)
  {
    if a == [] {
      assert a + b == b;
    } else {
      assert (a + b)[1..] == a[1..] + b;
      FilterAppend(a[1..], b, p);
    }
  }

  /** The elements kept by `p` and those kept by its negation add up to the whole. */
  lemma {:induction false} FilterSplitsLength<T>(s: seq<T>, p: T -> bool, q: T -> bool)
    requires forall x :: q(x) == !p(x)
    ensures |Filter(s, p)| + |Filter(s, q)| == |s|
  {
    if s != [] {
      FilterSplitsLength(s[1..], p, q);
    }
  }

  /** `s.map(f)`. */
  function Map<T, U>(s: seq<T>, f: T -> U): (r: seq<U>)
    ensures |r| == |s|
    ensures forall i :: 0 <= i < |s| ==> r[i] == f(s[i])
  {
    if s == [] then [] else [f(s[0])] + Map(s[1..], f)
  }

  lemma {:induction false} MapAppend<T, U>(a: seq<T>, b: seq<T>, f: T -> U)
    ensures Map(a + b, f) == Map(a, f) + Map(b, f)
  {
    if a == [] {
      assert a + b == b;
    } else {
      assert (a + b)[1..] == a[1..] + b;
      MapAppend(a[1..], b, f);
    }
  }

  lemma RemoveOne<T>(t: seq<T>, k: nat)
    requires k < |t|
    ensures multiset(t) == multiset{t[k]} + multiset(t[..k] + t[k + 1..])
  {
    assert t == t[..k] + [t[k]] + t[k + 1..];
    MultisetAround(t[..k], t[k], t[k + 1..]);
  }

  lemma MultisetAround<U>(front: seq<U>, x: U, back: seq<U>)
    ensures multiset(front + [x] + back) == multiset{x} + multiset(front + back)
  {
  }

  lemma MapAround<T, U>(front: seq<T>, x: T, back: seq<T>, f: T -> U)
    ensures Map(front + ([x] + back), f) == Map(front, f) + [f(x)] + Map(back, f)
  {
    MapAppend(front, [x] + back, f);
    assert ([x] + back)[1..] == back;
  }

  lemma MapRemoveOneAt<T, U>(front: seq<T>, x: T, back: seq<T>, f: T -> U)
    ensures multiset(Map(front + ([x] + back), f)) == multiset{f(x)} + multiset(Map(front + back, f))
  {
    MapAround(front, x, back, f);
    MapAppend(front, back, f);
    MultisetAround(Map(front, f), f(x), Map(back, f));
  }

  lemma MapRemoveOne<T, U>(t: seq<T>, k: nat, f: T -> U)
    requires k < |t|
    ensures multiset(Map(t, f)) == multiset{f(t[k])} + multiset(Map(t[..k] + t[k + 1..], f))
  {
    SplitAt(t, k);
    MapRemoveOneAt(t[..k], t[k], t[k + 1..], f);
  }

  lemma SplitAt<T>(t: seq<T>, k: nat)
    requires k < |t|
    ensures t == t[..k] + ([t[k]] + t[k + 1..])
  {
  }

  lemma CancelOne<T>(x: T, a: multiset<T>, b: multiset<T>)
    requires multiset{x} + a == multiset{x} + b
    ensures a == b
  {
    forall y ensures a[y] == b[y] {
      assert (multiset{x} + a)[y] == (multiset{x} + b)[y];
    }
  }

  /** Mapping the same multiset of elements gives the same multiset of images. */
  lemma {:induction false} MapRespectsPermutation<T, U>(s: seq<T>, t: seq<T>, f: T -> U)
    requires multiset(s) == multiset(t)
    ensures multiset(Map(s, f)) == multiset(Map(t, f))
    decreases |s|
  {
    if s == [] {
      assert |t| == |multiset(t)| == 0;
    } else {
      var x := s[0];
      assert x in multiset(t);
      var k :| 0 <= k < |t| && t[k] == x;
      var rest := t[..k] + t[k + 1..];
      assert s == [x] + s[1..];
      RemoveOne(t, k);
      CancelOne(x, multiset(s[1..]), multiset(rest));
      MapRespectsPermutation(s[1..], rest, f);
      MapRemoveOne(t, k, f);
      assert Map(s, f) == [f(x)] + Map(s[1..], f);
    }
  }

  // ---------------------------------------------------------------------------
  // distinct elements
  // ---------------------------------------------------------------------------

  predicate Distinct<T(==)>(s: seq<T>) {
    forall i, j :: 0 <= i < j < |s| ==> s[i] != s[j]
  }

  lemma {:induction false} DistinctHasMultiplicityOne<T>(s: seq<T>, x: T)
    requires Distinct(s)
    ensures multiset(s)[x] <= 1
  {
    if s != [] {
      assert s == [s[0]] + s[1..];
      assert Distinct(s[1..]);
      DistinctHasMultiplicityOne(s[1..], x);
      if x == s[0] {
        assert x !in s[1..];
      }
    }
  }

  lemma RepeatedHasMultiplicityTwo<T>(s: seq<T>, i: nat, j: nat)
    requires i < j < |s| && s[i] == s[j]
    ensures multiset(s)[s[i]] >= 2
  {
    assert s == s[..i] + [s[i]] + s[i + 1..j] + [s[j]] + s[j + 1..];
  }

  /** A sub-multiset of a sequence without repetitions has no repetitions. */
  lemma SubMultisetOfDistinct<T>(s: seq<T>, t: seq<T>)
    requires Distinct(s) && multiset(t) <= multiset(s)
    ensures Distinct(t)
  {
    forall i, j | 0 <= i < j < |t| ensures t[i] != t[j] {
      if t[i] == t[j] {
        RepeatedHasMultiplicityTwo(t, i, j);
        DistinctHasMultiplicityOne(s, t[i]);
        assert false;
      }
    }
  }

  // ---------------------------------------------------------------------------
  // slice
  // ---------------------------------------------------------------------------

  /** How `slice` reads a (possibly negative) position against a length. */
  function RelativeIndex(len: nat, k: int): (r: nat)
    ensures r <= len
  {
    if k < 0 then Max(len + k, 0) else Min(k, len)
  }

  /** `s.slice(start, end)`; `s.slice(start)` is `Slice(s, start, |s|)`. */
  function Slice<T>(s: seq<T>, start: int, end: int): (r: seq<T>)
    ensures |r| <= |s|
  {
    var a := RelativeIndex(|s|, start);
    var b := RelativeIndex(|s|, end);
    if a < b then s[a..b] else []
  }

  lemma SliceSubMultiset<T>(s: seq<T>, start: int, end: int)
    ensures multiset(Slice(s, start, end)) <= multiset(s)
  {
    var a := RelativeIndex(|s|, start);
    var b := RelativeIndex(|s|, end);
    if a < b {
      assert s == s[..a] + s[a..b] + s[b..];
    }
  }

  /** `s.slice(0, n)` keeps the first `min(n, |s|)` elements. */
  lemma SliceFromStart<T>(s: seq<T>, n: int)
    requires n >= 0
    ensures Slice(s, 0, n) == s[..Min(n, |s|)]
  {
  }

  /** `s.slice(-n)` keeps the last `min(n, |s|)` elements. */
  lemma SliceOfLast<T>(s: seq<T>, n: int)
    requires n > 0
    ensures Slice(s, -n, |s|) == s[|s| - Min(n, |s|)..]
  {
  }

  /** `s.reverse()`. */
  function Reverse<T>(s: seq<T>): (r: seq<T>)
    ensures |r| == |s|
    ensures forall i :: 0 <= i < |s| ==> r[i] == s[|s| - 1 - i]
  {
    if s == [] then [] else Reverse(s[1..]) + [s[0]]
  }

  // ---------------------------------------------------------------------------
  // sort: stable, by a numeric key, as every engine has done since ES2019
  // ---------------------------------------------------------------------------

  predicate SortedBy<T>(s: seq<T>, key: T -> real) {
    forall i, j :: 0 <= i < j < |s| ==> key(s[i]) <= key(s[j])
  }

  /** Puts `x` in front of the first element whose key is not smaller than its own. */
  function Insert<T>(x: T, s: seq<T>, key: T -> real): (r: seq<T>)
    ensures |r| == |s| + 1
  {
    if s == [] then [x]
    else if key(x) <= key(s[0]) then [x] + s
    else [s[0]] + Insert(x, s[1..], key)
  }

  lemma {:induction false} InsertPermutes<T>(x: T, s: seq<T>, key: T -> real)
    ensures multiset(Insert(x, s, key)) == multiset(s) + multiset{x}
  {
    if s != [] && key(x) > key(s[0]) {
      var r := Insert(x, s[1..], key);
      InsertPermutes(x, s[1..], key);
      assert Insert(x, s, key) == [s[0]] + r;
      assert s == [s[0]] + s[1..];
    }
  }

  /**
   * `s.sort((a, b) => key(a) - key(b))`. A comparator `(a, b) => g(b) - g(a)`
   * (descending) is the same sort with the key `x => -g(x)`.
   */
  function SortBy<T>(s: seq<T>, key: T -> real): (r: seq<T>)
    ensures |r| == |s|
  {
    if s == [] then []
    else Insert(s[0], SortBy(s[1..], key), key)
  }

  /** Sorting permutes: the result holds every element as often as the input does. */
  lemma {:induction false} SortByPermutes<T>(s: seq<T>, key: T -> real)
    ensures multiset(SortBy(s, key)) == multiset(s)
  {
    if s != [] {
      SortByPermutes(s[1..], key);
      InsertPermutes(s[0], SortBy(s[1..], key), key);
      assert s == [s[0]] + s[1..];
    }
  }

  lemma {:induction false} InsertKeepsSorted<T>(x: T, s: seq<T>, key: T -> real)
    requires SortedBy(s, key)
    ensures SortedBy(Insert(x, s, key), key)
  {
    if s == [] {
    } else if key(x) <= key(s[0]) {
      SortedCons(x, s, key);
    } else {
      var r := Insert(x, s[1..], key);
      InsertKeepsSorted(x, s[1..], key);
      InsertPermutes(x, s[1..], key);
      forall y | y in r ensures key(s[0]) <= key(y) {
        assert y in multiset(r);
      }
      SortedCons(s[0], r, key);
      assert Insert(x, s, key) == [s[0]] + r;
    }
  }

  /** An element no greater than every element of a sorted sequence may go in front. */
  lemma SortedCons<T>(h: T, r: seq<T>, key: T -> real)
    requires SortedBy(r, key) && forall y :: y in r ==> key(h) <= key(y)
    ensures SortedBy([h] + r, key)
  {
    var t := [h] + r;
    forall i, j | 0 <= i < j < |t| ensures key(t[i]) <= key(t[j]) {
      assert t[j] == r[j - 1];
      if i > 0 {
        assert t[i] == r[i - 1];
      }
    }
  }

  /** The result of `SortBy` is ordered by its key. */
  lemma {:induction false} SortBySorted<T>(s: seq<T>, key: T -> real)
    ensures SortedBy(SortBy(s, key), key)
  {
    if s != [] {
      SortBySorted(s[1..], key);
      InsertKeepsSorted(s[0], SortBy(s[1..], key), key);
    }
  }

  /** The elements of `s` whose key is `v`, in order. */
  function WithKey<T>(s: seq<T>, key: T -> real, v: real): (r: seq<T>)
  {
    if s == [] then []
    else if key(s[0]) == v then [s[0]] + WithKey(s[1..], key, v)
    else WithKey(s[1..], key, v)
  }

  lemma {:induction false} InsertStable<T>(x: T, s: seq<T>, key: T -> real, v: real)
    ensures WithKey(Insert(x, s, key), key, v)
         == (if key(x) == v then [x] else []) + WithKey(s, key, v)
  {
    if s == [] {
      assert WithKey([x], key, v) == (if key(x) == v then [x] else []) + WithKey([x][1..], key, v);
    } else if key(x) <= key(s[0]) {
      assert ([x] + s)[1..] == s;
    } else {
      InsertStable(x, s[1..], key, v);
      assert ([s[0]] + Insert(x, s[1..], key))[1..] == Insert(x, s[1..], key);
    }
  }

  /**
   * Stability: the elements sharing a key leave the sort in the order in
   * which they entered it.
   */
  lemma {:induction false} SortByStable<T>(s: seq<T>, key: T -> real, v: real)
    ensures WithKey(SortBy(s, key), key, v) == WithKey(s, key, v)
  {
    if s != [] {
      SortByStable(s[1..], key, v);
      InsertStable(s[0], SortBy(s[1..], key), key, v);
    }
  }

  /**
   * Sorting and keeping the first `n` elements keeps elements whose keys are
   * no greater than those of every element left behind.
   */
  lemma SortedPrefixIsSmallest<T>(s: seq<T>, key: T -> real, n: nat)
    requires n <= |s|
    ensures forall x, y :: x in SortBy(s, key)[..n] && y in multiset(s) - multiset(SortBy(s, key)[..n])
                       ==> key(x) <= key(y)
  {
    var t := SortBy(s, key);
    SortBySorted(s, key);
    SortByPermutes(s, key);
    SortedSplit(t, key, n);
  }

  /**
   * `r` holds `min(n, |s|)` elements of `s` in key order, and none of them
   * has a larger key than an element of `s` left out.
   */
  ghost predicate TopByKey<T>(r: seq<T>, s: seq<T>, key: T -> real, n: nat) {
    && |r| == Min(n, |s|)
    && SortedBy(r, key)
    && multiset(r) <= multiset(s)
    && forall x, y :: x in r && y in multiset(s) - multiset(r) ==> key(x) <= key(y)
  }

  /** `s.sort(byKey).slice(0, n)` keeps the `n` elements of least key, in key order. */
  lemma SortedSliceIsTop<T>(s: seq<T>, key: T -> real, n: nat)
    ensures TopByKey(Slice(SortBy(s, key), 0, n), s, key, n)
  {
    var t := SortBy(s, key);
    var m := Min(n, |s|);
    SortByPermutes(s, key);
    assert |t| == |s| by {
      assert |multiset(t)| == |multiset(s)|;
    }
    SliceFromStart(t, n);
    var r := t[..m];
    assert SortedBy(r, key) by {
      SortBySorted(s, key);
    }
    assert multiset(r) <= multiset(s) by {
      assert t == r + t[m..];
      assert multiset(t) == multiset(r) + multiset(t[m..]);
    }
    SortedPrefixIsSmallest(s, key, m);
  }

  /** In a sequence sorted by key, the first `n` elements have keys no greater than every later one's. */
  lemma SortedSplit<T>(t: seq<T>, key: T -> real, n: nat)
    requires n <= |t| && SortedBy(t, key)
    ensures forall x, y :: x in t[..n] && y in multiset(t) - multiset(t[..n]) ==> key(x) <= key(y)
  {
    assert t == t[..n] + t[n..];
    forall x, y | x in t[..n] && y in multiset(t) - multiset(t[..n]) ensures key(x) <= key(y) {
      assert y in multiset(t[n..]);
      var i :| 0 <= i < n && t[i] == x;
      var j :| n <= j < |t| && t[j] == y;
    }
  }

  // ---------------------------------------------------------------------------
  // Object.keys / Object.entries on integer keys: ascending numeric order
  // ---------------------------------------------------------------------------

  /** The least key of `ks` that is at least `n`, found by counting up from `n` towards a known key `x`. */
  function MinFrom(ks: set<nat>, n: nat, x: nat): (m: nat)
    requires x in ks && n <= x && forall k :: k in ks ==> n <= k
    ensures m in ks && forall k :: k in ks ==> m <= k
    decreases x - n
  {
    if n in ks then n else MinFrom(ks, n + 1, x)
  }

  function MinKey(ks: set<nat>): (m: nat)
    requires ks != {}
    ensures m in ks && forall k :: k in ks ==> m <= k
  {
    var x :| x in ks;
    MinFrom(ks, 0, x)
  }

  /** `ks` listed once each, in ascending order. */
  predicate ListsAscending(r: seq<nat>, ks: set<nat>) {
    && (forall i :: 0 <= i < |r| ==> r[i] in ks)
    && (forall k :: k in ks ==> k in r)
    && (forall i :: 0 < i < |r| ==> r[i - 1] < r[i])
  }

  /** Putting the least key in front of the ascending list of the others lists them all. */
  lemma ListsAscendingCons(ks: set<nat>, m: nat, rest: seq<nat>)
    requires m in ks && forall k :: k in ks ==> m <= k
    requires ListsAscending(rest, ks - {m})
    ensures ListsAscending([m] + rest, ks)
  {
    var r := [m] + rest;
    assert forall i :: 0 < i < |r| ==> r[i] == rest[i - 1];
    assert forall k :: k in ks ==> k == m || k in ks - {m};
    assert |rest| > 0 ==> rest[0] in ks - {m};
  }

  /** The keys in the order `Object.keys` lists integer keys: ascending. */
  function AscendingKeys(ks: set<nat>): (r: seq<nat>)
    ensures ListsAscending(r, ks)
    decreases ks
  {
    if ks == {} then []
    else
      var m := MinKey(ks);
      var rest := AscendingKeys(ks - {m});
      ListsAscendingCons(ks, m, rest);
      [m] + rest
  }

  /** The entries of `m` for the given keys, in the order of the keys. */
  function EntriesFor<V>(m: map<nat, V>, keys: seq<nat>): (r: seq<(nat, V)>)
    requires forall i :: 0 <= i < |keys| ==> keys[i] in m
    ensures |r| == |keys|
    ensures forall i :: 0 <= i < |r| ==> r[i].0 == keys[i] && r[i].1 == m[keys[i]]
  {
    if keys == [] then [] else [(keys[0], m[keys[0]])] + EntriesFor(m, keys[1..])
  }

  /** `r` lists the entries of `m` once each, in ascending key order. */
  ghost predicate ListsEntries<V>(r: seq<(nat, V)>, m: map<nat, V>) {
    && (forall i :: 0 <= i < |r| ==> r[i].0 in m && r[i].1 == m[r[i].0])
    && (forall k :: k in m ==> exists i :: 0 <= i < |r| && r[i].0 == k)
    && (forall i :: 0 < i < |r| ==> r[i - 1].0 < r[i].0)
  }

  lemma EntriesForLists<V>(m: map<nat, V>, keys: seq<nat>)
    requires ListsAscending(keys, m.Keys)
    ensures ListsEntries(EntriesFor(m, keys), m)
  {
    var r := EntriesFor(m, keys);
    forall k | k in m ensures exists i :: 0 <= i < |r| && r[i].0 == k {
      assert k in keys;
      var i :| 0 <= i < |keys| && keys[i] == k;
      assert r[i].0 == k;
    }
  }

  /** `Object.entries(m)` for a record keyed by word ids. */
  function Entries<V>(m: map<nat, V>): (r: seq<(nat, V)>)
    ensures ListsEntries(r, m)
  {
    var keys := AscendingKeys(m.Keys);
    EntriesForLists(m, keys);
    EntriesFor(m, keys)
  }
}
