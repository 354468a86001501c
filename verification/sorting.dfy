/** Python's `sorted(xs, key=k)` for string keys: a stable sort.
    Modelled as insertion sort; the lemmas prove that the result is ordered
    by key, is a permutation of the input, and keeps the input order among
    elements with equal keys (which together determine it uniquely). */
module Sorting {
  import opened Strings

  predicate SortedBy<T>(s: seq<T>, key: T -> string)
  {
    forall i, j :: 0 <= i < j < |s| ==> StrLe(key(s[i]), key(s[j]))
  }

  /** Inserts `x` after every element whose key is not greater than its own. */
  function Insert<T>(x: T, s: seq<T>, key: T -> string): (r: seq<T>)
    ensures multiset(r) == multiset(s) + multiset{x}
    ensures |r| == |s| + 1
  {
    if s == [] then [x]
    else if StrLt(key(x), key(s[0])) then [x] + s
    else
      assert s == [s[0]] + s[1..];
      [s[0]] + Insert(x, s[1..], key)
  }

  function SortBy<T>(s: seq<T>, key: T -> string): (r: seq<T>)
    ensures multiset(r) == multiset(s)
    ensures |r| == |s|
  {
    if s == [] then []
    else
      var init, last := s[..|s| - 1], s[|s| - 1];
      assert s == init + [last];
      assert multiset(s) == multiset(init) + multiset{last};
      Insert(last, SortBy(init, key), key)
  }

  /** The elements of `s` whose key is `k`, in their order in `s`. */
  function WithKey<T>(s: seq<T>, key: T -> string, k: string): seq<T>
  {
    if s == [] then [] else (if key(s[0]) == k then [s[0]] else []) + WithKey(s[1..], key, k)
  }

  lemma {:induction false} WithKeyAppend<T>(a: seq<T>, b: seq<T>, key: T -> string, k: string)
    ensures WithKey(a + b, key, k) == WithKey(a, key, k) + WithKey(b, key, k)
  {
    if a != [] {
      var head := if key(a[0]) == k then [a[0]] else [];
      assert (a + b)[0] == a[0];
      assert (a + b)[1..] == a[1..] + b;
      assert WithKey(a + b, key, k) == head + WithKey(a[1..] + b, key, k);
      WithKeyAppend(a[1..], b, key, k);
      assert WithKey(a, key, k) == head + WithKey(a[1..], key, k);
      calc {
        WithKey(a + b, key, k);
        head + WithKey(a[1..] + b, key, k);
        head + (WithKey(a[1..], key, k) + WithKey(b, key, k));
        (head + WithKey(a[1..], key, k)) + WithKey(b, key, k);
      }
    } else {
      assert a + b == b;
    }
  }

  lemma {:induction false} InsertSorted<T>(x: T, s: seq<T>, key: T -> string)
    requires SortedBy(s, key)
    ensures SortedBy(Insert(x, s, key), key)
  {
    if s == [] {
    } else if StrLt(key(x), key(s[0])) {
      StrLtIsStrict(key(x), key(s[0]));
      FrontBound(x, s, key);
      ConsSorted(x, s, key);
    } else {
      StrLeTotal(key(x), key(s[0]));
      var t := Insert(x, s[1..], key);
      InsertSorted(x, s[1..], key);
      RestBound(s, x, t, key);
      ConsSorted(s[0], t, key);
      InsertAfter(x, s, key);
    }
  }

  /** An element whose key is at most every key of a sorted sequence can go
      in front of it. */
  lemma ConsSorted<T>(y: T, t: seq<T>, key: T -> string)
    requires SortedBy(t, key)
    requires forall j :: 0 <= j < |t| ==> StrLe(key(y), key(t[j]))
    ensures SortedBy([y] + t, key)
  {
    var r := [y] + t;
    forall i, j | 0 <= i < j < |r| ensures StrLe(key(r[i]), key(r[j])) {
      assert r[j] == t[j - 1];
      if i > 0 {
        assert r[i] == t[i - 1];
      }
    }
  }

  /** A key at most the first of a sorted sequence is at most all of them. */
  lemma FrontBound<T>(x: T, s: seq<T>, key: T -> string)
    requires SortedBy(s, key) && s != [] && StrLe(key(x), key(s[0]))
    ensures forall j :: 0 <= j < |s| ==> StrLe(key(x), key(s[j]))
  {
    forall j | 0 <= j < |s| ensures StrLe(key(x), key(s[j])) {
      if j > 0 {
        StrLeTransitive(key(x), key(s[0]), key(s[j]));
      }
    }
  }

  /** The first key of a sorted `s` is at most every key of a rearrangement
      of the rest of `s` with `x` added, when it is at most `x`'s key. */
  lemma RestBound<T>(s: seq<T>, x: T, t: seq<T>, key: T -> string)
    requires SortedBy(s, key) && s != [] && StrLe(key(s[0]), key(x))
    requires multiset(t) == multiset(s[1..]) + multiset{x}
    ensures forall j :: 0 <= j < |t| ==> StrLe(key(s[0]), key(t[j]))
  {
    forall j | 0 <= j < |t| ensures StrLe(key(s[0]), key(t[j])) {
      assert t[j] in multiset(t);
      if t[j] != x {
        assert t[j] in multiset(s[1..]);
        var m :| 0 <= m < |s[1..]| && s[1..][m] == t[j];
        assert s[m + 1] == t[j];
      }
    }
  }

  /** `sorted` returns its input ordered by key. */
  lemma {:induction false} SortBySorted<T>(s: seq<T>, key: T -> string)
    ensures SortedBy(SortBy(s, key), key)
  {
    if s != [] {
      SortBySorted(s[..|s| - 1], key);
      InsertSorted(s[|s| - 1], SortBy(s[..|s| - 1], key), key);
    }
  }

  lemma {:induction false} InsertStable<T>(x: T, s: seq<T>, key: T -> string, k: string)
    requires SortedBy(s, key)
    ensures WithKey(Insert(x, s, key), key, k)
         == WithKey(s, key, k) + (if key(x) == k then [x] else [])
  {
    if s == [] {
      assert Insert(x, s, key) == [x];
      assert WithKey([x], key, k) == (if key(x) == k then [x] else []) + WithKey([], key, k);
    } else if StrLt(key(x), key(s[0])) {
      InsertStableBefore(x, s, key, k);
    } else {
      assert SortedBy(s[1..], key);
      InsertStable(x, s[1..], key, k);
      InsertAfter(x, s, key);
      ConsStable(s, Insert(x, s[1..], key), if key(x) == k then [x] else [], key, k);
    }
  }

  /** `x` goes in front of a sorted `s` whose first key is greater. */
  lemma InsertStableBefore<T>(x: T, s: seq<T>, key: T -> string, k: string)
    requires SortedBy(s, key) && s != [] && StrLt(key(x), key(s[0]))
    ensures WithKey(Insert(x, s, key), key, k)
         == WithKey(s, key, k) + (if key(x) == k then [x] else [])
  {
    var tail := if key(x) == k then [x] else [];
    assert Insert(x, s, key) == [x] + s;
    WithKeyAppend([x], s, key, k);
    assert WithKey([x], key, k) == tail + WithKey([], key, k);
    if key(x) == k {
      NoneWithSmallerKey(s, key, k);
      assert WithKey(Insert(x, s, key), key, k) == tail + [];
    } else {
      assert WithKey(Insert(x, s, key), key, k) == [] + WithKey(s, key, k);
    }
  }

  /** Putting the first element of `s` back in front of `t` adds its
      entry, if it has key `k`, in front of the filtered `t`. */
  lemma ConsStable<T>(s: seq<T>, t: seq<T>, tail: seq<T>, key: T -> string, k: string)
    requires s != [] && WithKey(t, key, k) == WithKey(s[1..], key, k) + tail
    ensures WithKey([s[0]] + t, key, k) == WithKey(s, key, k) + tail
  {
    var head := if key(s[0]) == k then [s[0]] else [];
    WithKeyCons(s[0], t, key, k);
    assert WithKey(s, key, k) == head + WithKey(s[1..], key, k);
    assert (head + WithKey(s[1..], key, k)) + tail == head + (WithKey(s[1..], key, k) + tail);
  }

  lemma InsertAfter<T>(x: T, s: seq<T>, key: T -> string)
    requires s != [] && !StrLt(key(x), key(s[0]))
    ensures Insert(x, s, key) == [s[0]] + Insert(x, s[1..], key)
  {
  }

  lemma WithKeyCons<T>(y: T, t: seq<T>, key: T -> string, k: string)
    ensures WithKey([y] + t, key, k) == (if key(y) == k then [y] else []) + WithKey(t, key, k)
  {
    assert ([y] + t)[0] == y && ([y] + t)[1..] == t;
  }

  /** In a sorted sequence whose first key is greater than `k`, no key equals `k`. */
  lemma {:induction false} NoneWithSmallerKey<T>(s: seq<T>, key: T -> string, k: string)
    requires SortedBy(s, key)
    requires s != [] && StrLt(k, key(s[0]))
    ensures WithKey(s, key, k) == []
  {
    StrLeReflexive(k);
    assert key(s[0]) != k;
    if |s| > 1 {
      assert StrLe(key(s[0]), key(s[1]));
      if StrLe(key(s[1]), k) {
        StrLeTransitive(key(s[0]), key(s[1]), k);
        assert false;
      }
      assert SortedBy(s[1..], key);
      NoneWithSmallerKey(s[1..], key, k);
    }
  }

  /** `sorted` is stable: elements with equal keys keep their input order. */
  lemma {:induction false} SortByStable<T>(s: seq<T>, key: T -> string, k: string)
    ensures WithKey(SortBy(s, key), key, k) == WithKey(s, key, k)
  {
    if s != [] {
      var init, last := s[..|s| - 1], s[|s| - 1];
      assert s == init + [last];
      SortBySorted(init, key);
      SortByStable(init, key, k);
      InsertStable(last, SortBy(init, key), key, k);
      WithKeySnoc(init, last, key, k);
    }
  }

  /** Filtering `init + [last]` filters `init`, then adds `last` if it has
      key `k`. */
  lemma WithKeySnoc<T>(init: seq<T>, last: T, key: T -> string, k: string)
    ensures WithKey(init + [last], key, k) == WithKey(init, key, k) + (if key(last) == k then [last] else [])
  {
    WithKeyAppend(init, [last], key, k);
    WithKeyCons(last, [], key, k);
    assert [last] + [] == [last];
  }

  /** `[f(x) for x in s]` */
  function Map<T, U>(s: seq<T>, f: T -> U): (r: seq<U>)
    ensures |r| == |s| && forall i :: 0 <= i < |s| ==> r[i] == f(s[i])
  {
    if s == [] then [] else [f(s[0])] + Map(s[1..], f)
  }

  lemma MapAppend<T, U>(a: seq<T>, b: seq<T>, f: T -> U)
    ensures Map(a + b, f) == Map(a, f) + Map(b, f)
  {
    assert forall i :: 0 <= i < |a + b| ==> Map(a + b, f)[i] == (Map(a, f) + Map(b, f))[i];
  }

  /** Mapping a rearrangement gives a rearrangement. */
  lemma {:induction false} MapPermutation<T, U>(a: seq<T>, b: seq<T>, f: T -> U)
    requires multiset(a) == multiset(b)
    ensures multiset(Map(a, f)) == multiset(Map(b, f))
    decreases |a|
  {
    if a != [] {
      assert a[0] in multiset(b);
      var k :| 0 <= k < |b| && b[k] == a[0];
      RemoveOne(a, b, k);
      MapPermutation(a[1..], b[..k] + b[k + 1..], f);
      MapRemoveOne(a, b, k, f);
    }
  }

  /** Taking the first element out of `a` and an equal one out of `b` leaves
      rearrangements of each other. */
  lemma RemoveOne<T>(a: seq<T>, b: seq<T>, k: nat)
    requires multiset(a) == multiset(b) && a != [] && k < |b| && b[k] == a[0]
    ensures multiset(a[1..]) == multiset(b[..k] + b[k + 1..])
  {
    var x, rest := a[0], b[..k] + b[k + 1..];
    assert b == b[..k] + [x] + b[k + 1..];
    assert a == [x] + a[1..];
    forall y ensures multiset(a[1..])[y] == multiset(rest)[y] {
      assert multiset(a)[y] == multiset{x}[y] + multiset(a[1..])[y];
      assert multiset(b)[y] == multiset{x}[y] + multiset(rest)[y];
    }
  }

  lemma MapRemoveOne<T, U>(a: seq<T>, b: seq<T>, k: nat, f: T -> U)
    requires a != [] && k < |b| && b[k] == a[0]
    ensures multiset(Map(a, f)) == multiset{f(a[0])} + multiset(Map(a[1..], f))
    ensures multiset(Map(b, f)) == multiset{f(a[0])} + multiset(Map(b[..k] + b[k + 1..], f))
  {
    assert a == [a[0]] + a[1..];
    MapAppend([a[0]], a[1..], f);
    assert b == b[..k] + ([b[k]] + b[k + 1..]);
    MapAppend(b[..k], [b[k]] + b[k + 1..], f);
    MapAppend([b[k]], b[k + 1..], f);
    MapAppend(b[..k], b[k + 1..], f);
  }
}
