/** Orderings used by the modelled code: Python's comparison of `str` values
    (lexicographic by code point), a stable sort (Python's `sorted` / `list.sort`,
    which keep equal elements in their original order), and the sorted list of a
    set's elements (`sorted(set)`). */
module Ordering {
  import opened Seqs


  /** Python's `a < b` on `str`. */
  predicate StrLess(a: string, b: string)
    decreases |a|
  {
    if |a| == 0 then |b| > 0
    else |b| > 0 && (a[0] < b[0] || (a[0] == b[0] && StrLess(a[1..], b[1..])))
  }

  predicate StrLe(a: string, b: string) {
    a == b || StrLess(a, b)
  }

  lemma {:induction false} StrLessIrreflexive(a: string)
    ensures !StrLess(a, a)
    decreases |a|
  {
    if |a| > 0 {
      StrLessIrreflexive(a[1..]);
    }
  }

  lemma {:induction false} StrLessTransitive(a: string, b: string, c: string)
    requires StrLess(a, b) && StrLess(b, c)
    ensures StrLess(a, c)
    decreases |a|
  {
    if |a| > 0 && a[0] == b[0] && b[0] == c[0] {
      StrLessTransitive(a[1..], b[1..], c[1..]);
    }
  }

  lemma {:induction false} StrLessTotal(a: string, b: string)
    ensures a == b || StrLess(a, b) || StrLess(b, a)
    decreases |a|
  {
    if |a| > 0 && |b| > 0 && a[0] == b[0] {
      StrLessTotal(a[1..], b[1..]);
      if a[1..] == b[1..] {
        assert a == [a[0]] + a[1..] && b == [b[0]] + b[1..];
      }
    }
  }

  /** A common prefix does not change the order. */
  lemma {:induction false} StrLessCommonPrefix(p: string, a: string, b: string)
    requires StrLess(a, b)
    ensures StrLess(p + a, p + b)
    decreases |p|
  {
    if |p| > 0 {
      StrLessCommonPrefix(p[1..], a, b);
      assert (p + a)[1..] == p[1..] + a && (p + b)[1..] == p[1..] + b;
      assert (p + a)[0] == (p + b)[0];
    } else {
      assert p + a == a && p + b == b;
    }
  }

  /** A common suffix does not change the order of strings of one length. */
  lemma {:induction false} StrLessCommonSuffix(a: string, b: string, s: string)
    requires |a| == |b| && StrLess(a, b)
    ensures StrLess(a + s, b + s)
    decreases |a|
  {
    if a[0] == b[0] {
      StrLessCommonSuffix(a[1..], b[1..], s);
      assert (a + s)[1..] == a[1..] + s && (b + s)[1..] == b[1..] + s;
    }
  }

  /** `<=` on `str` is a total order. */
  lemma StrLeTotalOrder()
    ensures forall a, b :: StrLe(a, b) || StrLe(b, a)
    ensures forall a, b :: StrLe(a, b) && StrLe(b, a) ==> a == b
    ensures forall a, b, c :: StrLe(a, b) && StrLe(b, c) ==> StrLe(a, c)
  {
    forall a, b ensures StrLe(a, b) || StrLe(b, a) {
      StrLessTotal(a, b);
    }
    forall a, b | StrLe(a, b) && StrLe(b, a) ensures a == b {
      if a != b {
        StrLessTransitive(a, b, a);
        StrLessIrreflexive(a);
      }
    }
    forall a, b, c | StrLe(a, b) && StrLe(b, c) ensures StrLe(a, c) {
      if a != b && b != c {
        StrLessTransitive(a, b, c);
      }
    }
  }

  /** The largest string of a non-empty list (`sorted(xs)[-1]`). */
  function MaxString(xs: seq<string>): (m: string)
    requires |xs| > 0
    ensures m in xs
    ensures forall y :: y in xs ==> StrLe(y, m)
  {
    if |xs| == 1 then xs[0]
    else
      var rest := MaxString(xs[1..]);
      StrLeTotalOrder();
      assert xs == [xs[0]] + xs[1..];
      if StrLess(rest, xs[0]) then xs[0] else rest
  }

  /** `m` is the least element of `s`. */
  predicate IsMinimum(m: string, s: set<string>) {
    m in s && forall y :: y in s ==> StrLe(m, y)
  }

  /** Some element of a non-empty set is below all others. */
  lemma {:induction false} MinimumExists(s: set<string>)
    requires s != {}
    ensures exists m :: IsMinimum(m, s)
    decreases |s|
  {
    var x :| x in s;
    if s - {x} == {} {
      assert s == {x};
      assert IsMinimum(x, s);
    } else {
      MinimumExists(s - {x});
      var m :| IsMinimum(m, s - {x});
      StrLeTotalOrder();
      if StrLe(m, x) {
        assert IsMinimum(m, s);
      } else {
        assert IsMinimum(x, s);
      }
    }
  }

  /** A set has at most one least element. */
  lemma MinimumUnique(s: set<string>)
    ensures forall a, b :: IsMinimum(a, s) && IsMinimum(b, s) ==> a == b
  {
    forall a, b | IsMinimum(a, s) && IsMinimum(b, s) ensures a == b {
      if a != b {
        assert StrLess(a, b) && StrLess(b, a);
        StrLessTransitive(a, b, a);
        StrLessIrreflexive(a);
      }
    }
  }

  /** `sorted(s)` for a set of strings: its elements in strictly increasing order. */
  function SortedFromSet(s: set<string>): (r: seq<string>)
    ensures |r| == |s|
    ensures forall x :: x in r <==> x in s
    ensures forall i, j :: 0 <= i < j < |r| ==> StrLess(r[i], r[j])
    decreases |s|
  {
    if s == {} then []
    else
      MinimumExists(s);
      MinimumUnique(s);
      var m :| IsMinimum(m, s);
      var rest := SortedFromSet(s - {m});
      MinimumFirst(m, s, rest);
      [m] + rest
  }

  /** The least element, put in front of the rest in increasing order, gives
      the whole set in increasing order. */
  lemma MinimumFirst(m: string, s: set<string>, rest: seq<string>)
    requires IsMinimum(m, s)
    requires |rest| == |s - {m}|
    requires forall x :: x in rest <==> x in s - {m}
    requires forall i, j :: 0 <= i < j < |rest| ==> StrLess(rest[i], rest[j])
    ensures |[m] + rest| == |s|
    ensures forall x :: x in [m] + rest <==> x in s
    ensures forall i, j :: 0 <= i < j < |[m] + rest| ==> StrLess(([m] + rest)[i], ([m] + rest)[j])
  {
    var r := [m] + rest;
    forall i, j | 0 <= i < j < |r| ensures StrLess(r[i], r[j]) {
      if i == 0 {
        assert r[j] == rest[j - 1] && r[j] in s - {m};
      } else {
        assert r[i] == rest[i - 1] && r[j] == rest[j - 1];
      }
    }
  }

  /** `le` is a total preorder: the comparison a stable sort is given. */
  ghost predicate TotalPreorder<T(!new)>(le: (T, T) -> bool) {
    (forall a, b :: le(a, b) || le(b, a)) &&
    (forall a, b, c :: le(a, b) && le(b, c) ==> le(a, c))
  }

  predicate SortedBy<T>(xs: seq<T>, le: (T, T) -> bool) {
    forall i, j :: 0 <= i < j < |xs| ==> le(xs[i], xs[j])
  }

  /** The elements of `xs` that `le` ranks equal to `x`, in their order in `xs`. */
  function Peers<T>(xs: seq<T>, le: (T, T) -> bool, x: T): (r: seq<T>)
    ensures |r| <= |xs|
  {
    if |xs| == 0 then []
    else (if le(xs[0], x) && le(x, xs[0]) then [xs[0]] else []) + Peers(xs[1..], le, x)
  }

  lemma {:induction false} PeersAppend<T>(a: seq<T>, b: seq<T>, le: (T, T) -> bool, x: T)
    ensures Peers(a + b, le, x) == Peers(a, le, x) + Peers(b, le, x)
    decreases |a|
  {
    if |a| == 0 {
      assert a + b == b;
    } else {
      assert (a + b)[1..] == a[1..] + b;
      PeersAppend(a[1..], b, le, x);
    }
  }

  /** `x` placed after every element of the sorted `s` that it does not precede strictly. */
  function Insert<T>(x: T, s: seq<T>, le: (T, T) -> bool): (r: seq<T>)
    ensures multiset(r) == multiset(s) + multiset{x}
  {
    if |s| == 0 then [x]
    else if le(s[0], x) then
      assert s == [s[0]] + s[1..];
      [s[0]] + Insert(x, s[1..], le)
    else [x] + s
  }

  lemma {:induction false} InsertSorted<T(!new)>(x: T, s: seq<T>, le: (T, T) -> bool)
    requires TotalPreorder(le)
    requires SortedBy(s, le)
    ensures SortedBy(Insert(x, s, le), le)
    decreases |s|
  {
    if |s| > 0 && le(s[0], x) {
      InsertSorted(x, s[1..], le);
      var r := Insert(x, s, le);
      forall j | 0 < j < |r| ensures le(r[0], r[j]) {
        assert r[j] in multiset(Insert(x, s[1..], le));
        assert r[j] == x || r[j] in s[1..];
      }
    }
  }

  /** Inserting `x` adds `x` at the end of its own peers and changes no other peer list. */
  lemma {:induction false} InsertPeers<T(!new)>(x: T, s: seq<T>, le: (T, T) -> bool, y: T)
    requires TotalPreorder(le)
    requires SortedBy(s, le)
    ensures Peers(Insert(x, s, le), le, y) ==
            Peers(s, le, y) + (if le(x, y) && le(y, x) then [x] else [])
    decreases |s|
  {
    if |s| == 0 {
    } else if le(s[0], x) {
      SortedTail(s, le);
      InsertPeers(x, s[1..], le, y);
      assert Insert(x, s, le) == [s[0]] + Insert(x, s[1..], le);
      PeersCons(s[0], Insert(x, s[1..], le), le, y);
      assert s == [s[0]] + s[1..];
      PeersCons(s[0], s[1..], le, y);
      ConcatAssoc(if le(s[0], y) && le(y, s[0]) then [s[0]] else [], Peers(s[1..], le, y),
                  if le(x, y) && le(y, x) then [x] else []);
    } else {
      InsertPeersFront(x, s, le, y);
    }
  }

  lemma ConcatAssoc<T>(a: seq<T>, b: seq<T>, c: seq<T>)
    ensures a + (b + c) == (a + b) + c
  {
  }

  /** Peers of a list with a given head, grouped to the right. */
  lemma PeersCons<T>(h: T, rest: seq<T>, le: (T, T) -> bool, y: T)
    ensures Peers([h] + rest, le, y) == (if le(h, y) && le(y, h) then [h] else []) + Peers(rest, le, y)
  {
    assert ([h] + rest)[1..] == rest;
  }

  /** Inserting in front of a sorted list whose head ranks strictly above `x`. */
  lemma InsertPeersFront<T(!new)>(x: T, s: seq<T>, le: (T, T) -> bool, y: T)
    requires TotalPreorder(le)
    requires SortedBy(s, le)
    requires |s| > 0 && !le(s[0], x)
    ensures Peers([x] + s, le, y) == Peers(s, le, y) + (if le(x, y) && le(y, x) then [x] else [])
  {
    PeersAppend([x], s, le, y);
    assert [x][1..] == [];
    if le(x, y) && le(y, x) {
      // every element of `s` ranks strictly above `x`, so none is a peer of `y`
      assert !le(s[0], y);
      PeersNone(s, le, y);
    }
  }

  lemma SortedTail<T>(s: seq<T>, le: (T, T) -> bool)
    requires |s| > 0 && SortedBy(s, le)
    ensures SortedBy(s[1..], le)
  {
    forall i, j | 0 <= i < j < |s| - 1 ensures le(s[1..][i], s[1..][j]) {
      assert s[1..][i] == s[i + 1] && s[1..][j] == s[j + 1];
    }
  }

  /** In a list sorted by `le` whose head ranks strictly above `y`, nothing is a peer of `y`. */
  lemma {:induction false} PeersNone<T(!new)>(s: seq<T>, le: (T, T) -> bool, y: T)
    requires TotalPreorder(le)
    requires SortedBy(s, le)
    requires |s| > 0 && !le(s[0], y)
    ensures Peers(s, le, y) == []
    decreases |s|
  {
    if |s| > 1 {
      assert le(s[0], s[1]);
      PeersNone(s[1..], le, y);
    }
  }

  /** A stable sort: insertion of each element, in input order, behind its peers. */
  function StableSort<T(!new)>(xs: seq<T>, le: (T, T) -> bool): (r: seq<T>)
    requires TotalPreorder(le)
    ensures multiset(r) == multiset(xs)
    ensures SortedBy(r, le)
    ensures forall y :: Peers(r, le, y) == Peers(xs, le, y)
    decreases |xs|
  {
    if |xs| == 0 then []
    else
      var init := xs[..|xs| - 1];
      var last := xs[|xs| - 1];
      var sortedInit := StableSort(init, le);
      InsertSorted(last, sortedInit, le);
      InitLast(xs);
      var r := Insert(last, sortedInit, le);
      assert forall y :: Peers(r, le, y) == Peers(xs, le, y) by {
        forall y ensures Peers(r, le, y) == Peers(xs, le, y) {
          InsertPeers(last, sortedInit, le, y);
          PeersAppend(init, [last], le, y);
        }
      }
      r
  }
  /** An element that no element of `s` ranks strictly above goes at the end. */
  lemma {:induction false} InsertLast<T>(x: T, s: seq<T>, le: (T, T) -> bool)
    requires forall k :: 0 <= k < |s| ==> le(s[k], x)
    ensures Insert(x, s, le) == s + [x]
    decreases |s|
  {
    if |s| > 0 {
      InsertLast(x, s[1..], le);
      assert s == [s[0]] + s[1..];
    }
  }

  /** A stable sort leaves an already sorted list as it is. */
  lemma {:induction false} StableSortSorted<T(!new)>(xs: seq<T>, le: (T, T) -> bool)
    requires TotalPreorder(le)
    requires SortedBy(xs, le)
    ensures StableSort(xs, le) == xs
    decreases |xs|
  {
    if |xs| > 0 {
      var init := xs[..|xs| - 1];
      var last := xs[|xs| - 1];
      SortedInit(xs, init, le);
      StableSortSorted(init, le);
      InsertLast(last, init, le);
      StableSortStep(xs, le);
      InitLast(xs);
    }
  }

  /** Dropping the last element of a sorted list leaves a sorted list, all
      of which ranks at most that element. */
  lemma SortedInit<T>(xs: seq<T>, init: seq<T>, le: (T, T) -> bool)
    requires |xs| > 0 && SortedBy(xs, le) && init == xs[..|xs| - 1]
    ensures SortedBy(init, le)
    ensures forall k :: 0 <= k < |init| ==> le(init[k], xs[|xs| - 1])
  {
    forall i, j | 0 <= i < j < |init| ensures le(init[i], init[j]) {
      assert init[i] == xs[i] && init[j] == xs[j];
    }
    forall k | 0 <= k < |init| ensures le(init[k], xs[|xs| - 1]) {
      assert init[k] == xs[k];
    }
  }

  /** One step of `StableSort`: the last element is inserted into the sorted rest. */
  lemma StableSortStep<T(!new)>(xs: seq<T>, le: (T, T) -> bool)
    requires TotalPreorder(le) && |xs| > 0
    ensures StableSort(xs, le) == Insert(xs[|xs| - 1], StableSort(xs[..|xs| - 1], le), le)
  {
  }

  /** The elements of `xs` whose key is `k`, in their order in `xs`. */
  function WithKey<T(!new), K(==)>(xs: seq<T>, key: T -> K, k: K): (r: seq<T>)
    ensures |r| <= |xs|
    ensures forall x :: x in r <==> x in xs && key(x) == k
    ensures (forall x :: x in xs ==> key(x) != k) ==> r == []
  {
    if |xs| == 0 then []
    else (if key(xs[0]) == k then [xs[0]] else []) + WithKey(xs[1..], key, k)
  }

  /** When `le` ranks two elements equal exactly when their keys agree, the
      peers of `y` are the elements carrying `y`'s key. */
  lemma {:induction false} PeersByKey<T(!new), K>(xs: seq<T>, le: (T, T) -> bool, key: T -> K, y: T)
    requires forall a, b :: le(a, b) && le(b, a) <==> key(a) == key(b)
    ensures Peers(xs, le, y) == WithKey(xs, key, key(y))
    decreases |xs|
  {
    if |xs| > 0 {
      PeersByKey(xs[1..], le, key, y);
    }
  }

  /** A stable sort keeps, for every key, the elements with that key in their input order. */
  lemma StableByKey<T(!new), K>(xs: seq<T>, r: seq<T>, le: (T, T) -> bool, key: T -> K)
    requires forall a, b :: le(a, b) && le(b, a) <==> key(a) == key(b)
    requires multiset(r) == multiset(xs)
    requires forall y :: Peers(r, le, y) == Peers(xs, le, y)
    ensures forall k :: WithKey(r, key, k) == WithKey(xs, key, k)
  {
    forall k ensures WithKey(r, key, k) == WithKey(xs, key, k) {
      if y :| y in r && key(y) == k {
        PeersByKey(r, le, key, y);
        PeersByKey(xs, le, key, y);
      } else {
        assert forall x :: x in xs ==> x in multiset(r);
      }
    }
  }

  /** `sorted(xs, key=key, reverse=True)` for an integer key. */
  function SortByKeyDescending<T(!new)>(xs: seq<T>, key: T -> int): (r: seq<T>)
    ensures multiset(r) == multiset(xs)
    ensures forall i, j :: 0 <= i < j < |r| ==> key(r[i]) >= key(r[j])
    ensures forall k :: WithKey(r, key, k) == WithKey(xs, key, k)
  {
    var le := (a: T, b: T) => key(a) >= key(b);
    var r := StableSort(xs, le);
    StableByKey(xs, r, le, key);
    r
  }

  /** Input already in non-increasing key order comes back unchanged. */
  lemma SortByKeyDescendingSorted<T(!new)>(xs: seq<T>, key: T -> int)
    requires forall i, j :: 0 <= i < j < |xs| ==> key(xs[i]) >= key(xs[j])
    ensures SortByKeyDescending(xs, key) == xs
  {
    StableSortSorted(xs, (a: T, b: T) => key(a) >= key(b));
  }

  /** `sorted(xs, key=key)` for an integer key. */
  function SortByKeyAscending<T(!new)>(xs: seq<T>, key: T -> int): (r: seq<T>)
    ensures multiset(r) == multiset(xs)
    ensures forall i, j :: 0 <= i < j < |r| ==> key(r[i]) <= key(r[j])
    ensures forall k :: WithKey(r, key, k) == WithKey(xs, key, k)
  {
    var le := (a: T, b: T) => key(a) <= key(b);
    var r := StableSort(xs, le);
    StableByKey(xs, r, le, key);
    r
  }

  /** Input already in non-decreasing key order comes back unchanged. */
  lemma SortByKeyAscendingSorted<T(!new)>(xs: seq<T>, key: T -> int)
    requires forall i, j :: 0 <= i < j < |xs| ==> key(xs[i]) <= key(xs[j])
    ensures SortByKeyAscending(xs, key) == xs
  {
    StableSortSorted(xs, (a: T, b: T) => key(a) <= key(b));
  }

  /** `sorted(xs, key=key)` for a string key. */
  function SortByStringKey<T(!new)>(xs: seq<T>, key: T -> string): (r: seq<T>)
    ensures multiset(r) == multiset(xs)
    ensures forall i, j :: 0 <= i < j < |r| ==> StrLe(key(r[i]), key(r[j]))
    ensures forall k :: WithKey(r, key, k) == WithKey(xs, key, k)
  {
    StrLeTotalOrder();
    var le := (a: T, b: T) => StrLe(key(a), key(b));
    var r := StableSort(xs, le);
    StableByKey(xs, r, le, key);
    r
  }

  /** Input already in non-decreasing key order comes back unchanged. */
  lemma SortByStringKeySorted<T(!new)>(xs: seq<T>, key: T -> string)
    requires forall i, j :: 0 <= i < j < |xs| ==> StrLe(key(xs[i]), key(xs[j]))
    ensures SortByStringKey(xs, key) == xs
  {
    StrLeTotalOrder();
    StableSortSorted(xs, (a: T, b: T) => StrLe(key(a), key(b)));
  }
}
