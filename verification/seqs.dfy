/** Generic sequence operations shared by the modelled code: searching, the
    filtering list comprehension, and first-wins de-duplication by a key (the
    `seen`-set loop the repository writes several times). */
module Seqs {
  import opened Wrappers

  /** A non-empty list is its front followed by its last element. */
  lemma InitLast<T>(xs: seq<T>)
    requires |xs| > 0
    ensures xs == xs[..|xs| - 1] + [xs[|xs| - 1]]
  {
  }

  /** Index of the first element of `xs` at or after `from` satisfying `p`, or `|xs|`. */
  function FirstIndex<T>(xs: seq<T>, p: T -> bool, from: nat): (i: nat)
    requires from <= |xs|
    ensures from <= i <= |xs|
    ensures forall j :: from <= j < i ==> !p(xs[j])
    ensures i < |xs| ==> p(xs[i])
    decreases |xs| - from
  {
    if from == |xs| then from
    else if p(xs[from]) then from
    else FirstIndex(xs, p, from + 1)
  }

  /** `xs[i]` is the first element of `xs` satisfying `p`. */
  predicate FirstBy<T>(xs: seq<T>, p: T -> bool, i: int) {
    0 <= i < |xs| && p(xs[i]) && forall j :: 0 <= j < i ==> !p(xs[j])
  }

  /** The search from the start finds exactly the first match. */
  lemma FirstIndexFinds<T>(xs: seq<T>, p: T -> bool)
    ensures forall i :: FirstBy(xs, p, i) ==> FirstIndex(xs, p, 0) == i
  {
  }

  /** The search from the start finds nothing exactly when nothing matches. */
  lemma FirstIndexNone<T>(xs: seq<T>, p: T -> bool)
    ensures FirstIndex(xs, p, 0) == |xs| <==> forall j :: 0 <= j < |xs| ==> !p(xs[j])
  {
  }

  /** Appending an element leaves a first match where it was, and is the
      first match only when there was none before. */
  lemma {:induction false} FirstIndexSnoc<T>(xs: seq<T>, x: T, p: T -> bool, from: nat)
    requires from <= |xs|
    ensures FirstIndex(xs + [x], p, from) ==
              if FirstIndex(xs, p, from) < |xs| then FirstIndex(xs, p, from)
              else if p(x) then |xs| else |xs| + 1
    decreases |xs| - from
  {
    if from < |xs| {
      assert (xs + [x])[from] == xs[from];
      if !p(xs[from]) {
        FirstIndexSnoc(xs, x, p, from + 1);
      }
    }
  }

  /** `xs` is `ys` with some elements left out and the rest kept in order. */
  predicate Subseq<T(==)>(xs: seq<T>, ys: seq<T>)
    decreases |ys|
  {
    if |xs| == 0 then true
    else if |ys| == 0 then false
    else (xs[|xs| - 1] == ys[|ys| - 1] && Subseq(xs[..|xs| - 1], ys[..|ys| - 1])) || Subseq(xs, ys[..|ys| - 1])
  }

  /** `[x for x in xs if p(x)]` */
  function Filter<T(==,!new)>(xs: seq<T>, p: T -> bool): (r: seq<T>)
    ensures |r| <= |xs|
    ensures forall x :: x in r <==> x in xs && p(x)
    ensures Subseq(r, xs)
  {
    if |xs| == 0 then []
    else
      var init := Filter(xs[..|xs| - 1], p);
      var x := xs[|xs| - 1];
      assert xs == xs[..|xs| - 1] + [x];
      if p(x) then
        assert (init + [x])[..|init|] == init;
        init + [x]
      else init
  }

  /** Filtering by `p` and by its negation `q` splits the input: `len(valid) + len(invalid) == len(xs)`. */
  lemma {:induction false} FilterSplit<T(!new)>(xs: seq<T>, p: T -> bool, q: T -> bool)
    requires forall x :: q(x) == !p(x)
    ensures |Filter(xs, p)| + |Filter(xs, q)| == |xs|
    decreases |xs|
  {
    if |xs| > 0 {
      FilterSplit(xs[..|xs| - 1], p, q);
    }
  }

  /** A subsequence of `xs` whose elements all satisfy `p` is no longer than `Filter(xs, p)`. */
  lemma {:induction false} SubseqFilterLength<T(!new)>(r: seq<T>, xs: seq<T>, p: T -> bool)
    requires Subseq(r, xs)
    requires forall i :: 0 <= i < |r| ==> p(r[i])
    ensures |r| <= |Filter(xs, p)|
    decreases |xs|
  {
    if |r| > 0 {
      var init := xs[..|xs| - 1];
      if r[|r| - 1] == xs[|xs| - 1] && Subseq(r[..|r| - 1], init) {
        SubseqFilterLength(r[..|r| - 1], init, p);
      } else {
        SubseqFilterLength(r, init, p);
      }
    }
  }

  /** The set of keys of the elements of `xs`. */
  function KeysOf<T, K>(xs: seq<T>, key: T -> K): set<K> {
    set i | 0 <= i < |xs| :: key(xs[i])
  }

  lemma KeysOfAppend<T, K>(xs: seq<T>, x: T, key: T -> K)
    ensures KeysOf(xs + [x], key) == KeysOf(xs, key) + {key(x)}
  {
    var l := KeysOf(xs + [x], key);
    assert key((xs + [x])[|xs|]) in l;
    forall k | k in KeysOf(xs, key) ensures k in l {
      var i :| 0 <= i < |xs| && key(xs[i]) == k;
      assert (xs + [x])[i] == xs[i];
    }
  }

  /** First-wins de-duplication: the elements whose key is eligible and
      differs from the key of every earlier element, in their original order. */
  function Dedup<T, K(==,!new)>(xs: seq<T>, key: T -> K, eligible: K -> bool): (r: seq<T>)
    ensures |r| <= |xs|
    ensures forall i :: 0 <= i < |r| ==> eligible(key(r[i]))
    ensures forall i, j :: 0 <= i < j < |r| ==> key(r[i]) != key(r[j])
    ensures forall k :: k in KeysOf(r, key) <==> k in KeysOf(xs, key) && eligible(k)
  {
    if |xs| == 0 then []
    else
      var init := xs[..|xs| - 1];
      var x := xs[|xs| - 1];
      var r := Dedup(init, key, eligible);
      KeysOfAppend(init, x, key);
      assert xs == init + [x];
      if eligible(key(x)) && key(x) !in KeysOf(init, key) then
        KeysOfAppend(r, x, key);
        assert forall i :: 0 <= i < |r| ==> key(r[i]) in KeysOf(r, key);
        r + [x]
      else r
  }

  /** The de-duplicated sequence keeps the surviving elements in input order. */
  lemma {:induction false} DedupSubseq<T, K(!new)>(xs: seq<T>, key: T -> K, eligible: K -> bool)
    ensures Subseq(Dedup(xs, key, eligible), xs)
    decreases |xs|
  {
    if |xs| > 0 {
      var init := xs[..|xs| - 1];
      var r := Dedup(init, key, eligible);
      DedupSubseq(init, key, eligible);
      SubseqDropLast(r, init, xs[|xs| - 1]);
    }
  }

  lemma SubseqDropLast<T>(r: seq<T>, ys: seq<T>, x: T)
    requires Subseq(r, ys)
    ensures Subseq(r, ys + [x]) && Subseq(r + [x], ys + [x])
  {
    assert (ys + [x])[..|ys|] == ys;
    assert (r + [x])[..|r|] == r;
  }

  /** An element whose key is eligible and appears on no earlier element survives. */
  lemma {:induction false} DedupKeepsFirst<T, K(!new)>(xs: seq<T>, key: T -> K, eligible: K -> bool, i: nat)
    requires i < |xs| && eligible(key(xs[i]))
    requires forall j :: 0 <= j < i ==> key(xs[j]) != key(xs[i])
    ensures xs[i] in Dedup(xs, key, eligible)
    decreases |xs|
  {
    var init := xs[..|xs| - 1];
    if i < |xs| - 1 {
      DedupKeepsFirst(init, key, eligible, i);
    } else {
      assert forall j :: 0 <= j < |init| ==> init[j] == xs[j];
    }
  }

  /** `xs[i]` is `y`, and no earlier element of `xs` shares its key. */
  ghost predicate FirstWithKey<T, K>(xs: seq<T>, key: T -> K, y: T, i: int) {
    0 <= i < |xs| && xs[i] == y && forall j :: 0 <= j < i ==> key(xs[j]) != key(y)
  }

  /** Every surviving element is the first of the input with its key. */
  lemma {:induction false} DedupOnlyFirst<T, K(!new)>(xs: seq<T>, key: T -> K, eligible: K -> bool, y: T)
    requires y in Dedup(xs, key, eligible)
    ensures exists i :: FirstWithKey(xs, key, y, i)
    decreases |xs|
  {
    var init := xs[..|xs| - 1];
    if y in Dedup(init, key, eligible) {
      DedupOnlyFirst(init, key, eligible, y);
      var i :| FirstWithKey(init, key, y, i);
      FirstWithKeyPrefix(init, xs, key, y, i);
    } else {
      DedupLastNew(xs, key, eligible, y);
      forall j | 0 <= j < |xs| - 1 ensures key(xs[j]) != key(y) {
        assert key(init[j]) in KeysOf(init, key);
      }
      assert FirstWithKey(xs, key, y, |xs| - 1);
    }
  }

  /** A first occurrence in a prefix is one in the whole sequence. */
  lemma FirstWithKeyPrefix<T, K>(init: seq<T>, xs: seq<T>, key: T -> K, y: T, i: int)
    requires |init| <= |xs| && init == xs[..|init|]
    requires FirstWithKey(init, key, y, i)
    ensures FirstWithKey(xs, key, y, i)
  {
    assert xs[i] == init[i];
  }

  /** A survivor that did not survive the prefix is the last element, whose
      key the prefix lacks. */
  lemma DedupLastNew<T, K(!new)>(xs: seq<T>, key: T -> K, eligible: K -> bool, y: T)
    requires y in Dedup(xs, key, eligible) && y !in Dedup(xs[..|xs| - 1], key, eligible)
    ensures |xs| > 0 && y == xs[|xs| - 1] && key(y) !in KeysOf(xs[..|xs| - 1], key)
  {
  }

  /** The `seen`-set loop: walk the input once, keeping an element when its
      key is eligible and not yet seen. */
  method DeduplicateBy<T, K(==,!new)>(xs: seq<T>, key: T -> K, eligible: K -> bool) returns (r: seq<T>)
    ensures r == Dedup(xs, key, eligible)
  {
    var seen: set<K> := {};
    r := [];
    for i := 0 to |xs|
      invariant r == Dedup(xs[..i], key, eligible)
      invariant seen == KeysOf(r, key)
    {
      var k := key(xs[i]);
      assert xs[..i + 1][..i] == xs[..i];
      if eligible(k) && k !in seen {
        KeysOfAppend(r, xs[i], key);
        seen := seen + {k};
        r := r + [xs[i]];
      }
    }
    assert xs[..|xs|] == xs;
  }

  /** One pass that sends each element to `yes` or `no` by `p`; `q` is the negation of `p`. */
  method SplitBy<T(==,!new)>(xs: seq<T>, p: T -> bool, q: T -> bool) returns (yes: seq<T>, no: seq<T>)
    requires forall x :: q(x) == !p(x)
    ensures yes == Filter(xs, p) && no == Filter(xs, q)
    ensures |yes| + |no| == |xs|
  {
    yes, no := [], [];
    for i := 0 to |xs|
      invariant yes == Filter(xs[..i], p) && no == Filter(xs[..i], q)
      invariant |yes| + |no| == i
    {
      FilterStep(xs, i, p);
      FilterStep(xs, i, q);
      var x := xs[i];
      assert q(x) == !p(x);
      if p(x) {
        yes := yes + [x];
      } else {
        no := no + [x];
      }
    }
    assert xs[..|xs|] == xs;
  }

  /** Filtering one more element of a prefix. */
  lemma FilterStep<T(!new)>(xs: seq<T>, i: nat, p: T -> bool)
    requires i < |xs|
    ensures Filter(xs[..i + 1], p) == if p(xs[i]) then Filter(xs[..i], p) + [xs[i]] else Filter(xs[..i], p)
  {
    assert xs[..i + 1][..i] == xs[..i];
  }

  /** `[f(x) for x in xs if f(x) is not None]`, the results in input order. */
  function FilterMap<T, U>(xs: seq<T>, f: T -> Option<U>): (r: seq<U>)
    ensures |r| <= |xs|
  {
    if |xs| == 0 then []
    else
      var init := FilterMap(xs[..|xs| - 1], f);
      match f(xs[|xs| - 1])
      case None => init
      case Some(y) => init + [y]
  }

  /** A result is kept exactly when some element maps to it. */
  lemma {:induction false} FilterMapContents<T, U>(xs: seq<T>, f: T -> Option<U>, y: U)
    ensures y in FilterMap(xs, f) <==> exists x :: x in xs && f(x) == Some(y)
    decreases |xs|
  {
    if |xs| > 0 {
      var init := xs[..|xs| - 1];
      FilterMapContents(init, f, y);
      assert xs == init + [xs[|xs| - 1]];
    }
  }

  /** A map that gives back every element unchanged drops nothing. */
  lemma {:induction false} FilterMapKeepsAll<T>(xs: seq<T>, f: T -> Option<T>)
    requires forall i :: 0 <= i < |xs| ==> f(xs[i]) == Some(xs[i])
    ensures FilterMap(xs, f) == xs
    decreases |xs|
  {
    if |xs| > 0 {
      FilterMapKeepsAll(xs[..|xs| - 1], f);
      InitLast(xs);
    }
  }

  /** A map that sends every element to the element at the same place of
      `ys` keeps exactly `ys`. */
  lemma {:induction false} FilterMapAllSome<T, U>(xs: seq<T>, f: T -> Option<U>, ys: seq<U>)
    requires |xs| == |ys| && forall i :: 0 <= i < |xs| ==> f(xs[i]) == Some(ys[i])
    ensures FilterMap(xs, f) == ys
    decreases |xs|
  {
    if |xs| > 0 {
      FilterMapAllSome(xs[..|xs| - 1], f, ys[..|ys| - 1]);
      InitLast(ys);
    }
  }

  /** Index of the last element satisfying `p`, or -1. */
  function LastIndex<T>(xs: seq<T>, p: T -> bool): (i: int)
    ensures -1 <= i < |xs|
    ensures i >= 0 ==> p(xs[i])
    ensures forall j :: i < j < |xs| ==> !p(xs[j])
  {
    if |xs| == 0 then -1
    else if p(xs[|xs| - 1]) then |xs| - 1
    else LastIndex(xs[..|xs| - 1], p)
  }

  /** No element occurs twice. */
  predicate Distinct<T(==)>(xs: seq<T>) {
    forall i, j :: 0 <= i < j < |xs| ==> xs[i] != xs[j]
  }

  /** `set(xs)` */
  function Elements<T(!new)>(xs: seq<T>): (r: set<T>)
    ensures forall x :: x in r <==> x in xs
  {
    if |xs| == 0 then {} else Elements(xs[..|xs| - 1]) + {xs[|xs| - 1]}
  }

  /** `len(set(xs)) == len(xs)` exactly when no element repeats; otherwise
      the set is smaller. */
  lemma {:induction false} ElementsCount<T(!new)>(xs: seq<T>)
    ensures |Elements(xs)| <= |xs|
    ensures |Elements(xs)| == |xs| <==> Distinct(xs)
  {
    if |xs| > 0 {
      var init := xs[..|xs| - 1];
      var x := xs[|xs| - 1];
      ElementsCount(init);
      assert xs == init + [x];
      DistinctSnoc(init, x);
      if x in init {
        assert Elements(xs) == Elements(init);
      } else {
        assert x !in Elements(init);
      }
    }
  }

  /** Appending keeps a sequence distinct exactly when the new element is new. */
  lemma DistinctSnoc<T>(init: seq<T>, x: T)
    ensures Distinct(init + [x]) <==> Distinct(init) && x !in init
  {
    var xs := init + [x];
    if x in init {
      var k :| 0 <= k < |init| && init[k] == x;
      assert xs[k] == xs[|init|];
    }
    if Distinct(xs) {
      forall i, j | 0 <= i < j < |init| ensures init[i] != init[j] {
        assert init[i] == xs[i] && init[j] == xs[j];
      }
    }
    if Distinct(init) && x !in init {
      forall i, j | 0 <= i < j < |xs| ensures xs[i] != xs[j] {
        if j < |init| {
          assert xs[i] == init[i] && xs[j] == init[j];
        } else {
          assert xs[i] in init;
        }
      }
    }
  }
}
