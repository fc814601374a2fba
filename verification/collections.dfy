/** Sequence operations of the collection library the program folds, partitions,
    sorts and de-duplicates with, written directly over Dafny sequences. */
module Collections {

  /** No element occurs twice. */
  ghost predicate NoDuplicates<T>(xs: seq<T>) {
    forall i, j :: 0 <= i < j < |xs| ==> xs[i] != xs[j]
  }

  /** Position of the first occurrence of `x` in `xs`. */
  function FirstIndex<T(==)>(xs: seq<T>, x: T): (k: nat)
    requires x in xs
    ensures k < |xs| && xs[k] == x
    ensures forall i :: 0 <= i < k ==> xs[i] != x
  {
    if xs[0] == x then 0 else 1 + FirstIndex(xs[1..], x)
  }

  /** The first index of an element of a prefix is the same in any extension
      of that prefix. */
  lemma FirstIndexInPrefix<T>(xs: seq<T>, n: nat, x: T)
    requires n <= |xs| && x in xs[..n]
    ensures FirstIndex(xs, x) == FirstIndex(xs[..n], x)
  {
    var k := FirstIndex(xs[..n], x);
    var m := FirstIndex(xs, x);
    assert xs[k] == xs[..n][k] == x;
    assert m <= k;
    assert xs[..n][m] == xs[m];
  }

  /** The elements of `r`, all of which occur in `xs`, are ordered by where
      they first occur in `xs`. */
  ghost predicate InFirstOccurrenceOrder<T>(r: seq<T>, xs: seq<T>)
    requires forall i :: 0 <= i < |r| ==> r[i] in xs
  {
    forall i, j :: 0 <= i < j < |r| ==> FirstIndex(xs, r[i]) < FirstIndex(xs, r[j])
  }

  /** In a list ordered by first occurrence, an element that occurs first
      earlier sits at a smaller index. */
  lemma FirstOccurrenceOrderIndex<T>(r: seq<T>, xs: seq<T>, i: nat, j: nat)
    requires forall k :: 0 <= k < |r| ==> r[k] in xs
    requires InFirstOccurrenceOrder(r, xs)
    requires i < |r| && j < |r| && FirstIndex(xs, r[i]) < FirstIndex(xs, r[j])
    ensures i < j
  {
  }

  /** Keeps the first occurrence of every element, in order: the library's
      `Uniq`, modelled as a left fold that appends an element only when it has
      not been seen. */
  function Uniq<T(==,!new)>(xs: seq<T>): (r: seq<T>)
    ensures NoDuplicates(r)
    ensures forall x :: x in r <==> x in xs
    ensures InFirstOccurrenceOrder(r, xs)
  {
    if |xs| == 0 then []
    else
      var u := Uniq(xs[..|xs| - 1]);
      assert forall i :: 0 <= i < |u| ==> u[i] in u;
      UniqStep(xs, u);
      if xs[|xs| - 1] in u then u else u + [xs[|xs| - 1]]
  }

  /** One step of `Uniq`: extending the de-duplicated prefix by the last
      element keeps all three of its properties. */
  lemma UniqStep<T>(xs: seq<T>, u: seq<T>)
    requires |xs| > 0
    requires NoDuplicates(u)
    requires forall y :: y in u <==> y in xs[..|xs| - 1]
    requires forall i :: 0 <= i < |u| ==> u[i] in xs[..|xs| - 1]
    requires forall i, j :: 0 <= i < j < |u| ==> FirstIndex(xs[..|xs| - 1], u[i]) < FirstIndex(xs[..|xs| - 1], u[j])
    ensures var r := if xs[|xs| - 1] in u then u else u + [xs[|xs| - 1]];
      && NoDuplicates(r)
      && (forall y :: y in r <==> y in xs)
      && InFirstOccurrenceOrder(r, xs)
  {
    var n := |xs| - 1;
    var init, x := xs[..n], xs[n];
    assert xs == init + [x];
    forall i | 0 <= i < |u| ensures u[i] in xs && FirstIndex(xs, u[i]) == FirstIndex(init, u[i]) {
      FirstIndexInPrefix(xs, n, u[i]);
    }
    if x !in u {
      var r := u + [x];
      assert FirstIndex(xs, x) == n;
      forall i, j | 0 <= i < j < |r| ensures FirstIndex(xs, r[i]) < FirstIndex(xs, r[j]) {
        if j == |u| {
          assert FirstIndex(xs, r[i]) == FirstIndex(init, u[i]);
        }
      }
    }
  }

  /** The elements `x` of `xs` with `p(x) == keep`, in their original order. */
  function Select<T(!new)>(xs: seq<T>, p: T -> bool, keep: bool): (r: seq<T>)
    ensures |r| <= |xs|
    ensures forall i :: 0 <= i < |r| ==> p(r[i]) == keep
    ensures forall x :: x in r <==> x in xs && p(x) == keep
  {
    if |xs| == 0 then []
    else
      var rest := Select(xs[..|xs| - 1], p, keep);
      var x := xs[|xs| - 1];
      assert xs == xs[..|xs| - 1] + [x];
      if p(x) == keep then rest + [x] else rest
  }

  /** Selecting from a concatenation selects from each part: the elements
      kept from `a` stay ahead of those kept from `b`, so selection preserves
      relative order. */
  lemma {:induction false} SelectAppend<T(!new)>(a: seq<T>, b: seq<T>, p: T -> bool, keep: bool)
    ensures Select(a + b, p, keep) == Select(a, p, keep) + Select(b, p, keep)
    decreases |b|
  {
    if |b| == 0 {
      assert a + b == a;
    } else {
      var b' := b[..|b| - 1];
      assert (a + b)[..|a + b| - 1] == a + b';
      SelectAppend(a, b', p, keep);
    }
  }

  /** Selecting from a sequence all of whose elements qualify returns it
      unchanged. */
  lemma {:induction false} SelectAll<T(!new)>(xs: seq<T>, p: T -> bool, keep: bool)
    requires forall i :: 0 <= i < |xs| ==> p(xs[i]) == keep
    ensures Select(xs, p, keep) == xs
    decreases |xs|
  {
    if |xs| > 0 {
      SelectAll(xs[..|xs| - 1], p, keep);
      assert xs == xs[..|xs| - 1] + [xs[|xs| - 1]];
    }
  }

  /** Selecting from a sequence none of whose elements qualify gives nothing. */
  lemma {:induction false} SelectNone<T(!new)>(xs: seq<T>, p: T -> bool, keep: bool)
    requires forall i :: 0 <= i < |xs| ==> p(xs[i]) != keep
    ensures Select(xs, p, keep) == []
    decreases |xs|
  {
    if |xs| > 0 {
      SelectNone(xs[..|xs| - 1], p, keep);
    }
  }

  /** The two sides of a selection together hold every element exactly as
      often as the input does. */
  lemma {:induction false} SelectSplits<T(!new)>(xs: seq<T>, p: T -> bool)
    ensures multiset(Select(xs, p, true)) + multiset(Select(xs, p, false)) == multiset(xs)
    decreases |xs|
  {
    if |xs| > 0 {
      SelectSplits(xs[..|xs| - 1], p);
      assert xs == xs[..|xs| - 1] + [xs[|xs| - 1]];
    }
  }

  /** The library's `Partition`: the elements satisfying `p` and the rest,
      each in original order. */
  function Partition<T(!new)>(xs: seq<T>, p: T -> bool): (r: (seq<T>, seq<T>))
    ensures multiset(r.0) + multiset(r.1) == multiset(xs)
    ensures forall i :: 0 <= i < |r.0| ==> p(r.0[i])
    ensures forall i :: 0 <= i < |r.1| ==> !p(r.1[i])
  {
    SelectSplits(xs, p);
    (Select(xs, p, true), Select(xs, p, false))
  }

  /** For two permutations of each other, finds the last element of `a` in `b`;
      what remains of each is again a permutation of the other. */
  lemma MatchLast<T>(a: seq<T>, b: seq<T>) returns (i: nat)
    requires |a| > 0 && multiset(a) == multiset(b)
    ensures i < |b| && b[i] == a[|a| - 1]
    ensures multiset(a[..|a| - 1]) == multiset(b[..i] + b[i + 1..])
  {
    var x := a[|a| - 1];
    assert x in multiset(b) by {
      assert a == a[..|a| - 1] + [x];
    }
    i :| 0 <= i < |b| && b[i] == x;
    Without(a, |a| - 1);
    Without(b, i);
  }

  /** Dropping the element at `i` removes one copy of it from the multiset. */
  lemma Without<T>(xs: seq<T>, i: nat)
    requires i < |xs|
    ensures multiset(xs[..i] + xs[i + 1..]) == multiset(xs) - multiset{xs[i]}
  {
    var front, back := xs[..i], xs[i + 1..];
    assert xs == front + [xs[i]] + back;
    assert multiset(xs) == multiset(front) + multiset{xs[i]} + multiset(back);
  }

  /** Every key is at least every later key. */
  ghost predicate SortedDescending<T>(xs: seq<T>, key: T -> real) {
    forall i, j :: 0 <= i < j < |xs| ==> key(xs[i]) >= key(xs[j])
  }

  /** Places `x` in a descending sequence ahead of the first element whose
      key does not exceed its own. */
  function Insert<T>(x: T, xs: seq<T>, key: T -> real): (r: seq<T>)
    requires SortedDescending(xs, key)
    ensures SortedDescending(r, key)
    ensures multiset(r) == multiset(xs) + multiset{x}
    ensures |r| == |xs| + 1
  {
    if |xs| == 0 then [x]
    else if key(x) >= key(xs[0]) then [x] + xs
    else
      var rest := Insert(x, xs[1..], key);
      InsertStep(x, xs, rest, key);
      [xs[0]] + rest
  }

  /** Prepending the head of `xs` to the insertion into its tail keeps the
      result descending and a permutation. */
  lemma InsertStep<T>(x: T, xs: seq<T>, rest: seq<T>, key: T -> real)
    requires |xs| > 0 && SortedDescending(xs, key) && key(x) < key(xs[0])
    requires SortedDescending(rest, key)
    requires multiset(rest) == multiset(xs[1..]) + multiset{x}
    ensures SortedDescending([xs[0]] + rest, key)
    ensures multiset([xs[0]] + rest) == multiset(xs) + multiset{x}
  {
    assert xs == [xs[0]] + xs[1..];
    forall j | 0 <= j < |rest| ensures key(xs[0]) >= key(rest[j]) {
      assert rest[j] in multiset(rest);
      if rest[j] != x {
        assert rest[j] in multiset(xs[1..]);
        var k :| 0 <= k < |xs[1..]| && xs[1..][k] == rest[j];
        assert xs[k + 1] == rest[j];
      }
    }
    var r := [xs[0]] + rest;
    forall i, j | 0 <= i < j < |r| ensures key(r[i]) >= key(r[j]) {
      if i > 0 {
        assert r[i] == rest[i - 1] && r[j] == rest[j - 1];
      }
    }
  }

  /** The library's `OrderBy` with a descending flag: an insertion sort by
      `key`. No order among equal keys is promised. */
  function OrderByDescending<T>(xs: seq<T>, key: T -> real): (r: seq<T>)
    ensures SortedDescending(r, key)
    ensures multiset(r) == multiset(xs)
    ensures |r| == |xs|
  {
    if |xs| == 0 then []
    else
      assert xs == [xs[0]] + xs[1..];
      Insert(xs[0], OrderByDescending(xs[1..], key), key)
  }
}
