/**
 Stable insertion into a list kept sorted by a strict order `less`.  The
 order is a parameter, so the proofs here never look inside it.
 */
module Sorting {

  // Every lemma here is marked {:induction false}, the non-recursive ones too:
  // otherwise Dafny adds an automatic induction hypothesis to each proof, and
  // over sequence parameters that quantifier makes the solver far slower.

  /** `less` is irreflexive and transitive. */
  ghost predicate StrictOrder<T(!new)>(less: (T, T) -> bool) {
    && (forall a :: !less(a, a))
    && (forall a, b, c :: less(a, b) && less(b, c) ==> less(a, c))
  }

  /** No element is `less` than one before it. */
  predicate Sorted<T>(s: seq<T>, less: (T, T) -> bool) {
    forall i, j :: 0 <= i < j < |s| ==> !less(s[j], s[i])
  }

  predicate Distinct<T(==)>(s: seq<T>) {
    forall i, j :: 0 <= i < j < |s| ==> s[i] != s[j]
  }

  lemma {:induction false} SortedCons<T>(x: T, s: seq<T>, less: (T, T) -> bool)
    requires Sorted(s, less)
    requires forall j :: 0 <= j < |s| ==> !less(s[j], x)
    ensures Sorted([x] + s, less)
  {
    var r := [x] + s;
    forall i, j | 0 <= i < j < |r|
      ensures !less(r[j], r[i])
    {
      assert r[j] == s[j - 1];
      if i > 0 {
        assert r[i] == s[i - 1];
      }
    }
  }

  /** In a sorted list an element `less` than another sits before it. */
  lemma {:induction false} SortedPlacesLessFirst<T(!new)>(s: seq<T>, less: (T, T) -> bool, i: nat, j: nat)
    requires StrictOrder(less) && Sorted(s, less)
    requires i < |s| && j < |s| && less(s[i], s[j])
    ensures i < j
  {
  }

  /** Inserts `x` after every element it is not `less` than, as a stable
      sort places it among equal elements. */
  function Insert<T(!new)>(sorted: seq<T>, x: T, less: (T, T) -> bool): (r: seq<T>)
    requires StrictOrder(less) && Sorted(sorted, less)
    ensures Sorted(r, less)
    ensures multiset(r) == multiset(sorted) + multiset{x}
    ensures Distinct(sorted) && x !in sorted ==> Distinct(r)
  {
    if |sorted| == 0 then [x]
    else if less(x, sorted[0]) then
      InsertInFront(x, sorted, less);
      [x] + sorted
    else
      var rest := Insert(sorted[1..], x, less);
      InsertBehind(sorted, x, rest, less);
      [sorted[0]] + rest
  }

  lemma {:induction false} InsertInFront<T(!new)>(x: T, s: seq<T>, less: (T, T) -> bool)
    requires StrictOrder(less) && Sorted(s, less) && |s| > 0 && less(x, s[0])
    ensures Sorted([x] + s, less)
    ensures Distinct(s) && x !in s ==> Distinct([x] + s)
  {
    SortedCons(x, s, less);
  }

  lemma {:induction false} InsertBehind<T(!new)>(sorted: seq<T>, x: T, rest: seq<T>, less: (T, T) -> bool)
    requires Sorted(sorted, less) && |sorted| > 0 && !less(x, sorted[0])
    requires Sorted(rest, less) && multiset(rest) == multiset(sorted[1..]) + multiset{x}
    requires Distinct(sorted) && x !in sorted ==> Distinct(rest)
    ensures Sorted([sorted[0]] + rest, less)
    ensures multiset([sorted[0]] + rest) == multiset(sorted) + multiset{x}
    ensures Distinct(sorted) && x !in sorted ==> Distinct([sorted[0]] + rest)
  {
    var head := sorted[0];
    forall j | 0 <= j < |rest|
      ensures rest[j] == x || rest[j] in sorted[1..]
    {
      assert rest[j] in multiset(rest);
    }
    SortedCons(head, rest, less);
    assert sorted == [head] + sorted[1..];
  }

  /** The elements of `items` in `less` order, each once.  Which of several
      equal elements comes first is left to the order `items` is walked in,
      which is arbitrary. */
  method SortSet<T(!new)>(items: set<T>, less: (T, T) -> bool) returns (s: seq<T>)
    requires StrictOrder(less)
    ensures Sorted(s, less)
    ensures Distinct(s)
    ensures forall x :: x in s <==> x in items
  {
    var pending := items;
    s := [];
    while pending != {}
      invariant Sorted(s, less)
      invariant Distinct(s)
      invariant forall x :: x in s ==> x in items && x !in pending
      invariant pending <= items
      invariant forall x :: x in items ==> x in s || x in pending
      decreases pending
    {
      var x :| x in pending;
      var next := Insert(s, x, less);
      forall y | y in next
        ensures y in items && (y == x || y !in pending)
      {
        assert y in multiset(next);
      }
      forall y | y in s || y == x
        ensures y in next
      {
        assert y in multiset(next);
      }
      s := next;
      pending := pending - {x};
    }
  }
}
