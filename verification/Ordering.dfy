/** Strict total orders and the one ascending listing of a finite set: what Go's
    sorted-and-compacted slices are, whatever order their elements came in. */
module Ordering {

  function Elems<T>(s: seq<T>): set<T> {
    set x | x in s
  }

  lemma InElems<T>(s: seq<T>, i: nat)
    requires i < |s|
    ensures s[i] in Elems(s)
  {
  }

  ghost predicate StrictTotal<T(!new)>(less: (T, T) -> bool) {
    && (forall a :: !less(a, a))
    && (forall a, b, c :: less(a, b) && less(b, c) ==> less(a, c))
    && (forall a, b :: a != b ==> less(a, b) || less(b, a))
  }

  /** What sorting needs: elements that compare equal need not be equal. */
  ghost predicate StrictOrder<T(!new)>(less: (T, T) -> bool) {
    && (forall a :: !less(a, a))
    && (forall a, b, c :: less(a, b) && less(b, c) ==> less(a, c))
  }

  ghost predicate Ascending<T>(less: (T, T) -> bool, s: seq<T>) {
    forall i, j :: 0 <= i < j < |s| ==> less(s[i], s[j])
  }

  /** Sorted in the sense of Go's sort package: no later element is less than an earlier one. */
  ghost predicate Sorted<T>(less: (T, T) -> bool, s: seq<T>) {
    forall i, j :: 0 <= i < j < |s| ==> !less(s[j], s[i])
  }

  lemma {:induction false} AscendingIsUnique<T(!new)>(less: (T, T) -> bool, a: seq<T>, b: seq<T>)
    requires StrictTotal(less)
    requires Ascending(less, a) && Ascending(less, b)
    requires Elems(a) == Elems(b)
    ensures a == b
  {
    assert |a| > 0 ==> a[0] in Elems(a);
    assert |b| > 0 ==> b[0] in Elems(b);
    if |a| > 0 && |b| > 0 {
      assert a[0] in Elems(b) && a[0] in b;
      assert b[0] in Elems(a) && b[0] in a;
      assert a[0] == b[0];
      TailElems(less, a);
      TailElems(less, b);
      AscendingIsUnique(less, a[1..], b[1..]);
      assert a == [a[0]] + a[1..] && b == [b[0]] + b[1..];
    }
  }

  lemma TailElems<T(!new)>(less: (T, T) -> bool, a: seq<T>)
    requires StrictTotal(less) && Ascending(less, a) && a != []
    ensures Elems(a[1..]) == Elems(a) - {a[0]}
    ensures Ascending(less, a[1..])
  {
    assert a == [a[0]] + a[1..];
    forall x | x in Elems(a) - {a[0]} ensures x in a[1..] {
      assert x in a;
    }
    forall x | x in a[1..] ensures x != a[0] && x in a {
      var i :| 0 <= i < |a[1..]| && a[1..][i] == x;
      assert less(a[0], a[i + 1]);
    }
  }

  /** The least element of a non-empty finite set. */
  ghost function Least<T(!new)>(less: (T, T) -> bool, s: set<T>): (m: T)
    requires StrictTotal(less) && s != {}
    ensures m in s && forall x :: x in s && x != m ==> less(m, x)
  {
    var x :| x in s;
    var others := s - {x};
    assert forall y :: y in s && y != x ==> y in others;
    if others == {} then x
    else
      var m := Least(less, others);
      if less(x, m) then x else m
  }

  /** The ascending listing of a set. */
  ghost function Listing<T(!new)>(less: (T, T) -> bool, s: set<T>): (r: seq<T>)
    requires StrictTotal(less)
    ensures Ascending(less, r) && Elems(r) == s
  {
    if s == {} then []
    else
      var m := Least(less, s);
      var rest := Listing(less, s - {m});
      assert forall x :: x in rest ==> x in Elems(rest);
      assert Elems([m] + rest) == {m} + Elems(rest);
      [m] + rest
  }

  /** Any ascending sequence with the right elements is the listing. */
  lemma ListingIs<T(!new)>(less: (T, T) -> bool, a: seq<T>, s: set<T>)
    requires StrictTotal(less) && Ascending(less, a) && Elems(a) == s
    ensures a == Listing(less, s)
  {
    AscendingIsUnique(less, a, Listing(less, s));
  }

  /** Insertion into a sorted sequence, after the elements that are not greater. */
  function Insert<T>(less: (T, T) -> bool, x: T, s: seq<T>): (r: seq<T>)
    ensures multiset(r) == multiset(s) + multiset{x}
    ensures |r| == |s| + 1
  {
    if s == [] then [x]
    else if less(x, s[0]) then [x] + s
    else
      assert s == [s[0]] + s[1..];
      [s[0]] + Insert(less, x, s[1..])
  }

  function Sort<T>(less: (T, T) -> bool, s: seq<T>): (r: seq<T>)
    ensures multiset(r) == multiset(s)
    ensures |r| == |s|
  {
    if s == [] then []
    else
      assert s == s[..|s| - 1] + [s[|s| - 1]];
      Insert(less, s[|s| - 1], Sort(less, s[..|s| - 1]))
  }

  lemma {:induction false} InsertKeepsSorted<T(!new)>(less: (T, T) -> bool, x: T, s: seq<T>)
    requires StrictOrder(less) && Sorted(less, s)
    ensures Sorted(less, Insert(less, x, s))
  {
    if s != [] && !less(x, s[0]) {
      InsertKeepsSorted(less, x, s[1..]);
      var rest := Insert(less, x, s[1..]);
      forall j | 0 <= j < |rest| ensures !less(rest[j], s[0]) {
        assert rest[j] in multiset(rest);
        assert rest[j] == x || rest[j] in s[1..];
      }
    }
  }

  lemma {:induction false} SortSorts<T(!new)>(less: (T, T) -> bool, s: seq<T>)
    requires StrictOrder(less)
    ensures Sorted(less, Sort(less, s))
  {
    if s != [] {
      SortSorts(less, s[..|s| - 1]);
      InsertKeepsSorted(less, s[|s| - 1], Sort(less, s[..|s| - 1]));
    }
  }

  lemma {:induction false} InsertAtEnd<T>(less: (T, T) -> bool, x: T, s: seq<T>)
    requires forall i :: 0 <= i < |s| ==> !less(x, s[i])
    ensures Insert(less, x, s) == s + [x]
  {
    if s != [] {
      InsertAtEnd(less, x, s[1..]);
      assert s == [s[0]] + s[1..];
    }
  }

  lemma {:induction false} SortFixesSorted<T>(less: (T, T) -> bool, s: seq<T>)
    requires Sorted(less, s)
    ensures Sort(less, s) == s
  {
    if s != [] {
      SortFixesSorted(less, s[..|s| - 1]);
      InsertAtEnd(less, s[|s| - 1], s[..|s| - 1]);
    }
  }

  lemma MultisetElems<T>(a: seq<T>, b: seq<T>)
    requires multiset(a) == multiset(b)
    ensures Elems(a) == Elems(b)
  {
    forall x ensures x in a <==> x in b {
      assert x in a <==> x in multiset(a);
      assert x in b <==> x in multiset(b);
    }
  }

  lemma Without<T>(a: seq<T>, b: seq<T>) returns (i: nat)
    requires multiset(a) == multiset(b) && a != []
    ensures i < |b| && b[i] == a[0]
    ensures multiset(a[1..]) == multiset(b[..i] + b[i + 1..])
  {
    assert a[0] in multiset(b);
    i :| 0 <= i < |b| && b[i] == a[0];
    assert a == [a[0]] + a[1..];
    assert b == b[..i] + ([b[i]] + b[i + 1..]);
    assert multiset(b) == multiset(b[..i]) + (multiset{b[i]} + multiset(b[i + 1..]));
    assert multiset(a[1..]) == multiset(a) - multiset{a[0]};
  }

  function Each<A, B>(f: A -> B, s: seq<A>): (r: seq<B>)
    ensures |r| == |s| && forall i :: 0 <= i < |s| ==> r[i] == f(s[i])
  {
    seq(|s|, i requires 0 <= i < |s| => f(s[i]))
  }

  /** Reordering before or after an element-wise change is the same. */
  lemma {:induction false} EachPermuted<A, B>(f: A -> B, a: seq<A>, b: seq<A>)
    requires multiset(a) == multiset(b)
    ensures multiset(Each(f, a)) == multiset(Each(f, b))
  {
    assert |a| == |multiset(a)| == |multiset(b)| == |b|;
    if a != [] {
      var i := Without(a, b);
      var rest := b[..i] + b[i + 1..];
      EachPermuted(f, a[1..], rest);
      assert Each(f, a) == [f(a[0])] + Each(f, a[1..]);
      assert Each(f, b) == Each(f, rest)[..i] + ([f(b[i])] + Each(f, rest)[i..]);
      assert Each(f, rest) == Each(f, rest)[..i] + Each(f, rest)[i..];
    }
  }

  ghost predicate Distinct<T>(s: seq<T>) {
    forall i, j :: 0 <= i < j < |s| ==> s[i] != s[j]
  }

  lemma DistinctMore<T>(s: seq<T>, x: T)
    ensures Distinct(s + [x]) <==> Distinct(s) && x !in s
  {
    if Distinct(s + [x]) {
      forall i | 0 <= i < |s| ensures s[i] != x { assert (s + [x])[i] != (s + [x])[|s|]; }
      forall i, j | 0 <= i < j < |s| ensures s[i] != s[j] { assert (s + [x])[i] != (s + [x])[j]; }
    }
  }

  lemma DistinctPrefix<T>(s: seq<T>, i: nat)
    requires i <= |s|
    ensures Distinct(s) ==> Distinct(s[..i])
  {
  }

  lemma NothingListed<T>()
    ensures Elems<T>([]) == {} && Distinct<T>([])
  {
  }

  lemma ElemsPlus<T>(s: seq<T>, x: T)
    ensures Elems(s + [x]) == Elems(s) + {x} && (x in Elems(s) <==> x in s)
  {
  }

  lemma MultisetDistinct<T>(a: seq<T>, b: seq<T>)
    requires multiset(a) == multiset(b) && Distinct(a)
    ensures Distinct(b)
  {
    forall i, j | 0 <= i < j < |b| ensures b[i] != b[j] {
      if b[i] == b[j] {
        assert b == b[..i] + [b[i]] + b[i + 1..j] + [b[j]] + b[j + 1..];
        assert multiset(b)[b[i]] >= 2;
        DistinctCounts(a, b[i]);
      }
    }
  }

  lemma {:induction false} DistinctCounts<T>(a: seq<T>, x: T)
    requires Distinct(a)
    ensures multiset(a)[x] <= 1
  {
    if a != [] {
      DistinctCounts(a[1..], x);
      assert a == [a[0]] + a[1..];
      assert multiset(a[1..])[x] > 0 <==> x in a[1..];
    }
  }

  /** Sorting distinct elements lists their set. */
  lemma SortLists<T(!new)>(less: (T, T) -> bool, s: seq<T>)
    requires StrictTotal(less) && Distinct(s)
    ensures Sort(less, s) == Listing(less, Elems(s))
  {
    var r := Sort(less, s);
    SortSorts(less, s);
    MultisetElems(r, s);
    MultisetDistinct(s, r);
    ListingIs(less, r, Elems(s));
  }

  lemma SubsetSize<T>(a: set<T>, b: set<T>)
    requires a <= b
    ensures |a| <= |b|
  {
    assert b == a + (b - a);
  }

  /** Drains the elements of a set in an arbitrary order, as `range` over a Go map does. */
  method Drain<T(==)>(s: set<T>) returns (r: seq<T>)
    ensures Elems(r) == s && Distinct(r) && |r| == |s|
  {
    r := [];
    var todo := s;
    while todo != {}
      invariant todo <= s && Elems(r) == s - todo && Distinct(r)
      invariant |r| + |todo| == |s|
    {
      var x :| x in todo;
      assert x !in Elems(r);
      r := r + [x];
      todo := todo - {x};
      assert Elems(r) == s - todo by {
        forall y ensures y in Elems(r) <==> y in s - todo { assert y in Elems(r[..|r| - 1]) || y == x || y !in r; }
      }
    }
  }
}
