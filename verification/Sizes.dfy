/** How many things there are of a kind. */
module Sizes {
  import opened Counting

  ghost predicate AreThose<T(!new)>(s: set<T>, such: T -> bool) {
    forall x :: x in s <==> such(x)
  }

  /** There are `n` things such as this. */
  ghost predicate IsSizeOf<T(!new)>(n: nat, such: T -> bool) {
    exists s: set<T> :: |s| == n && AreThose(s, such)
  }

  lemma NothingSuch<T(!new)>(such: T -> bool)
    requires forall x :: !such(x)
    ensures IsSizeOf(0, such)
  {
    var s: set<T> := {};
    assert AreThose(s, such);
  }

  lemma SizeOfSet<T(!new)>(s: set<T>, such: T -> bool)
    requires forall x :: x in s <==> such(x)
    ensures IsSizeOf(|s|, such)
  {
    assert AreThose(s, such);
  }

  lemma SizesAdd<T(!new)>(n: nat, a: T -> bool, m: nat, b: T -> bool, either: T -> bool)
    requires IsSizeOf(n, a) && IsSizeOf(m, b)
    requires forall x :: !(a(x) && b(x)) && (either(x) <==> a(x) || b(x))
    ensures IsSizeOf(n + m, either)
  {
    var s: set<T> :| |s| == n && AreThose(s, a);
    var t: set<T> :| |t| == m && AreThose(t, b);
    assert s !! t;
    var both := s + t;
    assert |both| == n + m;
    SizeOfSet(both, either);
  }

  lemma {:induction false} ImageSize<A(!new), B(!new)>(s: set<A>, f: A -> B) returns (t: set<B>)
    requires forall x, y :: x in s && y in s && f(x) == f(y) ==> x == y
    ensures |t| == |s| && (forall x :: x in s ==> f(x) in t) && forall y :: y in t ==> exists x :: x in s && f(x) == y
  {
    t := {};
    if s != {} {
      var x :| x in s;
      var rest := ImageSize(s - {x}, f);
      assert s == s - {x} + {x};
      t := rest + {f(x)};
    }
  }

  lemma SizeMapped<A(!new), B(!new)>(n: nat, a: A -> bool, f: A -> B, b: B -> bool)
    requires IsSizeOf(n, a)
    requires forall x, y :: a(x) && a(y) && f(x) == f(y) ==> x == y
    requires forall x :: a(x) ==> b(f(x))
    requires forall y :: b(y) ==> exists x :: a(x) && f(x) == y
    ensures IsSizeOf(n, b)
  {
    var s: set<A> :| |s| == n && AreThose(s, a);
    var t := ImageSize(s, f);
    forall y ensures y in t <==> b(y) {
      if b(y) { var x :| a(x) && f(x) == y; }
    }
    assert AreThose(t, b);
  }

  lemma SizeOfProduct<A(!new), B(!new)>(n: nat, a: A -> bool, m: nat, b: B -> bool)
    requires IsSizeOf(n, a) && IsSizeOf(m, b)
    ensures IsSizeOf(n * m, (p: (A, B)) => a(p.0) && b(p.1))
  {
    var s: set<A> :| |s| == n && AreThose(s, a);
    var t: set<B> :| |t| == m && AreThose(t, b);
    ProductSize(s, t);
    var pairs := Product(s, t);
    forall p ensures p in pairs <==> a(p.0) && b(p.1) { assert p == (p.0, p.1); }
    SizeOfSet(pairs, (p: (A, B)) => a(p.0) && b(p.1));
  }

  lemma Recount<T(!new)>(n: nat, a: T -> bool, b: T -> bool)
    requires IsSizeOf(n, a) && forall x :: a(x) <==> b(x)
    ensures IsSizeOf(n, b)
  {
    var s: set<T> :| |s| == n && AreThose(s, a);
    assert AreThose(s, b);
  }
}
