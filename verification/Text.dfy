/** The Go string library as far as the policy code needs it, on ASCII text. */
module Text {
  import opened Ordering

  datatype Option<+T> = None | Some(value: T)

  // ---- order ----

  /** Go's `<` on strings. */
  predicate StrLess(a: string, b: string) {
    b != [] && (a == [] || a[0] < b[0] || (a[0] == b[0] && StrLess(a[1..], b[1..])))
  }

  lemma {:induction false} StrLessIrreflexive(a: string)
    ensures !StrLess(a, a)
  {
    if a != [] { StrLessIrreflexive(a[1..]); }
  }

  lemma {:induction false} StrLessTransitive(a: string, b: string, c: string)
    requires StrLess(a, b) && StrLess(b, c)
    ensures StrLess(a, c)
  {
    if a != [] && a[0] == b[0] && b[0] == c[0] { StrLessTransitive(a[1..], b[1..], c[1..]); }
  }

  lemma {:induction false} StrLessConnected(a: string, b: string)
    ensures a == b || StrLess(a, b) || StrLess(b, a)
  {
    if a != [] && b != [] && a[0] == b[0] {
      StrLessConnected(a[1..], b[1..]);
      assert a == [a[0]] + a[1..] && b == [b[0]] + b[1..];
    }
  }

  lemma StringsAreOrdered()
    ensures StrictTotal(StrLess)
  {
    forall a ensures !StrLess(a, a) { StrLessIrreflexive(a); }
    forall a, b, c | StrLess(a, b) && StrLess(b, c) ensures StrLess(a, c) { StrLessTransitive(a, b, c); }
    forall a, b | a != b ensures StrLess(a, b) || StrLess(b, a) { StrLessConnected(a, b); }
  }

  /** The ascending listing of a set of strings. */
  ghost function StrList(s: set<string>): (r: seq<string>)
    ensures Ascending(StrLess, r) && Elems(r) == s
  {
    StringsAreOrdered();
    Listing(StrLess, s)
  }

  lemma StrListIs(a: seq<string>)
    requires Ascending(StrLess, a)
    ensures a == StrList(Elems(a))
  {
    StringsAreOrdered();
    ListingIs(StrLess, a, Elems(a));
  }

  /** `sort.Strings` on distinct strings. */
  lemma SortStrings(s: seq<string>)
    requires Distinct(s)
    ensures Sort(StrLess, s) == StrList(Elems(s))
  {
    StringsAreOrdered();
    SortLists(StrLess, s);
  }

  /** The keys of a Go map, collected in arbitrary order and then sorted. */
  method SortedKeys(keys: set<string>) returns (r: seq<string>)
    ensures r == StrList(keys)
  {
    var drained := Drain(keys);
    r := Sort(StrLess, drained);
    SortStrings(drained);
  }

  // ---- case and space ----

  function LowerChar(c: char): char {
    if 'A' <= c <= 'Z' then (c as int + 32) as char else c
  }

  function Lower(s: string): (r: string)
    ensures |r| == |s|
    ensures forall i :: 0 <= i < |s| ==> r[i] == LowerChar(s[i])
  {
    seq(|s|, i requires 0 <= i < |s| => LowerChar(s[i]))
  }

  predicate IsLower(s: string) {
    forall i :: 0 <= i < |s| ==> !('A' <= s[i] <= 'Z')
  }

  lemma LowerIsIdempotent(s: string)
    ensures IsLower(Lower(s)) && Lower(Lower(s)) == Lower(s)
  {
  }

  lemma LowerOfLower(s: string)
    requires IsLower(s)
    ensures Lower(s) == s
  {
  }

  /** White space as `strings.TrimSpace` knows it. */
  predicate IsSpace(c: char) {
    c == ' ' || c == '\t' || c == '\n' || c == '\r' || c as int == 11 || c as int == 12
  }

  /** White space as `\s` in Go's regexp knows it: vertical tab is not one. */
  predicate IsRegexSpace(c: char) {
    IsSpace(c) && c as int != 11
  }

  function TrimLeft(s: string): (r: string)
    ensures |r| <= |s| && r == s[|s| - |r|..]
    ensures r != [] ==> !IsSpace(r[0])
  {
    if s != [] && IsSpace(s[0]) then TrimLeft(s[1..]) else s
  }

  lemma TrimLeftStep(s: string)
    ensures TrimLeft(s) == if s != [] && IsSpace(s[0]) then TrimLeft(s[1..]) else s
  {
    hide IsSpace;
  }

  function TrimRight(s: string): (r: string)
    ensures |r| <= |s| && r == s[..|r|]
    ensures r != [] ==> !IsSpace(r[|r| - 1])
  {
    if s != [] && IsSpace(s[|s| - 1]) then TrimRight(s[..|s| - 1]) else s
  }

  /** `strings.TrimSpace` */
  function Trim(s: string): (r: string)
    ensures |r| <= |s|
    ensures r != [] ==> !IsSpace(r[0]) && !IsSpace(r[|r| - 1])
    ensures s != [] && !IsSpace(s[0]) && !IsSpace(s[|s| - 1]) ==> r == s
    ensures forall c :: c in r ==> c in s
  {
    TrimRight(TrimLeft(s))
  }

  // ---- separators ----

  function IndexOf(s: string, c: char): (i: nat)
    requires c in s
    ensures i < |s| && s[i] == c && c !in s[..i]
  {
    if s[0] == c then 0
    else
      assert s == [s[0]] + s[1..];
      var i := IndexOf(s[1..], c);
      assert s[..i + 1] == [s[0]] + s[1..][..i];
      i + 1
  }

  /** `strings.Split` on a one-byte separator */
  function Split(s: string, sep: char): (r: seq<string>)
    ensures |r| >= 1 && |r| <= |s| + 1
    ensures forall p :: p in r ==> sep !in p
  {
    if sep !in s then [s]
    else
      var i := IndexOf(s, sep);
      [s[..i]] + Split(s[i + 1..], sep)
  }

  /** `strings.Join` on a one-byte separator */
  function Join(parts: seq<string>, sep: char): string {
    if parts == [] then []
    else if |parts| == 1 then parts[0]
    else parts[0] + [sep] + Join(parts[1..], sep)
  }

  function TotalLength(parts: seq<string>): nat {
    if parts == [] then 0 else |parts[0]| + TotalLength(parts[1..])
  }

  /** Text up to a separator determines itself: the fact every printed key rests on. */
  lemma FirstSeparator(x: string, y: string, x2: string, y2: string, sep: char)
    requires x + [sep] + y == x2 + [sep] + y2
    requires sep !in x && sep !in x2
    ensures x == x2 && y == y2
  {
    var s := x + [sep] + y;
    assert s[|x|] == sep && s[|x2|] == sep;
    assert forall i :: 0 <= i < |x| ==> s[i] == x[i] && x[i] != sep;
    assert forall i :: 0 <= i < |x2| ==> s[i] == x2[i] && x2[i] != sep;
    assert |x| == |x2|;
    assert x == s[..|x|] && x2 == s[..|x2|];
    assert y == s[|x| + 1..] && y2 == s[|x2| + 1..];
  }

  lemma AtSeparator(s: string, sep: char) returns (x: string, rest: string)
    requires sep in s
    ensures s == x + [sep] + rest && sep !in x && |rest| < |s|
  {
    var i := IndexOf(s, sep);
    x, rest := s[..i], s[i + 1..];
  }

  lemma SplitNone(s: string, sep: char)
    requires sep !in s
    ensures Split(s, sep) == [s]
  {
  }

  /** Splitting takes off the text up to the first separator. */
  lemma SplitFirst(x: string, rest: string, sep: char)
    requires sep !in x
    ensures Split(x + [sep] + rest, sep) == [x] + Split(rest, sep)
  {
    var s := x + [sep] + rest;
    assert s[|x|] == sep;
    var i := IndexOf(s, sep);
    assert s == s[..i] + [sep] + s[i + 1..];
    FirstSeparator(s[..i], s[i + 1..], x, rest, sep);
  }

  lemma {:induction false} SplitUndoesJoin(parts: seq<string>, sep: char)
    requires parts != [] && forall p :: p in parts ==> sep !in p
    ensures Split(Join(parts, sep), sep) == parts
  {
    if |parts| > 1 {
      assert parts == [parts[0]] + parts[1..];
      SplitUndoesJoin(parts[1..], sep);
      SplitFirst(parts[0], Join(parts[1..], sep), sep);
    }
  }

  lemma {:induction false} JoinUndoesSplit(s: string, sep: char)
    ensures Join(Split(s, sep), sep) == s
  {
    if sep in s {
      var i := IndexOf(s, sep);
      JoinUndoesSplit(s[i + 1..], sep);
      assert s == s[..i] + [sep] + s[i + 1..];
      assert Split(s, sep)[1..] == Split(s[i + 1..], sep);
    }
  }

  lemma {:induction false} SplitLength(s: string, sep: char)
    ensures TotalLength(Split(s, sep)) + |Split(s, sep)| == |s| + 1
  {
    if sep in s {
      var i := IndexOf(s, sep);
      SplitLength(s[i + 1..], sep);
      assert Split(s, sep)[1..] == Split(s[i + 1..], sep);
    } else {
      assert Split(s, sep)[1..] == [];
    }
  }

  lemma {:induction false} JoinLength(parts: seq<string>, sep: char)
    requires parts != []
    ensures |Join(parts, sep)| + 1 == TotalLength(parts) + |parts|
  {
    if |parts| > 1 { JoinLength(parts[1..], sep); } else { assert parts[1..] == []; }
  }

  lemma {:induction false} TotalLengthSnoc(parts: seq<string>, p: string)
    ensures TotalLength(parts + [p]) == TotalLength(parts) + |p|
  {
    if parts == [] {
      assert ([p])[1..] == [];
    } else {
      TotalLengthSnoc(parts[1..], p);
      assert (parts + [p])[1..] == parts[1..] + [p];
    }
  }

  /** Total length is a property of the multiset of parts, so sorting keeps it. */
  lemma {:induction false} TotalLengthPermuted(a: seq<string>, b: seq<string>)
    requires multiset(a) == multiset(b)
    ensures TotalLength(a) == TotalLength(b)
  {
    assert |a| == |multiset(a)| == |multiset(b)| == |b|;
    if a != [] {
      var i := Without(a, b);
      WithoutOne(b, i);
      TotalLengthPermuted(a[1..], b[..i] + b[i + 1..]);
    }
  }

  lemma WithoutOne(b: seq<string>, i: nat)
    requires i < |b|
    ensures TotalLength(b) == |b[i]| + TotalLength(b[..i] + b[i + 1..])
  {
    assert b == b[..i] + ([b[i]] + b[i + 1..]);
    TotalLengthConcat(b[..i], [b[i]] + b[i + 1..]);
    TotalLengthConcat(b[..i], b[i + 1..]);
    assert ([b[i]] + b[i + 1..])[1..] == b[i + 1..];
  }

  lemma {:induction false} TotalLengthConcat(a: seq<string>, b: seq<string>)
    ensures TotalLength(a + b) == TotalLength(a) + TotalLength(b)
  {
    if a == [] {
      assert a + b == b;
    } else {
      TotalLengthConcat(a[1..], b);
      assert (a + b)[1..] == a[1..] + b;
    }
  }

  // ---- decimal numbers ----

  predicate IsDigit(c: char) {
    '0' <= c <= '9'
  }

  predicate IsDigits(s: string) {
    s != [] && forall c :: c in s ==> IsDigit(c)
  }

  /** The number a run of decimal digits denotes. */
  function NatOf(s: string): nat
    requires forall c :: c in s ==> IsDigit(c)
  {
    if s == [] then 0
    else
      assert s[|s| - 1] in s && IsDigit(s[|s| - 1]);
      10 * NatOf(s[..|s| - 1]) + (s[|s| - 1] as int - '0' as int)
  }

  /** `strconv.Itoa` on a non-negative number */
  function Itoa(n: nat): (r: string)
    ensures IsDigits(r)
    ensures NatOf(r) == n
  {
    var d := ('0' as int + n % 10) as char;
    if n < 10 then [d]
    else
      var front := Itoa(n / 10);
      assert (front + [d])[..|front|] == front;
      front + [d]
  }

  lemma ItoaIsInjective(a: nat, b: nat)
    requires Itoa(a) == Itoa(b)
    ensures a == b
  {
  }

  lemma {:induction false} FirstDigit(n: nat)
    requires n > 0
    ensures Itoa(n)[0] != '0'
  {
    if n >= 10 { FirstDigit(n / 10); }
  }
}
