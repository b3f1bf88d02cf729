/** Addresses and prefixes as `net/netip` has them, without IPv6 zones. */
module Network {
  import opened Ordering
  import opened Text

  type Word = n: nat | n < 0x1_0000_0000

  datatype Addr = NoAddr | IPv4(word: Word) | IPv6(bits: nat)

  datatype Prefix = Prefix(addr: Addr, bits: int)

  /** `Addr.Less`: by family, then by value. */
  predicate AddrLess(a: Addr, b: Addr) {
    match (a, b)
    case (NoAddr, NoAddr) => false
    case (NoAddr, _) => true
    case (IPv4(x), IPv4(y)) => x < y
    case (IPv4(_), IPv6(_)) => true
    case (IPv6(x), IPv6(y)) => x < y
    case (_, _) => false
  }

  lemma AddressesAreOrdered()
    ensures StrictTotal(AddrLess)
  {
  }

  /** The ascending listing of a set of addresses. */
  ghost function AddrList(s: set<Addr>): (r: seq<Addr>)
    ensures Ascending(AddrLess, r) && Elems(r) == s
    ensures r == [] <==> s == {}
  {
    AddressesAreOrdered();
    var r := Listing(AddrLess, s);
    assert r != [] ==> r[0] in Elems(r);
    r
  }

  lemma AddrListIs(a: seq<Addr>)
    requires Ascending(AddrLess, a)
    ensures a == AddrList(Elems(a))
  {
    AddressesAreOrdered();
    ListingIs(AddrLess, a, Elems(a));
  }

  /** `w >> n` */
  function ShiftRight(w: nat, n: nat): (r: nat)
    decreases n
  {
    if n == 0 then w else ShiftRight(w / 2, n - 1)
  }

  /** `q << n` */
  function ShiftLeft(q: nat, n: nat): nat {
    if n == 0 then q else 2 * ShiftLeft(q, n - 1)
  }

  lemma {:induction false} ShiftBack(q: nat, n: nat)
    ensures ShiftRight(ShiftLeft(q, n), n) == q
  {
    if n > 0 { ShiftBack(q, n - 1); }
  }

  lemma {:induction false} ShiftClears(w: nat, n: nat)
    ensures ShiftLeft(ShiftRight(w, n), n) <= w
    decreases n
  {
    if n > 0 { ShiftClears(w / 2, n - 1); }
  }

  predicate ValidPrefix(p: Prefix) {
    match p.addr
    case NoAddr => false
    case IPv4(_) => 0 <= p.bits <= 32
    case IPv6(_) => 0 <= p.bits <= 128
  }

  predicate IsPrefix4(p: Prefix) {
    ValidPrefix(p) && p.addr.IPv4?
  }

  /** `Prefix.Contains` for an IPv4 prefix: the leading bits agree. */
  predicate Contains(p: Prefix, a: Addr)
    requires IsPrefix4(p)
  {
    a.IPv4? && ShiftRight(a.word, 32 - p.bits) == ShiftRight(p.addr.word, 32 - p.bits)
  }

  /** `Prefix.Masked` clears the host bits and so contains the same addresses. */
  function Masked(p: Prefix): (r: Prefix)
    requires IsPrefix4(p)
    ensures IsPrefix4(r) && r.bits == p.bits
    ensures forall a :: Contains(r, a) <==> Contains(p, a)
  {
    var host := 32 - p.bits;
    var q := ShiftRight(p.addr.word, host);
    ShiftClears(p.addr.word, host);
    ShiftBack(q, host);
    Prefix(IPv4(ShiftLeft(q, host)), p.bits)
  }

  // ---- the addresses of a prefix ----

  function Pow2(n: nat): (r: nat)
    ensures r > 0
  {
    if n == 0 then 1 else 2 * Pow2(n - 1)
  }

  /** `base` is the largest multiple of the prefix's size that is not above its address. */
  predicate IsBaseOf(base: nat, p: Prefix) {
    p.addr.IPv4? && 0 <= p.bits <= 32 &&
    base % Pow2(32 - p.bits) == 0 && base <= p.addr.word < base + Pow2(32 - p.bits)
  }

  /** `a` is one of the addresses that start at that base. */
  ghost predicate IsInside(a: Addr, p: Prefix) {
    a.IPv4? && exists base: nat :: IsBaseOf(base, p) && base <= a.word < base + Pow2(32 - p.bits)
  }

  lemma DivideTwice(w: nat, d: nat)
    requires d > 0
    ensures w / 2 / d == w / (2 * d)
  {
    var half := w / 2;
    var q := half / d;
    Divided(half, d);
    assert q * (2 * d) == 2 * (q * d);
    QuotientIs(w, 2 * d, q);
  }

  lemma Times(a: int, b: int, d: nat)
    requires a < b
    ensures a * d + d <= b * d
  {
    assert b * d == a * d + (b - a) * d;
    assert (b - a) * d == d + (b - a - 1) * d;
    assert (b - a - 1) * d >= 0;
  }

  lemma Divided(w: nat, d: nat)
    requires d > 0
    ensures w / d * d <= w < w / d * d + d
  {
    assert w == w / d * d + w % d;
  }

  lemma QuotientIs(w: nat, d: nat, q: nat)
    requires d > 0 && q * d <= w < q * d + d
    ensures w / d == q
  {
    Divided(w, d);
    var x := w / d;
    if x < q { Times(x, q, d); }
    if q < x { Times(q, x, d); }
  }

  lemma {:induction false} ShiftDivides(w: nat, n: nat)
    ensures ShiftRight(w, n) == w / Pow2(n)
    decreases n
  {
    if n > 0 {
      ShiftDivides(w / 2, n - 1);
      DivideTwice(w, Pow2(n - 1));
    }
  }

  lemma {:induction false} ShiftMultiplies(q: nat, n: nat)
    ensures ShiftLeft(q, n) == q * Pow2(n)
  {
    if n > 0 { ShiftMultiplies(q, n - 1); }
  }

  lemma BaseIs(p: Prefix, base: nat)
    requires IsPrefix4(p)
    ensures IsBaseOf(base, p) <==> base == p.addr.word / Pow2(32 - p.bits) * Pow2(32 - p.bits)
  {
    hide Pow2;
    BaseOfWord(p.addr.word, Pow2(32 - p.bits), base);
  }

  lemma BaseOfWord(w: nat, d: nat, base: nat)
    requires d > 0
    ensures base % d == 0 && base <= w < base + d <==> base == w / d * d
  {
    Divided(w, d);
    MultipleOf(w / d, d);
    if base % d == 0 && base <= w < base + d {
      assert base == base / d * d by { Divided(base, d); assert base == base / d * d + base % d; }
      QuotientIs(w, d, base / d);
    }
  }

  lemma MultipleOf(q: nat, d: nat)
    requires d > 0
    ensures q * d % d == 0
  {
    QuotientIs(q * d, d, q);
  }

  /** Containment is lying between the base and the base plus the size. */
  lemma ContainsIsInside(p: Prefix, a: Addr)
    requires IsPrefix4(p)
    ensures Contains(p, a) <==> IsInside(a, p)
  {
    if a.IPv4? {
      var base := BaseOf(p);
      ShiftDivides(a.word, 32 - p.bits);
      ShiftDivides(p.addr.word, 32 - p.bits);
      InsideBase(a, p, base);
      hide IsBaseOf, IsInside, ShiftRight;
      SameQuotient(a.word, p.addr.word, Pow2(32 - p.bits));
    }
  }

  lemma BaseOfNumber(w: nat, d: nat) returns (base: nat)
    requires d > 0
    ensures base == w / d * d && base % d == 0 && base <= w < base + d
  {
    Divided(w, d);
    MultipleOf(w / d, d);
    base := w / d * d;
  }

  lemma BaseOf(p: Prefix) returns (base: nat)
    requires IsPrefix4(p)
    ensures IsBaseOf(base, p) && base == p.addr.word / Pow2(32 - p.bits) * Pow2(32 - p.bits)
  {
    hide Pow2;
    base := BaseOfNumber(p.addr.word, Pow2(32 - p.bits));
  }

  lemma OneBase(p: Prefix, a: nat, b: nat)
    requires IsPrefix4(p) && IsBaseOf(a, p) && IsBaseOf(b, p)
    ensures a == b
  {
    BaseIs(p, a);
    BaseIs(p, b);
  }

  lemma InsideBase(a: Addr, p: Prefix, base: nat)
    requires IsPrefix4(p) && IsBaseOf(base, p) && a.IPv4?
    ensures IsInside(a, p) <==> base <= a.word < base + Pow2(32 - p.bits)
  {
    hide IsBaseOf;
    forall b: nat | IsBaseOf(b, p) ensures b == base { OneBase(p, b, base); }
  }

  lemma SameQuotient(a: nat, w: nat, d: nat)
    requires d > 0
    ensures a / d == w / d <==> w / d * d <= a < w / d * d + d
  {
    Divided(a, d);
    if w / d * d <= a < w / d * d + d { QuotientIs(a, d, w / d); }
  }

  /** Masking moves the address to the base and keeps the length. */
  lemma MaskedIsBase(p: Prefix)
    requires IsPrefix4(p)
    ensures Masked(p).bits == p.bits && Masked(p).addr.IPv4? && IsBaseOf(Masked(p).addr.word, p)
  {
    ShiftDivides(p.addr.word, 32 - p.bits);
    ShiftMultiplies(ShiftRight(p.addr.word, 32 - p.bits), 32 - p.bits);
    BaseIs(p, Masked(p).addr.word);
  }

  /** `Addr.String` for IPv4: dotted decimal. */
  function AddrText(w: Word): (r: string)
    ensures forall c :: c in r ==> IsDigit(c) || c == '.'
  {
    var high := w / 0x100;
    var higher := high / 0x100;
    Dotted(Itoa(higher / 0x100), Itoa(higher % 0x100), Itoa(high % 0x100), Itoa(w % 0x100))
  }

  function Dotted(s3: string, s2: string, s1: string, s0: string): string {
    s3 + "." + (s2 + "." + (s1 + "." + s0))
  }

  lemma DottedIsInjective(
    s3: string, s2: string, s1: string, s0: string, t3: string, t2: string, t1: string, t0: string)
    requires Dotted(s3, s2, s1, s0) == Dotted(t3, t2, t1, t0)
    requires '.' !in s3 && '.' !in s2 && '.' !in s1 && '.' !in t3 && '.' !in t2 && '.' !in t1
    ensures s3 == t3 && s2 == t2 && s1 == t1 && s0 == t0
  {
    FirstSeparator(s3, s2 + "." + (s1 + "." + s0), t3, t2 + "." + (t1 + "." + t0), '.');
    FirstSeparator(s2, s1 + "." + s0, t2, t1 + "." + t0, '.');
    FirstSeparator(s1, s0, t1, t0, '.');
  }

  lemma AddrTextIsInjective(a: Word, b: Word)
    requires AddrText(a) == AddrText(b)
    ensures a == b
  {
    var x, y := a / 0x100, b / 0x100;
    var x2, y2 := x / 0x100, y / 0x100;
    DottedIsInjective(Itoa(x2 / 0x100), Itoa(x2 % 0x100), Itoa(x % 0x100), Itoa(a % 0x100),
                      Itoa(y2 / 0x100), Itoa(y2 % 0x100), Itoa(y % 0x100), Itoa(b % 0x100));
    ItoaIsInjective(x2 / 0x100, y2 / 0x100);
    ItoaIsInjective(x2 % 0x100, y2 % 0x100);
    ItoaIsInjective(x % 0x100, y % 0x100);
    ItoaIsInjective(a % 0x100, b % 0x100);
  }

  datatype Packet = Packet(src: Addr, dst: Addr, protocol: string, port: nat, established: bool)
}
