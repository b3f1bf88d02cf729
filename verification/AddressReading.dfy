/** IPv4 addresses as text: what the reader of addresses accepts. */
module AddressReading {
  import opened Text
  import opened Network
  import opened Metadata

  /** `text` is the address `word` in dotted decimal, without leading zeros. */
  predicate IsDotted(text: string, word: nat, a: nat, b: nat, c: nat, d: nat) {
    && a <= 255 && b <= 255 && c <= 255 && d <= 255
    && text == Dotted(Itoa(a), Itoa(b), Itoa(c), Itoa(d))
    && word == a * 0x1000000 + b * 0x10000 + c * 0x100 + d
  }

  ghost predicate IsDottedDecimal(text: string, word: nat) {
    exists a: nat, b: nat, c: nat, d: nat :: IsDotted(text, word, a, b, c, d)
  }

  lemma FrontDigits(s: string)
    requires IsDigits(s)
    ensures (forall c :: c in s[..|s| - 1] ==> IsDigit(c)) && IsDigit(s[|s| - 1]) && s == s[..|s| - 1] + [s[|s| - 1]]
  {
    hide IsDigit;
    assert s[|s| - 1] in s;
    assert forall c :: c in s[..|s| - 1] ==> c in s;
  }

  lemma TenTimes(front: nat, digit: nat)
    requires digit < 10
    ensures (10 * front + digit) / 10 == front && (10 * front + digit) % 10 == digit
  {
  }

  lemma NatStep(s: string)
    requires s != [] && (forall c :: c in s ==> IsDigit(c)) && forall c :: c in s[..|s| - 1] ==> IsDigit(c)
    requires IsDigit(s[|s| - 1])
    ensures NatOf(s) == 10 * NatOf(s[..|s| - 1]) + (s[|s| - 1] as int - '0' as int)
  {
    hide IsDigit;
  }

  lemma LastDigit(s: string)
    requires IsDigits(s)
    ensures var n := |s| - 1;
      && (forall c :: c in s[..n] ==> IsDigit(c)) && IsDigit(s[n]) && s == s[..n] + [s[n]]
      && NatOf(s) / 10 == NatOf(s[..n]) && NatOf(s) % 10 == s[n] as int - '0' as int
  {
    FrontDigits(s);
    hide NatOf;
    NatStep(s);
    TenTimes(NatOf(s[..|s| - 1]), s[|s| - 1] as int - '0' as int);
  }

  lemma ItoaStep(n: nat, c: char)
    requires IsDigit(c) && n % 10 == c as int - '0' as int
    ensures Itoa(n) == if n < 10 then [c] else Itoa(n / 10) + [c]
  {
    assert ('0' as int + n % 10) as char == c;
  }

  lemma {:induction false} DigitsAreItoa(s: string)
    requires IsDigits(s) && (|s| > 1 ==> s[0] != '0')
    ensures Itoa(NatOf(s)) == s && (s[0] != '0' ==> NatOf(s) > 0)
  {
    hide NatOf, Itoa;
    LastDigit(s);
    var n := |s| - 1;
    ItoaStep(NatOf(s), s[n]);
    if n > 0 {
      DigitsAreItoa(s[..n]);
    } else {
      NoDigits();
      assert s[..0] == [];
    }
  }

  lemma NoDigits()
    ensures NatOf([]) == 0
  {
  }

  lemma {:induction false} ItoaShape(n: nat)
    ensures Itoa(n) != [] && (n > 0 ==> Itoa(n)[0] != '0') && (n < 1000 ==> |Itoa(n)| <= 3) && (n < 10 ==>
      |Itoa(n)| == 1)
    ensures n < 100 ==> |Itoa(n)| <= 2
  {
    if n >= 10 { ItoaShape(n / 10); }
  }

  lemma OctetIs(s: string, n: nat)
    ensures Octet(s) == Some(n) <==> n <= 255 && s == Itoa(n)
  {
    if Octet(s) == Some(n) { DigitsAreItoa(s); }
    if n <= 255 && s == Itoa(n) { ItoaShape(n); }
    hide Itoa, NatOf;
  }

  lemma DottedSplits(a: string, b: string, c: string, d: string)
    requires '.' !in a && '.' !in b && '.' !in c && '.' !in d
    ensures Split(Dotted(a, b, c, d), '.') == [a, b, c, d]
  {
    hide Split;
    assert Dotted(a, b, c, d) == a + ['.'] + (b + "." + (c + "." + d));
    SplitFirst(a, b + "." + (c + "." + d), '.');
    assert b + "." + (c + "." + d) == b + ['.'] + (c + "." + d);
    SplitFirst(b, c + "." + d, '.');
    assert c + "." + d == c + ['.'] + d;
    SplitFirst(c, d, '.');
    SplitNone(d, '.');
  }

  lemma SplitIsDotted(s: string)
    requires |Split(s, '.')| == 4
    ensures var p := Split(s, '.'); s == Dotted(p[0], p[1], p[2], p[3])
  {
    var p := Split(s, '.');
    JoinUndoesSplit(s, '.');
    hide Split;
    assert p == [p[0], p[1], p[2], p[3]];
    var t := [p[1], p[2], p[3]];
    assert p[1..] == t && t[1..] == [p[2], p[3]] && t[1..][1..] == [p[3]];
    assert Join([p[2], p[3]], '.') == p[2] + ['.'] + p[3];
    assert Join(t, '.') == p[1] + ['.'] + (p[2] + ['.'] + p[3]);
  }

  lemma ItoaHasNoDot(n: nat)
    ensures '.' !in Itoa(n)
  {
  }

  /** Reading an IPv4 address undoes printing it, and reads nothing else. */
  lemma AddressIsRead(text: string, word: Word)
    ensures ParseIPv4(text) == Some(IPv4(word)) <==> IsDottedDecimal(text, word)
  {
    hide ParseIPv4, Dotted, Itoa, Split, Octet;
    if ParseIPv4(text) == Some(IPv4(word)) { ReadIsDotted(text, word); }
    if IsDottedDecimal(text, word) {
      var a: nat, b: nat, c: nat, d: nat :| IsDotted(text, word, a, b, c, d);
      DottedIsRead(a, b, c, d);
    }
  }

  lemma ReadIsDotted(text: string, word: Word)
    requires ParseIPv4(text) == Some(IPv4(word))
    ensures IsDottedDecimal(text, word)
  {
    hide Split, Itoa, Octet, Dotted;
    var p := Split(text, '.');
    SplitIsDotted(text);
    var a, b, c, d := Octet(p[0]).value, Octet(p[1]).value, Octet(p[2]).value, Octet(p[3]).value;
    assert word == WordOf(a, b, c, d);
    hide ParseIPv4;
    OctetIs(p[0], a);
    OctetIs(p[1], b);
    OctetIs(p[2], c);
    OctetIs(p[3], d);
    assert IsDotted(text, word, a, b, c, d);
  }

  function WordOf(a: nat, b: nat, c: nat, d: nat): nat {
    a * 0x1000000 + b * 0x10000 + c * 0x100 + d
  }

  lemma FourOctets(text: string, a: nat, b: nat, c: nat, d: nat)
    requires |Split(text, '.')| == 4 && a <= 255 && b <= 255 && c <= 255 && d <= 255
    requires Octet(Split(text, '.')[0]) == Some(a) && Octet(Split(text, '.')[1]) == Some(b)
    requires Octet(Split(text, '.')[2]) == Some(c) && Octet(Split(text, '.')[3]) == Some(d)
    ensures ParseIPv4(text) == Some(IPv4(WordOf(a, b, c, d)))
  {
    hide Split, Octet;
  }

  lemma DottedIsRead(a: nat, b: nat, c: nat, d: nat)
    requires a <= 255 && b <= 255 && c <= 255 && d <= 255
    ensures ParseIPv4(Dotted(Itoa(a), Itoa(b), Itoa(c), Itoa(d))) == Some(IPv4(WordOf(a, b, c, d)))
  {
    hide Split, Itoa, Octet, Dotted, ParseIPv4;
    ItoaHasNoDot(a);
    ItoaHasNoDot(b);
    ItoaHasNoDot(c);
    ItoaHasNoDot(d);
    DottedSplits(Itoa(a), Itoa(b), Itoa(c), Itoa(d));
    OctetIs(Itoa(a), a);
    OctetIs(Itoa(b), b);
    OctetIs(Itoa(c), c);
    OctetIs(Itoa(d), d);
    FourOctets(Dotted(Itoa(a), Itoa(b), Itoa(c), Itoa(d)), a, b, c, d);
  }
}
