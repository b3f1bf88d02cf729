/** The texts that everything else is made of, spelled out: letters, blanks, numbers, the order of
    strings, and how keys, values, clauses, ports and addresses are written. */
module TextReading {
  import opened Text
  import opened Network
  import opened Selector
  import opened Policy
  import opened AddressReading

  const CAPITALS := "ABCDEFGHIJKLMNOPQRSTUVWXYZ"
  const LETTERS := "abcdefghijklmnopqrstuvwxyz"
  const DIGITS := "0123456789"

  // ---- characters ----

  lemma CapitalAt(k: nat)
    requires k < 26
    ensures CAPITALS[k] as int == 'A' as int + k
  {
  }

  lemma LetterAt(k: nat)
    requires k < 26
    ensures LETTERS[k] as int == 'a' as int + k
  {
  }

  /** A capital becomes the letter at its place in the alphabet; any other character stays. */
  lemma LowerAsRead(s: string, i: nat)
    requires i < |s|
    ensures |Lower(s)| == |s|
    ensures forall k :: 0 <= k < 26 && s[i] == CAPITALS[k] ==> Lower(s)[i] == LETTERS[k]
    ensures s[i] !in CAPITALS ==> Lower(s)[i] == s[i]
  {
    IsCapital(s[i]);
    forall k | 0 <= k < 26 && s[i] == CAPITALS[k] ensures Lower(s)[i] == LETTERS[k] {
      CapitalAt(k);
      LetterAt(k);
    }
    hide Lower;
  }

  lemma IsCapital(c: char)
    ensures c in CAPITALS <==> 'A' <= c <= 'Z'
  {
    forall k | 0 <= k < 26 ensures CAPITALS[k] as int == 'A' as int + k { CapitalAt(k); }
    if 'A' <= c <= 'Z' { assert CAPITALS[c as int - 'A' as int] == c; }
  }

  lemma IsLetter(c: char)
    ensures c in LETTERS <==> 'a' <= c <= 'z'
  {
    forall k | 0 <= k < 26 ensures LETTERS[k] as int == 'a' as int + k { LetterAt(k); }
    if 'a' <= c <= 'z' { assert LETTERS[c as int - 'a' as int] == c; }
  }

  lemma IsNumber(c: char)
    ensures c in DIGITS <==> IsDigit(c)
  {
    forall k | 0 <= k < 10 ensures DIGITS[k] as int == '0' as int + k {}
    if IsDigit(c) { assert DIGITS[c as int - '0' as int] == c; }
  }

  /** White space: blank, tab, newline, return, form feed; Trim knows vertical tab too. */
  lemma SpaceAsRead(c: char)
    ensures IsRegexSpace(c) <==> c == ' ' || c as int in {9, 10, 12, 13}
    ensures IsSpace(c) <==> c == ' ' || 9 <= c as int <= 13
  {
  }

  lemma {:induction false} TrimLeftTakes(s: string) returns (before: string)
    ensures s == before + TrimLeft(s) && forall c :: c in before ==> IsSpace(c)
  {
    hide IsSpace, TrimLeft;
    TrimLeftStep(s);
    before := [];
    if s != [] && IsSpace(s[0]) {
      before := TrimLeftTakes(s[1..]);
      assert s == [s[0]] + s[1..];
      before := [s[0]] + before;
    }
  }

  lemma {:induction false} TrimRightTakes(s: string) returns (after: string)
    ensures s == TrimRight(s) + after && forall c :: c in after ==> IsSpace(c)
  {
    hide IsSpace;
    after := [];
    if s != [] && IsSpace(s[|s| - 1]) {
      after := TrimRightTakes(s[..|s| - 1]);
      assert s == s[..|s| - 1] + [s[|s| - 1]];
      after := after + [s[|s| - 1]];
    }
  }

  /** Trim takes off white space on both sides, and all of it. */
  lemma TrimAsRead(s: string)
    ensures exists before, after :: s == before + Trim(s) + after && forall c :: c in before + after ==> IsSpace(c)
    ensures Trim(s) != "" ==> !IsSpace(Trim(s)[0]) && !IsSpace(Trim(s)[|Trim(s)| - 1])
  {
    hide IsSpace, TrimLeft, TrimRight;
    var before := TrimLeftTakes(s);
    var after := TrimRightTakes(TrimLeft(s));
    assert s == before + Trim(s) + after;
  }

  // ---- the order of strings ----

  /** A proper prefix comes first, else the first difference decides. */
  lemma {:induction false} StrLessAsRead(a: string, b: string)
    ensures StrLess(a, b) <==>
      (|a| < |b| && a == b[..|a|]) || exists i :: 0 <= i < |a| && i < |b| && a[..i] == b[..i] && a[i] < b[i]
  {
    if a != [] && b != [] && a[0] == b[0] {
      StrLessAsRead(a[1..], b[1..]);
      SameTails(a, b);
    } else if a != [] && b != [] && a[0] < b[0] {
      assert a[..0] == b[..0] && a[0] < b[0];
    }
  }

  lemma SameTails(a: string, b: string)
    requires a != [] && b != [] && a[0] == b[0]
    ensures |a[1..]| < |b[1..]| && a[1..] == b[1..][..|a[1..]|] <==> |a| < |b| && a == b[..|a|]
    ensures (exists i :: 0 <= i < |a[1..]| && i < |b[1..]| && a[1..][..i] == b[1..][..i] && a[1..][i] < b[1..][i]) <==>
      exists i :: 0 <= i < |a| && i < |b| && a[..i] == b[..i] && a[i] < b[i]
  {
    assert a == [a[0]] + a[1..] && b == [b[0]] + b[1..];
    forall i | 0 <= i < |a[1..]| && i < |b[1..]|
      ensures a[1..][..i] == b[1..][..i] <==> a[..i + 1] == b[..i + 1]
      ensures a[1..][i] == a[i + 1] && b[1..][i] == b[i + 1]
    {
      assert a[..i + 1] == [a[0]] + a[1..][..i] && b[..i + 1] == [b[0]] + b[1..][..i];
    }
    if i :| 0 <= i < |a| && i < |b| && a[..i] == b[..i] && a[i] < b[i] {
      assert i > 0 && a[1..][i - 1] < b[1..][i - 1] && a[1..][..i - 1] == b[1..][..i - 1];
    }
    if i :| 0 <= i < |a[1..]| && i < |b[1..]| && a[1..][..i] == b[1..][..i] && a[1..][i] < b[1..][i] {
      assert a[i + 1] < b[i + 1] && a[..i + 1] == b[..i + 1];
    }
  }

  // ---- numbers ----

  function Power10(n: nat): nat {
    if n == 0 then 1 else 10 * Power10(n - 1)
  }

  /** The places of a number, from the left. */
  function Places(s: string): nat
    requires forall c :: c in s ==> c in DIGITS
  {
    hide IndexOf;
    if s == [] then 0
    else
      assert s[0] in s && s == [s[0]] + s[1..];
      IndexOf(DIGITS, s[0]) * Power10(|s| - 1) + Places(s[1..])
  }

  lemma DigitAt(i: nat)
    requires i < 10
    ensures DIGITS[i] as int == '0' as int + i
  {
  }

  lemma DigitIs(c: char)
    requires c in DIGITS
    ensures IsDigit(c) && IndexOf(DIGITS, c) == c as int - '0' as int
  {
    hide IndexOf;
    IsNumber(c);
    DigitAt(IndexOf(DIGITS, c));
  }

  lemma {:induction false} PlacesMore(s: string, d: char)
    requires d in DIGITS && forall c :: c in s ==> c in DIGITS
    ensures (forall c :: c in s + [d] ==> c in DIGITS) && Places(s + [d]) == 10 * Places(s) + IndexOf(DIGITS, d)
  {
    hide IndexOf;
    if s == [] {
      assert [d][1..] == [] && ([] + [d]) == [d];
      assert Power10(0) == 1;
    } else {
      PlacesMore(s[1..], d);
      assert s == [s[0]] + s[1..];
      assert (s + [d])[1..] == s[1..] + [d];
      var digit := IndexOf(DIGITS, s[0]);
      assert Power10(|s|) == 10 * Power10(|s| - 1);
      TenTimesMore(digit, Power10(|s| - 1));
    }
  }

  lemma TenTimesMore(a: nat, b: nat)
    ensures a * (10 * b) == 10 * (a * b)
  {
  }

  /** A run of digits is read by its places. */
  lemma {:induction false} NumberAsRead(s: string)
    requires forall c :: c in s ==> c in DIGITS
    ensures (forall c :: c in s ==> IsDigit(c)) && NatOf(s) == Places(s)
  {
    forall c | c in s ensures IsDigit(c) { DigitIs(c); }
    if s != [] {
      var n := |s| - 1;
      assert s == s[..n] + [s[n]];
      NumberAsRead(s[..n]);
      PlacesMore(s[..n], s[n]);
      DigitIs(s[n]);
    }
  }

  /** A number is written in digits, without leading zeros. */
  lemma {:induction false} NumberAsWritten(n: nat)
    ensures (forall c :: c in Itoa(n) ==> c in DIGITS) && Places(Itoa(n)) == n
    ensures Itoa(n) != [] && (n > 0 ==> Itoa(n)[0] != '0') && (n == 0 ==> |Itoa(n)| == 1)
  {
    forall c | c in Itoa(n) ensures c in DIGITS { IsNumber(c); }
    NumberAsRead(Itoa(n));
    if n > 0 { FirstDigit(n); }
  }

  // ---- keys, values and what is written of them ----

  /** One to 127 letters, digits, dots, underscores, slashes and dashes, first a letter or digit. */
  lemma KeyAsRead(s: string)
    ensures IsLabelKey(s) <==>
      && 1 <= |s| <= 127 && s[0] in CAPITALS + LETTERS + DIGITS
      && forall i :: 0 <= i < |s| ==> s[i] in CAPITALS + LETTERS + DIGITS + "._/-"
  {
    forall c ensures c in CAPITALS + LETTERS + DIGITS <==> IsAlnum(c) { AlnumIs(c); }
    forall c ensures c in CAPITALS + LETTERS + DIGITS + "._/-" <==> IsKeyChar(c) { AlnumIs(c); }
    hide IsAlnum, IsKeyChar;
    assert forall i :: 0 <= i < |s| ==> s[i] in s;
  }

  /** One to 256 of these and colons. */
  lemma ValueAsRead(s: string)
    ensures IsLabelValue(s) <==>
      && 1 <= |s| <= 256 && s[0] in CAPITALS + LETTERS + DIGITS
      && forall i :: 0 <= i < |s| ==> s[i] in CAPITALS + LETTERS + DIGITS + "._/-:"
  {
    forall c ensures c in CAPITALS + LETTERS + DIGITS <==> IsAlnum(c) { AlnumIs(c); }
    forall c ensures c in CAPITALS + LETTERS + DIGITS + "._/-:" <==> IsValueChar(c) { AlnumIs(c); }
    hide IsAlnum, IsValueChar;
    assert forall i :: 0 <= i < |s| ==> s[i] in s;
  }

  lemma AlnumIs(c: char)
    ensures c in CAPITALS + LETTERS + DIGITS <==> IsAlnum(c)
  {
    IsCapital(c);
    IsLetter(c);
    IsNumber(c);
  }

  /** Joining puts the separator between any two parts. */
  lemma {:induction false} JoinAsRead(parts: seq<string>, last: string, sep: char)
    ensures Join([last], sep) == last
    ensures parts != [] ==> Join(parts + [last], sep) == Join(parts, sep) + ([sep] + last)
  {
    if |parts| == 1 {
      assert (parts + [last])[1..] == [last];
    } else if |parts| > 1 {
      JoinAsRead(parts[1..], last, sep);
      assert (parts + [last])[1..] == parts[1..] + [last];
      var rest := Join(parts[1..], sep);
      assert parts[0] + [sep] + (rest + ([sep] + last)) == parts[0] + [sep] + rest + ([sep] + last);
    }
  }

  /** Canonical clauses: `key`, `key=value`, `key!=value`, `key in (a,b)`, `key notin (a,b)`. */
  lemma ClauseAsPrinted(c: Clause)
    requires ValidClause(c)
    ensures c.op == "exists" ==> ClauseText(c) == c.key
    ensures c.op == "=" ==> ClauseText(c) == c.key + "=" + c.values[0]
    ensures c.op == "!=" ==> ClauseText(c) == c.key + "!=" + c.values[0]
    ensures c.op == "in" ==> ClauseText(c) == c.key + " in (" + Join(c.values, ',') + ")"
    ensures c.op == "notin" ==> ClauseText(c) == c.key + " notin (" + Join(c.values, ',') + ")"
    ensures c.op == "exists" || c.op == "=" || c.op == "!=" || c.op == "in" || c.op == "notin"
  {
    hide Join, StrLess, IsLabelKey, IsLabelValue;
    assert " " + "in" + " (" == " in (" && " " + "notin" + " (" == " notin (";
    assert c.key + (" " + "in" + " (" + Join(c.values, ',') + ")") == c.key + " in (" + Join(c.values, ',') + ")";
    assert c.key + (" " + "notin" + " (" + Join(c.values, ',') + ")") == c.key + " notin (" + Join(c.values, ',') + ")";
  }

  /** `n`, or `n/p`. */
  lemma PortAsPrinted(n: nat, p: string)
    ensures PortText(n, None) == Itoa(n) && PortText(n, Some(p)) == Itoa(n) + "/" + p
  {
    hide Itoa;
    assert Itoa(n) + ("/" + p) == Itoa(n) + "/" + p;
  }

  /** Addresses are printed in dotted decimal, and ordered by their words. */
  lemma AddressAsPrinted(w: Word)
    ensures IsDottedDecimal(AddrText(w), w)
  {
    hide Itoa, Dotted;
    var high := w / 0x100;
    var higher := high / 0x100;
    assert IsDotted(AddrText(w), w, higher / 0x100, higher % 0x100, high % 0x100, w % 0x100);
  }

  lemma AddressesByWord(a: Addr, b: Addr)
    requires a.IPv4? && b.IPv4?
    ensures AddrLess(a, b) <==> a.word < b.word
  {
  }
}
