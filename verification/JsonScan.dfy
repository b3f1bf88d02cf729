/** The duplicate-field scanner, over the token stream of the JSON decoder. */
module JsonScan {
  import opened Text

  datatype Token =
    | BraceOpen | BraceClose | BracketOpen | BracketClose
    | TextToken(text: string) | PlainToken(text: string)

  // ---- JSON values (RFC 8259) and their tokens ----

  /** Plain is a number, a boolean or null. */
  datatype Json = Text(text: string) | Plain(text: string) | Array(items: Items) | Object(members: Members)
  datatype Items = NoItem | Item(head: Json, tail: Items)
  datatype Members = NoMember | Member(key: string, value: Json, rest: Members)

  function Tokens(j: Json): seq<Token> {
    match j
    case Text(t) => [TextToken(t)]
    case Plain(t) => [PlainToken(t)]
    case Array(items) => [BracketOpen] + ItemTokens(items) + [BracketClose]
    case Object(members) => [BraceOpen] + MemberTokens(members) + [BraceClose]
  }

  function ItemTokens(items: Items): seq<Token> {
    match items
    case NoItem => []
    case Item(head, tail) => Tokens(head) + ItemTokens(tail)
  }

  function MemberTokens(members: Members): seq<Token> {
    match members
    case NoMember => []
    case Member(key, value, rest) => [TextToken(key)] + Tokens(value) + MemberTokens(rest)
  }

  function Keys(members: Members): set<string> {
    match members
    case NoMember => {}
    case Member(key, _, rest) => {key} + Keys(rest)
  }

  /** No object, at any depth, has one key twice. */
  predicate NoDuplicates(j: Json) {
    match j
    case Text(_) => true
    case Plain(_) => true
    case Array(items) => NoDuplicatesInItems(items)
    case Object(members) => NoDuplicatesInMembers(members)
  }

  predicate NoDuplicatesInItems(items: Items) {
    match items
    case NoItem => true
    case Item(head, tail) => NoDuplicates(head) && NoDuplicatesInItems(tail)
  }

  predicate NoDuplicatesInMembers(members: Members) {
    match members
    case NoMember => true
    case Member(key, value, rest) => key !in Keys(rest) && NoDuplicates(value) && NoDuplicatesInMembers(rest)
  }

  // ---- what having no duplicates means ----

  function ItemList(items: Items): seq<Json> {
    match items
    case NoItem => []
    case Item(head, tail) => [head] + ItemList(tail)
  }

  function MemberList(members: Members): seq<(string, Json)> {
    match members
    case NoMember => []
    case Member(key, value, rest) => [(key, value)] + MemberList(rest)
  }

  /** An item of an array or a value of an object. */
  ghost predicate IsChild(child: Json, j: Json) {
    match j
    case Text(_) => false
    case Plain(_) => false
    case Array(items) => child in ItemList(items)
    case Object(members) => exists key :: (key, child) in MemberList(members)
  }

  /** `part` stands `depth` levels inside `j`. */
  ghost predicate IsPart(part: Json, j: Json, depth: nat)
    decreases depth
  {
    if depth == 0 then part == j else exists child :: IsChild(child, j) && IsPart(part, child, depth - 1)
  }

  ghost predicate HasDistinctKeys(j: Json) {
    j.Object? ==>
      forall a, b :: 0 <= a < b < |MemberList(j.members)| ==> MemberList(j.members)[a].0 != MemberList(j.members)[b].0
  }

  lemma {:induction false} ItemsHaveNone(items: Items)
    ensures NoDuplicatesInItems(items) <==> forall j :: j in ItemList(items) ==> NoDuplicates(j)
  {
    if items.Item? {
      ItemsHaveNone(items.tail);
      assert items.head in ItemList(items) && forall j :: j in ItemList(items.tail) ==> j in ItemList(items);
      if NoDuplicatesInItems(items) {
        forall j | j in ItemList(items) ensures NoDuplicates(j) { assert j == items.head || j in ItemList(items.tail); }
      }
    }
  }

  lemma {:induction false} KeysAre(members: Members)
    ensures forall key :: key in Keys(members) <==>
      exists i :: 0 <= i < |MemberList(members)| && MemberList(members)[i].0 == key
  {
    if members.Member? {
      KeysAre(members.rest);
      var list, rest := MemberList(members), MemberList(members.rest);
      assert forall i :: 0 <= i < |rest| ==> list[i + 1] == rest[i];
      forall key ensures key in Keys(members) <==> exists i :: 0 <= i < |list| && list[i].0 == key {
        if key == members.key { assert list[0].0 == key; }
        if key in Keys(members.rest) {
          var i :| 0 <= i < |rest| && rest[i].0 == key;
          assert list[i + 1].0 == key;
        }
        if i :| 0 <= i < |list| && list[i].0 == key { assert i == 0 || rest[i - 1].0 == key; }
      }
    }
  }

  ghost predicate DiffersFromAll(key: string, list: seq<(string, Json)>) {
    forall i :: 0 <= i < |list| ==> list[i].0 != key
  }

  ghost predicate ValuesHaveNone(list: seq<(string, Json)>) {
    forall i :: 0 <= i < |list| ==> NoDuplicates(list[i].1)
  }

  lemma FirstDiffers(members: Members)
    requires members.Member?
    ensures HasDistinctKeys(Object(members)) <==>
      members.key !in Keys(members.rest) && HasDistinctKeys(Object(members.rest))
  {
    KeysAre(members.rest);
    hide Keys;
    var list, rest := MemberList(members), MemberList(members.rest);
    assert list == [(members.key, members.value)] + rest;
    hide MemberList;
    assert members.key !in Keys(members.rest) <==> DiffersFromAll(members.key, rest);
    if HasDistinctKeys(Object(members)) {
      forall i | 0 <= i < |rest| ensures rest[i].0 != members.key { assert list[0].0 != list[i + 1].0; }
      forall a, b | 0 <= a < b < |rest| ensures rest[a].0 != rest[b].0 { assert list[a + 1].0 != list[b + 1].0; }
    }
  }

  lemma FirstHasNone(first: (string, Json), rest: seq<(string, Json)>)
    ensures ValuesHaveNone([first] + rest) <==> NoDuplicates(first.1) && ValuesHaveNone(rest)
  {
    hide NoDuplicates;
    var list := [first] + rest;
    if ValuesHaveNone(list) {
      assert list[0] == first;
      forall i | 0 <= i < |rest| ensures NoDuplicates(rest[i].1) { assert list[i + 1] == rest[i]; }
    }
  }

  lemma {:induction false} MembersHaveNone(members: Members)
    ensures NoDuplicatesInMembers(members) <==>
      HasDistinctKeys(Object(members)) && ValuesHaveNone(MemberList(members))
  {
    hide NoDuplicates, ValuesHaveNone, HasDistinctKeys;
    if members.Member? {
      MembersHaveNone(members.rest);
      FirstDiffers(members);
      FirstHasNone((members.key, members.value), MemberList(members.rest));
    } else {
      NoMembers();
    }
  }

  lemma NoMembers()
    ensures HasDistinctKeys(Object(NoMember)) && ValuesHaveNone([]) && MemberList(NoMember) == []
  {
  }

  /** No part of the value at any depth has a key twice. */
  ghost predicate PartsAreDistinct(j: Json) {
    forall part, depth: nat :: IsPart(part, j, depth) ==> HasDistinctKeys(part)
  }

  lemma NoDuplicatesAsRead(j: Json)
    ensures NoDuplicates(j) <==> PartsAreDistinct(j)
  {
    if NoDuplicates(j) {
      forall part, depth: nat | IsPart(part, j, depth) ensures HasDistinctKeys(part) { PartsHaveNone(j, part, depth); }
      assert PartsAreDistinct(j);
    }
    if PartsAreDistinct(j) { PartsSuffice(j); }
  }

  lemma ChildrenHaveNone(j: Json)
    ensures NoDuplicates(j) <==> HasDistinctKeys(j) && forall child :: IsChild(child, j) ==> NoDuplicates(child)
  {
    match j {
      case Text(_) =>
      case Plain(_) =>
      case Array(items) => ItemsHaveNone(items);
      case Object(members) =>
        MembersHaveNone(members);
        var list := MemberList(members);
        forall i | 0 <= i < |list| ensures IsChild(list[i].1, j) { assert (list[i].0, list[i].1) in list; }
        if HasDistinctKeys(j) && ValuesHaveNone(list) {
          forall child | IsChild(child, j) ensures NoDuplicates(child) {
            var key :| (key, child) in list;
            var i :| 0 <= i < |list| && list[i] == (key, child);
          }
        }
    }
  }

  lemma {:induction false} PartsHaveNone(j: Json, part: Json, depth: nat)
    requires NoDuplicates(j) && IsPart(part, j, depth)
    ensures HasDistinctKeys(part)
    decreases depth
  {
    ChildrenHaveNone(j);
    if depth > 0 {
      var child :| IsChild(child, j) && IsPart(part, child, depth - 1);
      PartsHaveNone(child, part, depth - 1);
    }
  }

  function Size(j: Json): nat {
    |Tokens(j)|
  }

  lemma {:induction false} ItemsAreSmaller(items: Items, child: Json)
    requires child in ItemList(items)
    ensures Size(child) <= |ItemTokens(items)|
  {
    if child != items.head { ItemsAreSmaller(items.tail, child); }
  }

  lemma {:induction false} MembersAreSmaller(members: Members, key: string, child: Json)
    requires (key, child) in MemberList(members)
    ensures Size(child) < |MemberTokens(members)|
  {
    if (key, child) != (members.key, members.value) { MembersAreSmaller(members.rest, key, child); }
  }

  lemma ChildIsSmaller(child: Json, j: Json)
    requires IsChild(child, j)
    ensures Size(child) < Size(j)
  {
    if j.Array? {
      ItemsAreSmaller(j.items, child);
    } else {
      var key :| (key, child) in MemberList(j.members);
      MembersAreSmaller(j.members, key, child);
    }
  }

  lemma {:induction false} PartsSuffice(j: Json)
    requires PartsAreDistinct(j)
    ensures NoDuplicates(j)
    decreases Size(j)
  {
    ChildrenHaveNone(j);
    assert IsPart(j, j, 0);
    forall child | IsChild(child, j) ensures NoDuplicates(child) {
      forall part, depth: nat | IsPart(part, child, depth) ensures HasDistinctKeys(part) {
        assert IsPart(part, j, depth + 1);
      }
      ChildIsSmaller(child, j);
      PartsSuffice(child);
    }
  }

  // ---- the scan, as a function of the unread tokens ----

  /** Decoder.More: something other than a closing delimiter comes next. */
  predicate HasMore(ts: seq<Token>) {
    ts != [] && ts[0] != BraceClose && ts[0] != BracketClose
  }

  /** The tokens left after scanning one value, if the scan accepts it. */
  function ScanValue(ts: seq<Token>): (r: Option<seq<Token>>)
    ensures r.Some? ==> |r.value| < |ts|
    decreases |ts|, 1
  {
    if ts == [] then None
    else
      match ts[0]
      case TextToken(_) => Some(ts[1..])
      case PlainToken(_) => Some(ts[1..])
      case BraceOpen => ScanMembers(ts[1..], {})
      case BracketOpen => ScanItems(ts[1..])
      case _ => None
  }

  function ScanMembers(ts: seq<Token>, seen: set<string>): (r: Option<seq<Token>>)
    ensures r.Some? ==> |r.value| < |ts|
    decreases |ts|, 0
  {
    if !HasMore(ts) then if ts == [] then None else Some(ts[1..])
    else if !ts[0].TextToken? || ts[0].text in seen then None
    else
      var rest := ScanValue(ts[1..]);
      if rest.None? then None else ScanMembers(rest.value, seen + {ts[0].text})
  }

  function ScanItems(ts: seq<Token>): (r: Option<seq<Token>>)
    ensures r.Some? ==> |r.value| < |ts|
    decreases |ts|, 2
  {
    if !HasMore(ts) then if ts == [] then None else Some(ts[1..])
    else
      var rest := ScanValue(ts);
      if rest.None? then None else ScanItems(rest.value)
  }

  // ---- the scanner ----

  class Decoder {
    const tokens: seq<Token>
    var pos: nat

    ghost predicate Valid()
      reads this
    {
      pos <= |tokens|
    }

    ghost function Unread(): seq<Token>
      requires Valid()
      reads this
    {
      tokens[pos..]
    }

    constructor (tokens: seq<Token>)
      ensures Valid() && Unread() == tokens
    {
      this.tokens := tokens;
      pos := 0;
    }

    method Token() returns (t: Option<Token>)
      requires Valid()
      modifies this
      ensures Valid()
      ensures old(Unread()) == [] ==> t.None? && Unread() == []
      ensures old(Unread()) != [] ==> t == Some(old(Unread())[0]) && Unread() == old(Unread())[1..]
    {
      if pos == |tokens| { return None; }
      t := Some(tokens[pos]);
      pos := pos + 1;
    }

    method More() returns (more: bool)
      requires Valid()
      ensures more <==> HasMore(Unread())
    {
      more := pos < |tokens| && tokens[pos] != BraceClose && tokens[pos] != BracketClose;
    }
  }

  /** scanJSONValue */
  method ScanJSONValue(decoder: Decoder) returns (ok: bool)
    requires decoder.Valid()
    modifies decoder
    ensures decoder.Valid()
    ensures ok <==> ScanValue(old(decoder.Unread())).Some?
    ensures ok ==> decoder.Unread() == ScanValue(old(decoder.Unread())).value
    decreases |decoder.Unread()|
  {
    ghost var start := decoder.Unread();
    var token := decoder.Token();
    if token.None? { return false; }
    match token.value {
      case BraceOpen =>
        var seen := {};
        var more := decoder.More();
        while more
          invariant decoder.Valid() && |decoder.Unread()| < |start| && more == HasMore(decoder.Unread())
          invariant ScanValue(start) == ScanMembers(decoder.Unread(), seen)
          decreases |decoder.Unread()|
        {
          var key := decoder.Token();
          if key.None? || !key.value.TextToken? { return false; }
          if key.value.text in seen { return false; }
          seen := seen + {key.value.text};
          var scanned := ScanJSONValue(decoder);
          if !scanned { return false; }
          more := decoder.More();
        }
        var close := decoder.Token();
        return close.Some?;
      case BracketOpen =>
        var more := decoder.More();
        while more
          invariant decoder.Valid() && |decoder.Unread()| < |start| && more == HasMore(decoder.Unread())
          invariant ScanValue(start) == ScanItems(decoder.Unread())
          decreases |decoder.Unread()|
        {
          var scanned := ScanJSONValue(decoder);
          if !scanned { return false; }
          more := decoder.More();
        }
        var close := decoder.Token();
        return close.Some?;
      case TextToken(_) => return true;
      case PlainToken(_) => return true;
      case _ => return false;
    }
  }

  // ---- exactness ----

  function IfUnique(unique: bool, rest: seq<Token>): Option<seq<Token>> {
    if unique then Some(rest) else None
  }

  /** The scanner is exact: on the tokens of any value, followed by anything, it accepts
      exactly when no object repeats a key, and then leaves what follows unread. */
  lemma {:induction false} ScanIsExact(j: Json, rest: seq<Token>)
    ensures ScanValue(Tokens(j) + rest) == IfUnique(NoDuplicates(j), rest)
    decreases j, 0
  {
    var ts := Tokens(j) + rest;
    match j {
      case Text(_) => assert ts[1..] == rest;
      case Plain(_) => assert ts[1..] == rest;
      case Array(items) =>
        assert ts[1..] == ItemTokens(items) + ([BracketClose] + rest);
        ItemsAreExact(items, rest);
      case Object(members) =>
        assert ts[1..] == MemberTokens(members) + ([BraceClose] + rest);
        MembersAreExact(members, {}, rest);
        assert Keys(members) !! {};
    }
  }

  lemma {:induction false} StartsOpen(j: Json, rest: seq<Token>)
    ensures HasMore(Tokens(j) + rest)
  {
  }

  lemma {:induction false} ItemsAreExact(items: Items, rest: seq<Token>)
    ensures ScanItems(ItemTokens(items) + ([BracketClose] + rest)) == IfUnique(NoDuplicatesInItems(items), rest)
    decreases items, 1
  {
    var close := [BracketClose] + rest;
    match items {
      case NoItem =>
        assert ItemTokens(items) + close == close && close[1..] == rest;
      case Item(head, tail) =>
        assert ItemTokens(items) + close == Tokens(head) + (ItemTokens(tail) + close);
        StartsOpen(head, ItemTokens(tail) + close);
        ScanIsExact(head, ItemTokens(tail) + close);
        ItemsAreExact(tail, rest);
    }
  }

  /** The members still to come are distinct from each other and from those seen. */
  lemma {:induction false} MembersAreExact(members: Members, seen: set<string>, rest: seq<Token>)
    ensures ScanMembers(MemberTokens(members) + ([BraceClose] + rest), seen) ==
      IfUnique(NoDuplicatesInMembers(members) && Keys(members) !! seen, rest)
    decreases members, 1
  {
    var close := [BraceClose] + rest;
    match members {
      case NoMember =>
        assert MemberTokens(members) + close == close && close[1..] == rest;
      case Member(key, value, more) =>
        var ts := MemberTokens(members) + close;
        assert ts == [TextToken(key)] + (Tokens(value) + (MemberTokens(more) + close));
        assert ts[1..] == Tokens(value) + (MemberTokens(more) + close);
        ScanIsExact(value, MemberTokens(more) + close);
        MembersAreExact(more, seen + {key}, rest);
    }
  }
}
