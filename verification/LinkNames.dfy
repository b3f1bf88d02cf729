/** Bare link names: the path a service is listed under trims the stack name, and the path a
    link is looked up under does not. */
module LinkNames {
  import opened Text
  import opened Metadata
  import opened SnapshotBuilder

  /** A name without a stack. */
  predicate IsBare(name: string) {
    Trim(name) != "" && '/' !in Trim(name)
  }

  lemma TrimKeepsLength(s: string)
    ensures |Trim(s)| == |s| <==> Trim(s) == s
  {
    hide IsSpace, TrimLeft, TrimRight;
    var left := TrimLeft(s);
    if |TrimRight(left)| == |s| {
      assert left == s && TrimRight(left) == left;
    }
  }

  /** What resolveServiceLink looks up. */
  function LinkPath(stack: string, name: string): string {
    Lower(stack + "/" + Trim(name))
  }

  lemma LooksUp(stack: string, name: string, byPath: map<string, string>)
    requires IsBare(name)
    ensures ResolveServiceLink(stack, name, byPath) ==
      if LinkPath(stack, name) in byPath then Some(byPath[LinkPath(stack, name)]) else None
  {
    hide Lower, Trim;
  }

  /** It is the path of the service of that name in the same stack exactly when the stack name
      has no white space around it. */
  lemma LinkPathIsServicePath(stack: string, name: string)
    ensures LinkPath(stack, name) == ServicePath(stack, name) <==> Trim(stack) == stack
  {
    TrimKeepsLength(stack);
    assert |LinkPath(stack, name)| == |stack| + 1 + |Trim(name)|;
    assert |ServicePath(stack, name)| == |Trim(stack)| + 1 + |Trim(name)|;
    hide Trim, Lower;
  }

  /** So a bare name finds the service of its own stack, whatever services there are, if and
      only if the stack name is trimmed. */
  lemma BareNameResolves(stack: string, name: string)
    requires IsBare(name)
    ensures (forall byPath: map<string, string> :: ServicePath(stack, name) in byPath ==>
        ResolveServiceLink(stack, name, byPath) == Some(byPath[ServicePath(stack, name)])) <==>
      Trim(stack) == stack
  {
    hide LinkPath, ServicePath, Trim, ResolveServiceLink, IsBare;
    LinkPathIsServicePath(stack, name);
    forall byPath { LooksUp(stack, name, byPath); }
    if Trim(stack) != stack {
      var byPath := map[ServicePath(stack, name) := "v"];
      assert ResolveServiceLink(stack, name, byPath) == None;
    }
  }

  // ---- in the table of an input ----

  lemma OneSlash(a: string, b: string, c: string, d: string)
    requires a + "/" + b == c + "/" + d && '/' !in a && '/' !in b
    ensures a == c
  {
    var s := a + "/" + b;
    assert forall i :: 0 <= i < |s| && s[i] == '/' ==> i == |a|;
    assert s[|c|] == '/';
    assert a == s[..|a|] && c == s[..|c|];
  }

  lemma LowerKeepsEnds(a: string, b: string)
    requires Lower(a) == Lower(b) && Trim(b) == b
    ensures Trim(a) == a
  {
    if a != "" {
      assert |b| == |a| && LowerChar(a[0]) == LowerChar(b[0]) && LowerChar(a[|a| - 1]) == LowerChar(b[|b| - 1]);
      assert !IsSpace(b[0]) && !IsSpace(b[|b| - 1]);
      assert forall c, d :: LowerChar(c) == LowerChar(d) ==> (IsSpace(c) <==> IsSpace(d));
    }
  }

  lemma TrimTwice(s: string)
    ensures Trim(Trim(s)) == Trim(s)
  {
    hide TrimLeft, TrimRight, IsSpace;
  }

  lemma NoSlash(s: string)
    requires '/' !in s
    ensures '/' !in Lower(s)
  {
  }

  lemma PathParts(a: string, b: string)
    ensures Lower(a + "/" + b) == Lower(a) + "/" + Lower(b)
  {
  }

  /** No service has the path a bare name is looked up under, when the stack name has no slash
      but white space around it. */
  lemma UntrimmedPathIsUnlisted(stack: string, name: string, s: Service)
    requires IsBare(name) && '/' !in stack && Trim(stack) != stack
    ensures PathOf(s) != LinkPath(stack, name)
  {
    hide Trim, Lower;
    if PathOf(s) == LinkPath(stack, name) {
      PathParts(stack, Trim(name));
      PathParts(Trim(s.stackName), Trim(s.name));
      NoSlash(stack);
      NoSlash(Trim(name));
      OneSlash(Lower(stack), Lower(Trim(name)), Lower(Trim(s.stackName)), Lower(Trim(s.name)));
      TrimTwice(s.stackName);
      LowerKeepsEnds(stack, Trim(s.stackName));
      assert false;
    }
  }

  /** In the table of the services of an input, a bare name resolves to the service of its own
      stack if the stack name is trimmed, and to nothing if it is not. */
  lemma BareNameInTable(all: seq<Service>, v: Service, stack: string, name: string)
    requires OneIDPerPath(PathOf, UUIDOf, all) && v in all && PathOf(v) == ServicePath(stack, name)
    requires IsBare(name) && '/' !in stack
    ensures ResolveServiceLink(stack, name, PathIndex(all)) == if Trim(stack) == stack then Some(v.uuid) else None
  {
    hide PathOf, LinkPath, ServicePath, Trim, IsBare, ResolveServiceLink, IndexBy, OneIDPerPath;
    LooksUp(stack, name, PathIndex(all));
    LinkPathIsServicePath(stack, name);
    SamePathSameIndex(PathOf, UUIDOf, all, v);
    IndexByIs(PathOf, UUIDOf, all);
    if Trim(stack) != stack {
      forall s { UntrimmedPathIsUnlisted(stack, name, s); }
    }
  }

  /** So the bare links of a service in such a stack are dropped without an error. */
  lemma UntrimmedStackLinksNothing(v: Service, key: string, all: seq<Service>)
    requires key in v.links && IsBare(key) && (v.links[key] == "" || IsBare(v.links[key]))
    requires '/' !in v.stackName && Trim(v.stackName) != v.stackName
    ensures forall primaries, from, to :: !Declares(v, key, PathIndex(all), primaries, from, to)
  {
    hide PathOf, LinkPath, Trim, IsBare, ResolveServiceLink, IndexBy;
    IndexByIs(PathOf, UUIDOf, all);
    forall name | IsBare(name) ensures ResolveServiceLink(v.stackName, name, PathIndex(all)).None? {
      LooksUp(v.stackName, name, PathIndex(all));
      forall s { UntrimmedPathIsUnlisted(v.stackName, name, s); }
    }
  }
}
