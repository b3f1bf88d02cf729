/** Application workloads counted per key, and the pairs of them that share one. */
module Counting {
  import opened Text
  import opened Labels
  import opened Document

  /** compiledWorkload: a workload with what it inherits from its stack and its service. */
  datatype Node = Node(workload: Workload, labels: LabelMap, system: bool, root: string)

  datatype Scope = Everywhere | On(host: string)

  predicate InScope(scope: Scope, n: Node) {
    scope.Everywhere? || n.workload.hostID == scope.host
  }

  datatype Key = StackKey | RootKey | LabelKey(key: string)

  function KeyOf(g: Key, n: Node): Option<string> {
    match g
    case StackKey => Some(n.workload.stackID)
    case RootKey => if n.root == "" then None else Some(n.root)
    case LabelKey(k) => if k in n.labels then Some(n.labels[k]) else None
  }

  ghost function Bucket(nodes: seq<Node>, g: Key, k: string, scope: Scope): set<Node> {
    set n | n in nodes && !n.system && KeyOf(g, n) == Some(k) && InScope(scope, n)
  }

  /** A Go map read with the zero value as its default. */
  function At(m: map<string, nat>, k: string): nat {
    if k in m then m[k] else 0
  }

  /** `m[k]++` */
  function Tally(m: map<string, nat>, k: string): map<string, nat> {
    m[k := At(m, k) + 1]
  }

  /** `m` holds the number of application workloads in scope under every key that has one. */
  ghost predicate Counts(m: map<string, nat>, nodes: seq<Node>, g: Key, scope: Scope) {
    forall k :: At(m, k) == |Bucket(nodes, g, k, scope)| && (k in m ==> m[k] > 0)
  }

  lemma NothingCounted(g: Key, scope: Scope)
    ensures Counts(map[], [], g, scope)
  {
    forall k ensures Bucket([], g, k, scope) == {} {
    }
  }

  predicate Counted(g: Key, scope: Scope, n: Node) {
    !n.system && KeyOf(g, n).Some? && InScope(scope, n)
  }

  lemma BucketMore(nodes: seq<Node>, g: Key, k: string, scope: Scope, n: Node)
    requires n !in nodes
    ensures |Bucket(nodes + [n], g, k, scope)| ==
      |Bucket(nodes, g, k, scope)| + if Counted(g, scope, n) && KeyOf(g, n).value == k then 1 else 0
  {
    var before, after := Bucket(nodes, g, k, scope), Bucket(nodes + [n], g, k, scope);
    hide KeyOf, InScope;
    if Counted(g, scope, n) && KeyOf(g, n).value == k {
      assert after == before + {n};
    } else {
      assert after == before;
    }
  }

  lemma CountMore(m: map<string, nat>, nodes: seq<Node>, g: Key, scope: Scope, n: Node)
    requires Counts(m, nodes, g, scope) && n !in nodes
    ensures Counts(if Counted(g, scope, n) then Tally(m, KeyOf(g, n).value) else m, nodes + [n], g, scope)
  {
    hide Bucket, KeyOf, InScope;
    var after := if Counted(g, scope, n) then Tally(m, KeyOf(g, n).value) else m;
    forall k ensures At(after, k) == |Bucket(nodes + [n], g, k, scope)| && (k in after ==> after[k] > 0) {
      BucketMore(nodes, g, k, scope, n);
      assert At(m, k) == |Bucket(nodes, g, k, scope)|;
    }
  }

  // ---- products ----

  ghost function Product<A(!new), B(!new)>(a: set<A>, b: set<B>): set<(A, B)> {
    set x, y | x in a && y in b :: (x, y)
  }

  lemma ProductSplit<A(!new), B(!new)>(a: set<A>, x: A, b: set<B>)
    requires x !in a
    ensures |Product(a + {x}, b)| == |Product(a, b)| + |Product({x}, b)|
  {
    assert Product(a + {x}, b) == Product(a, b) + Product({x}, b);
    assert Product(a, b) !! Product({x}, b);
  }

  lemma {:induction false} ProductSize<A(!new), B(!new)>(a: set<A>, b: set<B>)
    ensures |Product(a, b)| == |a| * |b|
  {
    if a == {} {
      assert Product(a, b) == {};
    } else {
      var x :| x in a;
      var rest := a - {x};
      ProductSize(rest, b);
      RowSize(x, b);
      ProductSplit(rest, x, b);
      hide Product;
      assert rest + {x} == a;
      assert |a| == |rest| + 1;
      assert (|rest| + 1) * |b| == |rest| * |b| + |b|;
    }
  }

  lemma {:induction false} RowSize<A(!new), B(!new)>(x: A, b: set<B>)
    ensures |Product({x}, b)| == |b|
  {
    if b == {} {
      assert Product({x}, b) == {};
    } else {
      var y :| y in b;
      RowSize(x, b - {y});
      assert Product({x}, b) == Product({x}, b - {y}) + {(x, y)};
    }
  }

  /** The pairs of an application workload and a local one that share a key out of `keys`. */
  ghost function PairsUnder(nodes: seq<Node>, g: Key, host: string, keys: set<string>): set<(Node, Node)> {
    set u, v | u in nodes && v in nodes && !u.system && !v.system && v.workload.hostID == host &&
      KeyOf(g, u).Some? && KeyOf(g, u) == KeyOf(g, v) && KeyOf(g, u).value in keys :: (u, v)
  }

  /** The pairs of an application workload and a local one that share a key. */
  ghost function KeyPairs(nodes: seq<Node>, g: Key, host: string): set<(Node, Node)> {
    set u, v | u in nodes && v in nodes && !u.system && !v.system && v.workload.hostID == host &&
      KeyOf(g, u).Some? && KeyOf(g, u) == KeyOf(g, v) :: (u, v)
  }

  lemma PairsUnderSplit(nodes: seq<Node>, g: Key, host: string, keys: set<string>, k: string)
    requires k !in keys
    ensures var more := Product(Bucket(nodes, g, k, Everywhere), Bucket(nodes, g, k, On(host)));
      PairsUnder(nodes, g, host, keys + {k}) == PairsUnder(nodes, g, host, keys) + more &&
      PairsUnder(nodes, g, host, keys) !! more
  {
    hide KeyOf;
    var before, after := PairsUnder(nodes, g, host, keys), PairsUnder(nodes, g, host, keys + {k});
    var more := Product(Bucket(nodes, g, k, Everywhere), Bucket(nodes, g, k, On(host)));
    forall u, v ensures (u, v) in after <==> (u, v) in before || (u, v) in more {
    }
    assert after == before + more;
  }

  lemma PairsUnderMore(nodes: seq<Node>, g: Key, host: string, keys: set<string>, k: string)
    requires k !in keys
    ensures |PairsUnder(nodes, g, host, keys + {k})| ==
      |PairsUnder(nodes, g, host, keys)| + |Bucket(nodes, g, k, On(host))| * |Bucket(nodes, g, k, Everywhere)|
  {
    hide PairsUnder, Bucket, Product;
    PairsUnderSplit(nodes, g, host, keys, k);
    ProductSize(Bucket(nodes, g, k, Everywhere), Bucket(nodes, g, k, On(host)));
  }

  lemma AllPairsUnder(nodes: seq<Node>, g: Key, host: string, local: map<string, nat>)
    requires Counts(local, nodes, g, On(host))
    ensures PairsUnder(nodes, g, host, local.Keys) == KeyPairs(nodes, g, host)
  {
    hide KeyOf;
    forall u, v | (u, v) in KeyPairs(nodes, g, host) ensures KeyOf(g, u).value in local {
      var k := KeyOf(g, v).value;
      assert v in Bucket(nodes, g, k, On(host));
      assert At(local, k) == |Bucket(nodes, g, k, On(host))|;
    }
  }

  lemma CountAt(m: map<string, nat>, nodes: seq<Node>, g: Key, scope: Scope, k: string)
    requires Counts(m, nodes, g, scope)
    ensures At(m, k) == |Bucket(nodes, g, k, scope)|
  {
  }

  /** The loops that add up, over the keys of a Go map in arbitrary order, the local count
      times the count of all. */
  method SumProducts(
    all: map<string, nat>, local: map<string, nat>, ghost nodes: seq<Node>, ghost g: Key, ghost host: string)
    returns (total: nat)
    requires Counts(all, nodes, g, Everywhere) && Counts(local, nodes, g, On(host))
    ensures total == |KeyPairs(nodes, g, host)|
  {
    hide Bucket, KeyPairs, PairsUnder, Counts, At;
    total := 0;
    var todo := local.Keys;
    ghost var done := {};
    assert |PairsUnder(nodes, g, host, {})| == 0 by { NoPairs(nodes, g, host); }
    while todo != {}
      invariant todo + done == local.Keys && todo !! done
      invariant total == |PairsUnder(nodes, g, host, done)|
    {
      var key :| key in todo;
      PairsUnderMore(nodes, g, host, done, key);
      CountAt(all, nodes, g, Everywhere, key);
      CountAt(local, nodes, g, On(host), key);
      total := total + At(local, key) * At(all, key);
      todo, done := todo - {key}, done + {key};
    }
    assert done == local.Keys;
    AllPairsUnder(nodes, g, host, local);
  }

  lemma NoPairs(nodes: seq<Node>, g: Key, host: string)
    ensures PairsUnder(nodes, g, host, {}) == {}
  {
  }

  // ---- nodes ----

  /** Nodes and their identifiers are equally many. */
  lemma {:induction false} IDsOf(ns: set<Node>)
    requires forall u, v :: u in ns && v in ns && u.workload.id == v.workload.id ==> u == v
    ensures |set n | n in ns :: n.workload.id| == |ns|
  {
    if ns == {} {
      assert (set n | n in ns :: n.workload.id) == {};
    } else {
      var x :| x in ns;
      IDsOf(ns - {x});
      assert (set n | n in ns :: n.workload.id) == (set n | n in ns - {x} :: n.workload.id) + {x.workload.id};
    }
  }
}
