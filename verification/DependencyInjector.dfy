/**
  The dependency injector: components are brought up in a topological order of their dependencies, found by Kahn's algorithm, and
  stopped and deleted in the reverse order. The ready set is served in any order. Initializers and stoppers may fail.
 */
module DependencyInjector {

  datatype Option<T> = None | Some(value: T)

  type Id = nat

  type Edge = (Id, Id)

  // ----- graphs -----

  ghost predicate HasEdge(edges: seq<Edge>, a: Id, b: Id) {
    (a, b) in edges
  }

  ghost function Nodes(edges: seq<Edge>): set<Id> {
    (set e | e in edges :: e.0) + (set e | e in edges :: e.1)
  }

  /** Each entry has an edge to the one before it. */
  ghost predicate BackPath(edges: seq<Edge>, w: seq<Id>) {
    forall i :: 0 <= i < |w| - 1 ==> HasEdge(edges, w[i + 1], w[i])
  }

  ghost predicate IsCycle(edges: seq<Edge>, w: seq<Id>) {
    |w| >= 2 && w[0] == w[|w| - 1] && BackPath(edges, w)
  }

  ghost predicate Acyclic(edges: seq<Edge>) {
    forall w :: !IsCycle(edges, w)
  }

  ghost predicate Distinct(s: seq<Id>) {
    forall i, j :: 0 <= i < j < |s| ==> s[i] != s[j]
  }

  /** `a` comes before `b`. */
  ghost predicate Before(s: seq<Id>, a: Id, b: Id) {
    exists i, j :: 0 <= i < j < |s| && s[i] == a && s[j] == b
  }

  /** Every endpoint once, every edge forward. */
  ghost predicate Sorted(edges: seq<Edge>, order: seq<Id>) {
    && Distinct(order)
    && (forall n :: n in order <==> n in Nodes(edges))
    && (forall a, b :: HasEdge(edges, a, b) ==> Before(order, a, b))
  }

  /** Position in an order. */
  ghost function Position(order: seq<Id>, n: Id): (r: nat)
    requires n in order
    ensures r < |order| && order[r] == n
  {
    if order[|order| - 1] == n then |order| - 1 else Position(order[..|order| - 1], n)
  }

  lemma BeforePositions(order: seq<Id>, a: Id, b: Id)
    requires Distinct(order) && Before(order, a, b)
    ensures a in order && b in order && Position(order, a) < Position(order, b)
  {
    var i, j :| 0 <= i < j < |order| && order[i] == a && order[j] == b;
    assert order[i] in order && order[j] in order;
  }

  /** Along a path backwards in a sorted order positions fall. */
  lemma {:induction false} PathFalls(edges: seq<Edge>, order: seq<Id>, w: seq<Id>)
    requires Sorted(edges, order) && BackPath(edges, w) && |w| >= 2
    ensures w[0] in order && w[|w| - 1] in order && Position(order, w[|w| - 1]) < Position(order, w[0])
  {
    hide Position, Nodes, HasEdge;
    var n := |w| - 1;
    assert HasEdge(edges, w[n], w[n - 1]);
    BeforePositions(order, w[n], w[n - 1]);
    if n >= 2 {
      PathFalls(edges, order, w[..n]);
    }
  }

  /** A sorted order leaves no room for a cycle. */
  lemma SortedIsAcyclic(edges: seq<Edge>, order: seq<Id>)
    requires Sorted(edges, order)
    ensures Acyclic(edges)
  {
    forall w ensures !IsCycle(edges, w) {
      if IsCycle(edges, w) {
        PathFalls(edges, order, w);
      }
    }
  }

  // ----- walking back -----

  lemma {:induction false} DistinctFits(s: seq<Id>, u: set<Id>)
    requires Distinct(s) && forall i :: 0 <= i < |s| ==> s[i] in u
    ensures |s| <= |u|
  {
    if s != [] {
      var n := |s| - 1;
      DistinctFits(s[..n], u - {s[n]});
    }
  }

  /** Every entry of `u` has a predecessor in `u`. */
  ghost predicate NoStart(edges: seq<Edge>, u: set<Id>) {
    forall n :: n in u ==> HasPred(edges, u, n)
  }

  ghost predicate HasPred(edges: seq<Edge>, u: set<Id>, n: Id) {
    exists m :: m in u && HasEdge(edges, m, n)
  }

  lemma {:induction false} WalkBack(edges: seq<Edge>, u: set<Id>, start: Id, k: nat) returns (w: seq<Id>)
    requires NoStart(edges, u) && start in u
    ensures |w| == k + 1 && BackPath(edges, w) && forall i :: 0 <= i < |w| ==> w[i] in u
  {
    hide HasEdge;
    if k == 0 {
      w := [start];
    } else {
      w := WalkBack(edges, u, start, k - 1);
      assert HasPred(edges, u, w[k - 1]);
      var m :| m in u && HasEdge(edges, m, w[k - 1]);
      w := w + [m];
    }
  }

  /** A finite set in which one can always go back has a cycle. */
  lemma NoStartHasCycle(edges: seq<Edge>, u: set<Id>, start: Id)
    requires NoStart(edges, u) && start in u
    ensures !Acyclic(edges)
  {
    hide HasEdge, NoStart;
    var w := WalkBack(edges, u, start, |u|);
    if Distinct(w) {
      DistinctFits(w, u);
      assert false;
    }
    var i, j :| 0 <= i < j < |w| && w[i] == w[j];
    SliceIsCycle(edges, w, i, j);
  }

  lemma SliceIsCycle(edges: seq<Edge>, w: seq<Id>, i: nat, j: nat)
    requires BackPath(edges, w) && i < j < |w| && w[i] == w[j]
    ensures IsCycle(edges, w[i..j + 1])
  {
    hide HasEdge;
    var c := w[i..j + 1];
    forall k | 0 <= k < |c| - 1 ensures HasEdge(edges, c[k + 1], c[k]) {
      assert c[k + 1] == w[i + k + 1] && c[k] == w[i + k];
    }
  }

  // ----- Kahn's algorithm -----

  type Adjacency = map<Id, set<Id>>

  function Get(m: Adjacency, n: Id): set<Id> {
    if n in m then m[n] else {}
  }

  /** What is left of the incoming edges: their sources that have not been put out yet. */
  ghost predicate LeftIn(edges: seq<Edge>, done: seq<Id>, incoming: Adjacency) {
    && incoming.Keys == Nodes(edges)
    && forall a: Id, b: Id :: b in incoming ==> (a in incoming[b] <==> HasEdge(edges, a, b) && a !in done)
  }

  /** What is left of the outgoing edges: all those of sources that have not been put out yet. */
  ghost predicate LeftOut(edges: seq<Edge>, done: seq<Id>, outgoing: Adjacency) {
    && (forall a: Id, b: Id :: a !in done && HasEdge(edges, a, b) ==> a in outgoing)
    && (forall a: Id :: a in outgoing ==> a !in done && outgoing[a] != {})
    && (forall a: Id, b: Id :: a in outgoing ==> (b in outgoing[a] <==> HasEdge(edges, a, b)))
  }

  method BuildMaps(edges: seq<Edge>) returns (incoming: Adjacency, outgoing: Adjacency)
    ensures LeftIn(edges, [], incoming) && LeftOut(edges, [], outgoing)
  {
    hide Nodes;
    incoming, outgoing := map[], map[];
    var i := 0;
    NoEdges();
    while i < |edges|
      invariant 0 <= i <= |edges| && LeftIn(edges[..i], [], incoming) && LeftOut(edges[..i], [], outgoing)
    {
      var (a, b) := edges[i];
      AddEdge(edges, i, incoming, outgoing);
      incoming := incoming[b := Get(incoming, b) + {a}];
      incoming := incoming[a := Get(incoming, a)];
      outgoing := outgoing[a := Get(outgoing, a) + {b}];
      i := i + 1;
    }
    assert edges[..i] == edges;
  }

  lemma NoEdges()
    ensures Nodes([]) == {}
  {
  }

  lemma NodesStep(edges: seq<Edge>, i: nat)
    requires i < |edges|
    ensures Nodes(edges[..i + 1]) == Nodes(edges[..i]) + {edges[i].0, edges[i].1}
    ensures forall a: Id, b: Id :: HasEdge(edges[..i + 1], a, b) <==> HasEdge(edges[..i], a, b) || edges[i] == (a, b)
  {
    var (s, t) := (edges[..i], edges[..i + 1]);
    assert t == s + [edges[i]];
    forall n | n in Nodes(s) + {edges[i].0, edges[i].1} ensures n in Nodes(t) {
      if n in Nodes(s) {
        var e :| e in s && (e.0 == n || e.1 == n);
        assert e in t;
      } else {
        assert edges[i] in t;
      }
    }
  }

  lemma AddEdge(edges: seq<Edge>, i: nat, incoming: Adjacency, outgoing: Adjacency)
    requires i < |edges| && LeftIn(edges[..i], [], incoming) && LeftOut(edges[..i], [], outgoing)
    ensures var (a, b) := edges[i];
            var in1 := incoming[b := Get(incoming, b) + {a}];
            && LeftIn(edges[..i + 1], [], in1[a := Get(in1, a)])
            && LeftOut(edges[..i + 1], [], outgoing[a := Get(outgoing, a) + {b}])
  {
    hide Nodes, HasEdge;
    NodesStep(edges, i);
    AddIn(edges[..i], edges[..i + 1], edges[i].0, edges[i].1, incoming);
    AddOut(edges[..i], edges[..i + 1], edges[i].0, edges[i].1, outgoing);
  }

  lemma AddIn(s: seq<Edge>, t: seq<Edge>, a: Id, b: Id, incoming: Adjacency)
    requires LeftIn(s, [], incoming) && Nodes(t) == Nodes(s) + {a, b}
    requires forall x: Id, y: Id :: HasEdge(t, x, y) <==> HasEdge(s, x, y) || (a, b) == (x, y)
    ensures var in1 := incoming[b := Get(incoming, b) + {a}]; LeftIn(t, [], in1[a := Get(in1, a)])
  {
    hide Nodes, HasEdge;
    var in1 := incoming[b := Get(incoming, b) + {a}];
    var in2 := in1[a := Get(in1, a)];
    NoNodeNoEdge(s);
    forall x: Id, y: Id | y in in2 ensures x in in2[y] <==> HasEdge(t, x, y) {
      assert in2[y] == if y == b then Get(incoming, b) + {a} else Get(incoming, y);
      assert x in Get(incoming, y) <==> HasEdge(s, x, y);
    }
  }

  lemma AddOut(s: seq<Edge>, t: seq<Edge>, a: Id, b: Id, outgoing: Adjacency)
    requires LeftOut(s, [], outgoing)
    requires forall x: Id, y: Id :: HasEdge(t, x, y) <==> HasEdge(s, x, y) || (a, b) == (x, y)
    ensures LeftOut(t, [], outgoing[a := Get(outgoing, a) + {b}])
  {
    hide HasEdge;
    var out := outgoing[a := Get(outgoing, a) + {b}];
    assert b in out[a];
    forall x: Id, y: Id | x in out ensures y in out[x] <==> HasEdge(t, x, y) {
      assert y in Get(outgoing, x) <==> HasEdge(s, x, y);
    }
  }

  lemma NoNodeNoEdge(edges: seq<Edge>)
    ensures forall a: Id, b: Id :: HasEdge(edges, a, b) ==> a in Nodes(edges) && b in Nodes(edges)
  {
    forall a, b | HasEdge(edges, a, b) ensures a in Nodes(edges) && b in Nodes(edges) {
      var e := (a, b);
      assert e in edges && e.0 == a && e.1 == b;
    }
  }

  /** The nodes that wait for nothing: not put out yet, and no incoming edge left. */
  ghost predicate ReadyOk(edges: seq<Edge>, done: seq<Id>, incoming: Adjacency, ready: set<Id>) {
    forall n: Id :: n in ready <==> n in Nodes(edges) && n !in done && Get(incoming, n) == {}
  }

  /** What has been put out is distinct, and each entry comes after all its predecessors. */
  ghost predicate Prefix(edges: seq<Edge>, done: seq<Id>) {
    && Distinct(done)
    && (forall n :: n in done ==> n in Nodes(edges))
    && (forall a: Id, b: Id :: b in done && HasEdge(edges, a, b) ==> Before(done, a, b))
  }

  method FindReady(incoming: Adjacency) returns (ready: set<Id>)
    ensures forall n: Id :: n in ready <==> n in incoming && incoming[n] == {}
  {
    ready := {};
    var keys := incoming.Keys;
    while keys != {}
      invariant keys <= incoming.Keys
      invariant forall n: Id :: n in ready <==> n in incoming && n !in keys && incoming[n] == {}
      decreases keys
    {
      var n :| n in keys;
      if incoming[n] == {} {
        ready := ready + {n};
      }
      keys := keys - {n};
    }
  }

  /** Takes the edges of a node away from its targets. */
  method Release(node: Id, targets: set<Id>, incoming0: Adjacency, ready0: set<Id>) returns (incoming: Adjacency, ready: set<Id>)
    requires targets <= incoming0.Keys
    ensures incoming.Keys == incoming0.Keys
    ensures forall b :: b in incoming ==> incoming[b] == if b in targets then incoming0[b] - {node} else incoming0[b]
    ensures forall b: Id :: b in ready <==> b in ready0 || (b in targets && incoming[b] == {})
  {
    incoming, ready := incoming0, ready0;
    var rest := targets;
    while rest != {}
      invariant rest <= targets && incoming.Keys == incoming0.Keys
      invariant forall b :: b in incoming ==> incoming[b] == if b in targets - rest then incoming0[b] - {node} else incoming0[b]
      invariant forall b: Id :: b in ready <==> b in ready0 || (b in targets - rest && incoming[b] == {})
      decreases rest
    {
      var to :| to in rest;
      incoming := incoming[to := incoming[to] - {node}];
      if incoming[to] == {} {
        ready := ready + {to};
      }
      rest := rest - {to};
    }
  }

  lemma InMember(s: seq<Id>, n: Id, x: Id)
    ensures x in s + [n] <==> x in s || x == n
  {
  }

  /** Putting out a ready node. */
  lemma PutOut(edges: seq<Edge>, done: seq<Id>, node: Id, incoming: Adjacency)
    requires Prefix(edges, done) && LeftIn(edges, done, incoming) && node in Nodes(edges) && node !in done
    requires Get(incoming, node) == {}
    ensures Prefix(edges, done + [node])
    ensures !HasEdge(edges, node, node)
    ensures forall b: Id :: HasEdge(edges, node, b) ==> b !in done
  {
    hide Nodes, HasEdge, Before;
    var longer := done + [node];
    forall a: Id, b: Id | b in longer && HasEdge(edges, a, b) ensures Before(longer, a, b) {
      NoNodeNoEdge(edges);
      if b in done {
        assert Before(done, a, b);
        BeforeLonger(done, a, b, node);
      } else {
        assert a !in incoming[node];
        BeforeLast(done, a, node);
      }
    }
    forall b: Id | HasEdge(edges, node, b) ensures b !in done {
      if b in done {
        BeforeMember(done, node, b);
      }
    }
  }

  lemma BeforeLonger(s: seq<Id>, a: Id, b: Id, n: Id)
    requires Before(s, a, b)
    ensures Before(s + [n], a, b)
  {
    var i, j :| 0 <= i < j < |s| && s[i] == a && s[j] == b;
    var t := s + [n];
    assert t[i] == a && t[j] == b;
  }

  lemma BeforeLast(s: seq<Id>, a: Id, n: Id)
    requires a in s
    ensures Before(s + [n], a, n)
  {
    var i :| 0 <= i < |s| && s[i] == a;
    var t := s + [n];
    assert t[i] == a && t[|s|] == n;
  }

  lemma BeforeMember(s: seq<Id>, a: Id, b: Id)
    requires Before(s, a, b)
    ensures a in s && b in s
  {
  }

  lemma AfterRelease(edges: seq<Edge>, done: seq<Id>, node: Id, incoming: Adjacency, outgoing: Adjacency, ready: set<Id>,
                     incoming': Adjacency, ready': set<Id>)
    requires Prefix(edges, done) && LeftIn(edges, done, incoming) && LeftOut(edges, done, outgoing)
    requires ReadyOk(edges, done, incoming, ready) && node in ready
    requires incoming'.Keys == incoming.Keys
    requires forall b :: b in incoming' ==>
               incoming'[b] == if b in Get(outgoing, node) then incoming[b] - {node} else incoming[b]
    requires forall b: Id :: b in ready' <==>
               (b in ready && b != node) || (b in Get(outgoing, node) && b in incoming' && incoming'[b] == {})
    ensures LeftIn(edges, done + [node], incoming') && LeftOut(edges, done + [node], outgoing - {node})
    ensures ReadyOk(edges, done + [node], incoming', ready') && Prefix(edges, done + [node])
  {
    hide Nodes, HasEdge, Prefix;
    PutOut(edges, done, node, incoming);
    Targets(edges, done, node, outgoing);
    forall x: Id ensures x in done + [node] <==> x in done || x == node {
      InMember(done, node, x);
    }
    StillLeft(edges, done, node, incoming, incoming', Get(outgoing, node));
    NoNodeNoEdge(edges);
  }

  lemma Targets(edges: seq<Edge>, done: seq<Id>, node: Id, outgoing: Adjacency)
    requires LeftOut(edges, done, outgoing) && node !in done
    ensures forall b: Id :: b in Get(outgoing, node) <==> HasEdge(edges, node, b)
  {
    hide HasEdge;
  }

  lemma StillLeft(edges: seq<Edge>, done: seq<Id>, node: Id, incoming: Adjacency, incoming': Adjacency, targets: set<Id>)
    requires LeftIn(edges, done, incoming) && incoming'.Keys == incoming.Keys
    requires forall b: Id :: b in targets <==> HasEdge(edges, node, b)
    requires forall b :: b in incoming' ==> incoming'[b] == if b in targets then incoming[b] - {node} else incoming[b]
    ensures LeftIn(edges, done + [node], incoming')
  {
    hide HasEdge, Nodes;
    forall a: Id, b: Id | b in incoming' ensures a in incoming'[b] <==> HasEdge(edges, a, b) && a !in done + [node] {
      InMember(done, node, a);
    }
  }

  lemma LeftHasOutgoing(edges: seq<Edge>, u: set<Id>, outgoing: Adjacency, n: Id)
    requires NoStart(edges, u) && n in u
    requires forall a: Id, b: Id :: a in u && HasEdge(edges, a, b) ==> a in outgoing
    ensures outgoing != map[]
  {
    hide HasEdge;
    assert HasPred(edges, u, n);
    var m :| m in u && HasEdge(edges, m, n);
    assert m in outgoing;
  }

  /** With nothing ready and nothing left to go out, everything has been put out; otherwise what is left has no start. */
  lemma Finish(edges: seq<Edge>, done: seq<Id>, incoming: Adjacency, outgoing: Adjacency)
    requires Prefix(edges, done) && LeftIn(edges, done, incoming) && LeftOut(edges, done, outgoing)
    requires ReadyOk(edges, done, incoming, {})
    ensures outgoing == map[] ==> Sorted(edges, done)
    ensures outgoing != map[] ==> !Acyclic(edges)
  {
    hide HasEdge, Before, Unsorted;
    StuckHasNoStart(edges, done, incoming);
    NoNodeNoEdge(edges);
    UnsortedMember(edges, done);
    var u := Unsorted(edges, done);
    hide Nodes;
    if outgoing == map[] {
      if u != {} {
        var n := Inhabited(u);
        LeftHasOutgoing(edges, u, outgoing, n);
      }
    } else {
      var a := Inhabited(outgoing.Keys);
      var b := Inhabited(outgoing[a]);
      assert HasEdge(edges, a, b);
      NoStartHasCycle(edges, u, a);
    }
  }

  lemma Inhabited(s: set<Id>) returns (x: Id)
    requires s != {}
    ensures x in s
  {
    x :| x in s;
  }

  /** The nodes that have not been put out. */
  ghost function Unsorted(edges: seq<Edge>, done: seq<Id>): set<Id> {
    set n | n in Nodes(edges) && n !in done
  }

  lemma UnsortedMember(edges: seq<Edge>, done: seq<Id>)
    ensures forall n: Id :: n in Unsorted(edges, done) <==> n in Nodes(edges) && n !in done
  {
  }

  lemma StuckHasNoStart(edges: seq<Edge>, done: seq<Id>, incoming: Adjacency)
    requires LeftIn(edges, done, incoming) && ReadyOk(edges, done, incoming, {})
    ensures NoStart(edges, Unsorted(edges, done))
  {
    hide HasEdge;
    NoNodeNoEdge(edges);
    hide Nodes;
    var u := Unsorted(edges, done);
    forall n | n in u ensures HasPred(edges, u, n) {
      var m := Inhabited(incoming[n]);
      assert m in u && HasEdge(edges, m, n);
    }
  }

  /** Kahn's algorithm: an order exactly when the graph has no cycle. */
  method TopologicalSort(edges: seq<Edge>) returns (r: Option<seq<Id>>)
    ensures r.Some? <==> Acyclic(edges)
    ensures r.Some? ==> Sorted(edges, r.value)
  {
    hide LeftIn, LeftOut, ReadyOk, Prefix, Sorted, Acyclic, Nodes;
    var incoming, outgoing := BuildMaps(edges);
    var result: seq<Id> := [];
    var noIncoming := FindReady(incoming);
    KahnStart(edges, incoming, noIncoming);
    ghost var rest := Nodes(edges);
    while noIncoming != {}
      invariant Prefix(edges, result) && LeftIn(edges, result, incoming) && LeftOut(edges, result, outgoing)
      invariant ReadyOk(edges, result, incoming, noIncoming)
      invariant forall n: Id :: n in rest <==> n in Nodes(edges) && n !in result
      decreases rest
    {
      var node :| node in noIncoming;
      NodeIsLeft(edges, result, incoming, outgoing, noIncoming, node);
      ghost var (in0, ready0) := (incoming, noIncoming);
      noIncoming := noIncoming - {node};
      incoming, noIncoming := Release(node, Get(outgoing, node), incoming, noIncoming);
      AfterRelease(edges, result, node, in0, outgoing, ready0, incoming, noIncoming);
      result := result + [node];
      rest := rest - {node};
      outgoing := outgoing - {node};
    }
    Finish(edges, result, incoming, outgoing);
    if outgoing == map[] {
      SortedIsAcyclic(edges, result);
      return Some(result);
    }
    return None;
  }

  lemma KahnStart(edges: seq<Edge>, incoming: Adjacency, ready: set<Id>)
    requires LeftIn(edges, [], incoming)
    requires forall n: Id :: n in ready <==> n in incoming && incoming[n] == {}
    ensures ReadyOk(edges, [], incoming, ready) && Prefix(edges, [])
  {
    hide Nodes, HasEdge;
  }

  lemma NodeIsLeft(edges: seq<Edge>, done: seq<Id>, incoming: Adjacency, outgoing: Adjacency, ready: set<Id>, node: Id)
    requires ReadyOk(edges, done, incoming, ready) && node in ready
    requires LeftOut(edges, done, outgoing) && LeftIn(edges, done, incoming)
    ensures node in Nodes(edges) && node !in done && Get(outgoing, node) <= incoming.Keys
  {
    hide Nodes, HasEdge;
    NoNodeNoEdge(edges);
    Targets(edges, done, node, outgoing);
  }

  // ----- the injector -----

  /** A component's dependencies, and whether the injector owns its instance. */
  datatype Component = Component(dependencies: seq<Id>, managed: bool)

  datatype Kind = Initialized | Stopped | Deleted

  datatype Event = Event(kind: Kind, id: Id)

  datatype Outcome =
    | Fine
    | AlreadyInitialized
    | Unregistered
    | Circular
    | InitializationFailed(id: Id)
    | StoppingFailed(ids: seq<Id>)

  /** Every dependency is registered. */
  ghost predicate Complete(components: map<Id, Component>) {
    forall c :: c in components ==>
      forall i :: 0 <= i < |components[c].dependencies| ==> components[c].dependencies[i] in components
  }

  /** A walk along dependencies that ends where it began. */
  ghost predicate IsCircle(components: map<Id, Component>, w: seq<Id>) {
    |w| >= 2 && w[0] == w[|w| - 1] && forall i :: 0 <= i < |w| - 1 ==> DependsOn(components, w[i], w[i + 1])
  }

  ghost predicate CircleFree(components: map<Id, Component>) {
    forall w :: !IsCircle(components, w)
  }

  lemma GraphCircles(components: map<Id, Component>, edges: seq<Edge>)
    requires IsGraph(components, edges)
    ensures Acyclic(edges) <==> CircleFree(components)
  {
    hide DependsOn, HasEdge;
    forall w: seq<Id>
      ensures IsCycle(edges, w) <==> IsCircle(components, w)
    {
      assert forall i :: 0 <= i < |w| - 1 ==> (HasEdge(edges, w[i + 1], w[i]) <==> DependsOn(components, w[i], w[i + 1]));
    }
  }

  ghost predicate DependsOn(components: map<Id, Component>, c: Id, d: Id) {
    c in components && d in components[c].dependencies
  }

  /** The injector owns a component and what it depends on. */
  ghost predicate BothManaged(components: map<Id, Component>, c: Id, d: Id) {
    DependsOn(components, c, d) && d in components && components[c].managed && components[d].managed
  }

  /** The edges lead from a dependency to the component that needs it. */
  ghost predicate IsGraph(components: map<Id, Component>, edges: seq<Edge>) {
    forall d: Id, c: Id :: HasEdge(edges, d, c) <==> DependsOn(components, c, d)
  }

  function Reversed(s: seq<Id>): (r: seq<Id>)
    ensures |r| == |s| && forall i :: 0 <= i < |s| ==> r[i] == s[|s| - 1 - i]
  {
    seq(|s|, i requires 0 <= i < |s| => s[|s| - 1 - i])
  }

  ghost function Events(kind: Kind, order: seq<Id>): (r: seq<Event>)
    ensures |r| == |order| && forall i :: 0 <= i < |r| ==> r[i] == Event(kind, order[i])
  {
    seq(|order|, i requires 0 <= i < |order| => Event(kind, order[i]))
  }

  /** The components whose instances the injector deletes, in order. */
  function Owned(components: map<Id, Component>, order: seq<Id>): (r: seq<Id>)
    ensures forall n :: n in r <==> n in order && n in components && components[n].managed
  {
    if order == [] then []
    else
      var last := order[|order| - 1];
      assert order == order[..|order| - 1] + [last];
      Owned(components, order[..|order| - 1]) + if last in components && components[last].managed then [last] else []
  }

  /** The components that fail to stop, in order. */
  ghost function Failing(order: seq<Id>, throws: Id -> bool): (r: seq<Id>)
    ensures forall n :: n in r <==> n in order && throws(n)
  {
    if order == [] then []
    else
      var last := order[|order| - 1];
      assert order == order[..|order| - 1] + [last];
      Failing(order[..|order| - 1], throws) + if throws(last) then [last] else []
  }

  lemma NoneFailing(order: seq<Id>, throws: Id -> bool)
    ensures Failing(order[..0], throws) == []
  {
  }

  lemma FailingStep(order: seq<Id>, throws: Id -> bool, i: nat)
    requires i < |order|
    ensures Failing(order[..i + 1], throws) ==
              if throws(order[i]) then Failing(order[..i], throws) + [order[i]] else Failing(order[..i], throws)
  {
    assert order[..i + 1][..i] == order[..i];
  }

  class Injector {
    const components: map<Id, Component>
    var initialized: bool
    var stopped: bool
    var instances: set<Id>
    var destructionOrder: seq<Id>
    var log: seq<Event>

    constructor (components: map<Id, Component>)
      ensures this.components == components && !initialized && stopped && instances == {} && destructionOrder == [] && log == []
    {
      this.components := components;
      initialized, stopped, instances, destructionOrder, log := false, true, {}, [], [];
    }

    /** Whether all dependencies are registered. */
    method CheckDependencies() returns (ok: bool)
      ensures ok == Complete(components)
    {
      ok := true;
      var keys := components.Keys;
      while keys != {}
        invariant keys <= components.Keys
        invariant ok <==> forall c :: c in components && c !in keys ==>
                    forall i :: 0 <= i < |components[c].dependencies| ==> components[c].dependencies[i] in components
        decreases keys
      {
        var c :| c in keys;
        var deps := components[c].dependencies;
        var here := true;
        var i := 0;
        while i < |deps|
          invariant 0 <= i <= |deps| && (here <==> forall k :: 0 <= k < i ==> deps[k] in components)
        {
          if deps[i] !in components {
            here := false;
          }
          i := i + 1;
        }
        ok := ok && here;
        keys := keys - {c};
      }
    }

    method BuildGraph() returns (edges: seq<Edge>)
      ensures IsGraph(components, edges)
    {
      hide HasEdge;
      NoEdgeInNone();
      edges := [];
      var keys := components.Keys;
      while keys != {}
        invariant keys <= components.Keys
        invariant forall d: Id, c: Id :: HasEdge(edges, d, c) <==> c !in keys && DependsOn(components, c, d)
        decreases keys
      {
        var c :| c in keys;
        var more := EdgesOf(c, components[c].dependencies);
        EdgeConcat(edges, more);
        edges := edges + more;
        keys := keys - {c};
      }
    }

    /** An order in which dependencies come first, if all are registered and there is no circle. */
    method DetermineInitializationOrder() returns (outcome: Outcome, order: seq<Id>)
      ensures outcome in {Fine, Unregistered, Circular}
      ensures outcome == Unregistered <==> !Complete(components)
      ensures outcome == Circular <==> Complete(components) && !CircleFree(components)
      ensures outcome == Fine ==> InitOrder(components, order)
    {
      hide Complete, IsGraph, Acyclic, Sorted, CircleFree, InitOrder;
      order := [];
      var ok := CheckDependencies();
      if !ok {
        return Unregistered, order;
      }
      var edges := BuildGraph();
      var r := TopologicalSort(edges);
      GraphCircles(components, edges);
      if r.None? {
        return Circular, order;
      }
      GraphOrder(components, r.value);
      return Fine, r.value;
    }

    /** Brings the components up in order. A failing initializer stops there: what is up stays up, and nothing is left to stop or
        delete later. */
    method Initialize(throws: Id -> bool) returns (outcome: Outcome, ghost order: seq<Id>)
      requires !initialized ==> instances == {}
      modifies this
      ensures initialized
      ensures outcome == AlreadyInitialized <==> old(initialized)
      ensures outcome == Unregistered <==> !old(initialized) && !Complete(components)
      ensures outcome == Circular <==> !old(initialized) && Complete(components) && !CircleFree(components)
      ensures outcome in {AlreadyInitialized, Unregistered, Circular} ==> log == old(log) && instances == old(instances)
      ensures outcome != Fine ==> stopped == old(stopped) && destructionOrder == old(destructionOrder)
      ensures outcome == Fine ==>
                && InitOrder(components, order) && (forall n :: n in order ==> !throws(n))
                && !stopped && destructionOrder == Reversed(order)
                && log == old(log) + Events(Initialized, order) && instances == Members(order)
      ensures outcome.InitializationFailed? ==>
                && InitOrder(components, order) && outcome.id in order && throws(outcome.id)
                && var up := order[..Position(order, outcome.id)];
                && (forall n :: n in up ==> !throws(n))
                && log == old(log) + Events(Initialized, up) && instances == Members(up)
      ensures !outcome.StoppingFailed?
    {
      hide Complete, Acyclic, Sorted, IsGraph, InitOrder, Position, Members, DependsOn, CircleFree;
      order := [];
      if initialized {
        return AlreadyInitialized, order;
      }
      initialized := true;
      var o, result := DetermineInitializationOrder();
      if o != Fine {
        return o, order;
      }
      order := result;
      ghost var start := log;
      var i := 0;
      NoMembers(order);
      while i < |result|
        invariant 0 <= i <= |result| && instances == Members(result[..i])
        invariant log == start + Events(Initialized, result[..i])
        invariant forall k :: 0 <= k < i ==> !throws(result[k])
        modifies this`instances, this`log
      {
        var c := result[i];
        DependenciesUp(components, result, i);
        assert forall k :: 0 <= k < |components[c].dependencies| ==> components[c].dependencies[k] in instances;
        if throws(c) {
          PositionIs(components, result, i);
          return InitializationFailed(c), order;
        }
        MembersStep(result, i);
        instances := instances + {c};
        log := log + [Event(Initialized, c)];
        i := i + 1;
      }
      assert result[..i] == result;
      destructionOrder := Reversed(result);
      stopped := false;
      return Fine, order;
    }

    /** Stops the components in the reverse order, once; a stopper that fails does not keep the others from being stopped. */
    method Stop(throws: Id -> bool) returns (outcome: Outcome)
      modifies this`stopped, this`log
      ensures stopped
      ensures log == old(log) + if old(stopped) then [] else Events(Stopped, destructionOrder)
      ensures var failing := Failing(destructionOrder, throws);
              outcome == if old(stopped) || failing == [] then Fine else StoppingFailed(failing)
    {
      hide Failing;
      if stopped {
        return Fine;
      }
      stopped := true;
      var errors: seq<Id> := [];
      var i := 0;
      NoneFailing(destructionOrder, throws);
      ghost var start := log;
      while i < |destructionOrder|
        invariant 0 <= i <= |destructionOrder|
        invariant log == start + Events(Stopped, destructionOrder[..i])
        invariant errors == Failing(destructionOrder[..i], throws)
        modifies this`log
      {
        var n := destructionOrder[i];
        log := log + [Event(Stopped, n)];
        FailingStep(destructionOrder, throws, i);
        if throws(n) {
          errors := errors + [n];
        }
        i := i + 1;
      }
      assert destructionOrder[..i] == destructionOrder;
      outcome := if errors != [] then StoppingFailed(errors) else Fine;
    }

    /** Stops what is running and deletes what the injector owns, in the reverse order. */
    method Destroy(throws: Id -> bool)
      modifies this`initialized, this`stopped, this`log
      ensures !old(initialized) ==> log == old(log)
      ensures old(initialized) ==>
                log == old(log) + (if old(stopped) then [] else Events(Stopped, destructionOrder))
                       + Events(Deleted, Owned(components, destructionOrder))
    {
      if !initialized {
        initialized := true;
        return;
      }
      var _ := Stop(throws);
      DeleteOwned();
    }

    method DeleteOwned()
      modifies this`log
      ensures log == old(log) + Events(Deleted, Owned(components, destructionOrder))
    {
      hide Owned, Events;
      ghost var start := log;
      var i := 0;
      OwnedNone(components);
      NoEvents(Deleted, start);
      assert destructionOrder[..0] == [];
      while i < |destructionOrder|
        invariant 0 <= i <= |destructionOrder|
        invariant log == start + Events(Deleted, Owned(components, destructionOrder[..i]))
      {
        var n := destructionOrder[i];
        OwnedStep(components, destructionOrder, i);
        if n in components && components[n].managed {
          OneMore(Deleted, start, Owned(components, destructionOrder[..i]), n);
          log := log + [Event(Deleted, n)];
        } else {
          assert Owned(components, destructionOrder[..i]) + [] == Owned(components, destructionOrder[..i]);
        }
        i := i + 1;
      }
      assert destructionOrder[..i] == destructionOrder;
    }
  }

  lemma NoEvents(kind: Kind, start: seq<Event>)
    ensures start + Events(kind, []) == start
  {
  }

  lemma OneMore(kind: Kind, start: seq<Event>, order: seq<Id>, n: Id)
    ensures start + Events(kind, order + [n]) == start + Events(kind, order) + [Event(kind, n)]
  {
  }

  /** Exactly the components with a dependency or a dependent, each once, dependencies first. */
  ghost predicate InitOrder(components: map<Id, Component>, order: seq<Id>) {
    && Distinct(order)
    && (forall n: Id :: n in order <==> TakesPart(components, n))
    && (forall n :: n in order ==> n in components)
    && (forall c: Id, d: Id :: DependsOn(components, c, d) ==> Before(order, d, c))
  }

  ghost predicate TakesPart(components: map<Id, Component>, n: Id) {
    exists m: Id :: DependsOn(components, n, m) || DependsOn(components, m, n)
  }

  lemma GraphOrder(components: map<Id, Component>, order: seq<Id>)
    requires Complete(components)
    requires exists edges :: IsGraph(components, edges) && Sorted(edges, order)
    ensures InitOrder(components, order)
  {
    hide Before, Distinct;
    var edges :| IsGraph(components, edges) && Sorted(edges, order);
    forall n: Id ensures n in order <==> TakesPart(components, n) {
      NodeTakesPart(components, edges, n);
    }
    forall n: Id | n in order ensures n in components {
      assert TakesPart(components, n);
      var m: Id :| DependsOn(components, n, m) || DependsOn(components, m, n);
      Registered(components, m, n);
    }
    hide DependsOn, HasEdge;
    forall c: Id, d: Id | DependsOn(components, c, d) ensures Before(order, d, c) {
      assert HasEdge(edges, d, c);
    }
  }

  lemma Registered(components: map<Id, Component>, c: Id, d: Id)
    requires Complete(components)
    ensures DependsOn(components, c, d) ==> d in components
  {
  }

  lemma NodeTakesPart(components: map<Id, Component>, edges: seq<Edge>, n: Id)
    requires IsGraph(components, edges)
    ensures n in Nodes(edges) <==> TakesPart(components, n)
  {
    hide DependsOn;
    if n in Nodes(edges) {
      var e :| e in edges && (e.0 == n || e.1 == n);
      assert HasEdge(edges, e.0, e.1);
    }
    if TakesPart(components, n) {
      var m: Id :| DependsOn(components, n, m) || DependsOn(components, m, n);
      assert HasEdge(edges, m, n) || HasEdge(edges, n, m);
      NoNodeNoEdge(edges);
    }
  }

  ghost function Members(s: seq<Id>): set<Id> {
    set n | n in s
  }

  lemma NoMembers(s: seq<Id>)
    ensures Members(s[..0]) == {}
  {
  }

  lemma MembersStep(s: seq<Id>, i: nat)
    requires i < |s|
    ensures Members(s[..i + 1]) == Members(s[..i]) + {s[i]}
  {
    assert s[..i + 1] == s[..i] + [s[i]];
  }

  /** When a component is brought up, everything it depends on is up. */
  lemma DependenciesUp(components: map<Id, Component>, order: seq<Id>, i: nat)
    requires InitOrder(components, order) && i < |order|
    ensures order[i] in components
    ensures forall k :: 0 <= k < |components[order[i]].dependencies| ==>
              components[order[i]].dependencies[k] in Members(order[..i])
  {
    var c := order[i];
    assert c in order;
    forall k | 0 <= k < |components[c].dependencies| ensures components[c].dependencies[k] in Members(order[..i]) {
      var d := components[c].dependencies[k];
      assert DependsOn(components, c, d);
      var x, y :| 0 <= x < y < |order| && order[x] == d && order[y] == c;
      assert y == i;
      assert order[..i][x] == d;
    }
  }

  lemma PositionIs(components: map<Id, Component>, order: seq<Id>, i: nat)
    requires InitOrder(components, order) && i < |order|
    ensures order[i] in order && Position(order, order[i]) == i
  {
    var p := Position(order, order[i]);
  }

  lemma OwnedNone(components: map<Id, Component>)
    ensures Owned(components, []) == []
  {
  }

  lemma OwnedStep(components: map<Id, Component>, order: seq<Id>, i: nat)
    requires i < |order|
    ensures var n := order[i];
            Owned(components, order[..i + 1])
            == Owned(components, order[..i]) + if n in components && components[n].managed then [n] else []
  {
    assert order[..i + 1][..i] == order[..i];
  }

  lemma ReversedBefore(order: seq<Id>, a: Id, b: Id)
    requires Before(order, a, b)
    ensures Before(Reversed(order), b, a)
  {
    var i, j :| 0 <= i < j < |order| && order[i] == a && order[j] == b;
    var r := Reversed(order);
    var n := |order| - 1;
    assert r[n - j] == b && r[n - i] == a;
  }

  lemma {:induction false} OwnedBefore(components: map<Id, Component>, order: seq<Id>, a: Id, b: Id)
    requires Before(order, a, b) && a in components && b in components && components[a].managed && components[b].managed
    ensures Before(Owned(components, order), a, b)
  {
    hide Owned;
    var i, j :| 0 <= i < j < |order| && order[i] == a && order[j] == b;
    var n := |order| - 1;
    OwnedStep(components, order, n);
    assert order[..n + 1] == order;
    var short := Owned(components, order[..n]);
    if j < n {
      assert order[..n][i] == a && order[..n][j] == b;
      OwnedBefore(components, order[..n], a, b);
      BeforeLonger(short, a, b, order[n]);
      assert short + [] == short;
    } else {
      assert order[..n][i] == a;
      BeforeLast(short, a, b);
    }
  }

  /** Up and down again: what a component depends on is initialised before it, and is stopped and deleted after it. */
  method Lifecycle(components: map<Id, Component>, initThrows: Id -> bool, stopThrows: Id -> bool)
    returns (outcome: Outcome, log: seq<Event>, ghost up: seq<Id>, ghost down: seq<Id>, ghost deleted: seq<Id>)
    ensures outcome == Fine <==>
              Complete(components) && CircleFree(components) && forall n :: TakesPart(components, n) ==> !initThrows(n)
    ensures outcome == Fine ==>
              && log == Events(Initialized, up) + Events(Stopped, down) + Events(Deleted, deleted)
              && Distinct(up) && (forall n: Id :: n in up <==> TakesPart(components, n))
              && down == Reversed(up) && deleted == Owned(components, down)
              && (forall c: Id, d: Id :: DependsOn(components, c, d) ==> Before(up, d, c) && Before(down, c, d))
              && (forall c: Id, d: Id :: BothManaged(components, c, d) ==> Before(deleted, c, d))
    ensures outcome != Fine && !outcome.InitializationFailed? ==> log == []
    ensures outcome.InitializationFailed? ==>
              outcome.id in up && log == Events(Initialized, up[..Position(up, outcome.id)])
  {
    hide InitOrder, Complete, Before, Owned, CircleFree, TakesPart;
    var injector := new Injector(components);
    up, down, deleted := [], [], [];
    outcome, up := injector.Initialize(initThrows);
    if outcome == Fine || outcome.InitializationFailed? {
      OrderIsAll(components, up);
    }
    if outcome == Fine {
      down := injector.destructionOrder;
      deleted := Owned(components, down);
      InOrder(components, up);
    }
    OwnedNone(components);
    injector.Destroy(stopThrows);
    log := injector.log;
  }

  /** A component that needs nothing and is not needed is never brought up, although the injector comes up fine. */
  method LoneComponent(lone: Id) returns (outcome: Outcome, log: seq<Event>)
    ensures outcome == Fine && log == []
  {
    hide Position, Before, CircleFree, Complete;
    var components := map[lone := Component([], true)];
    ghost var up, down, deleted;
    LoneFacts(components, lone);
    outcome, log, up, down, deleted := Lifecycle(components, _ => false, _ => false);
    NoMember(up);
  }

  lemma NoMember(s: seq<Id>)
    ensures (forall n: Id :: n !in s) <==> s == []
  {
    if s != [] {
      assert s[0] in s;
    }
  }

  lemma LoneFacts(components: map<Id, Component>, lone: Id)
    requires components == map[lone := Component([], true)]
    ensures Complete(components) && CircleFree(components) && forall n: Id :: !TakesPart(components, n)
  {
    forall w: seq<Id>
      ensures !IsCircle(components, w)
    {
      assert |w| >= 2 ==> !DependsOn(components, w[0], w[0 + 1]);
    }
  }

  lemma OrderIsAll(components: map<Id, Component>, order: seq<Id>)
    requires InitOrder(components, order)
    ensures Distinct(order)
    ensures forall n: Id :: n in order <==> TakesPart(components, n)
  {
    hide TakesPart;
  }

  lemma InOrder(components: map<Id, Component>, order: seq<Id>)
    requires InitOrder(components, order)
    ensures forall c: Id, d: Id :: DependsOn(components, c, d) ==> Before(order, d, c) && Before(Reversed(order), c, d)
    ensures forall c: Id, d: Id :: BothManaged(components, c, d) ==> Before(Owned(components, Reversed(order)), c, d)
  {
    hide Before, Owned;
    forall c: Id, d: Id | DependsOn(components, c, d) ensures Before(order, d, c) && Before(Reversed(order), c, d) {
      ReversedBefore(order, d, c);
    }
    forall c: Id, d: Id | BothManaged(components, c, d)
      ensures Before(Owned(components, Reversed(order)), c, d)
    {
      OwnedBefore(components, Reversed(order), c, d);
    }
  }

  lemma NoEdgeInNone()
    ensures forall a: Id, b: Id :: !HasEdge([], a, b)
  {
  }

  lemma EdgeConcat(s: seq<Edge>, t: seq<Edge>)
    ensures forall a: Id, b: Id :: HasEdge(s + t, a, b) <==> HasEdge(s, a, b) || HasEdge(t, a, b)
  {
  }

  method EdgesOf(c: Id, deps: seq<Id>) returns (edges: seq<Edge>)
    ensures forall d: Id, x: Id :: HasEdge(edges, d, x) <==> x == c && d in deps
  {
    edges := [];
    var i := 0;
    while i < |deps|
      invariant 0 <= i <= |deps|
      invariant forall d: Id, x: Id :: HasEdge(edges, d, x) <==> x == c && d in deps[..i]
    {
      EdgeConcat(edges, [(deps[i], c)]);
      edges := edges + [(deps[i], c)];
      assert deps[..i + 1] == deps[..i] + [deps[i]];
      i := i + 1;
    }
    assert deps[..i] == deps;
  }
}
