/** Directed graphs over execution vertices, reachability and strong connection. */
module Graphs {

  /** A vertex is the 64-bit table key of an instance. */
  type Vertex = nat

  /** The out-edges of every vertex of the domain; targets may lie outside it. */
  type Graph = map<Vertex, set<Vertex>>

  predicate Edge(g: Graph, a: Vertex, b: Vertex) {
    a in g && b in g[a]
  }

  /** Every edge leads to a vertex of the domain. */
  ghost predicate Closed(g: Graph) {
    forall a, b :: Edge(g, a, b) ==> b in g
  }

  /** No edge leaves S. */
  ghost predicate ClosedUnder(g: Graph, S: set<Vertex>) {
    forall a, b :: a in S && Edge(g, a, b) ==> b in S
  }

  ghost predicate ReachIn(g: Graph, a: Vertex, b: Vertex, n: nat)
    decreases n
  {
    if n == 0 then a == b
    else exists m :: Edge(g, a, m) && ReachIn(g, m, b, n - 1)
  }

  /** b can be reached from a along zero or more edges. */
  ghost predicate Reach(g: Graph, a: Vertex, b: Vertex) {
    exists n: nat :: ReachIn(g, a, b, n)
  }

  ghost predicate SameScc(g: Graph, a: Vertex, b: Vertex) {
    Reach(g, a, b) && Reach(g, b, a)
  }

  /** The part of g between the vertices of W. */
  function Restrict(g: Graph, W: set<Vertex>): Graph {
    map a | a in W && a in g :: g[a] * W
  }

  lemma ReachSelf(g: Graph, a: Vertex)
    ensures Reach(g, a, a)
  {
    assert ReachIn(g, a, a, 0);
  }

  lemma ReachStep(g: Graph, a: Vertex, m: Vertex, b: Vertex)
    requires Edge(g, a, m) && Reach(g, m, b)
    ensures Reach(g, a, b)
  {
    var n: nat :| ReachIn(g, m, b, n);
    assert ReachIn(g, a, b, n + 1);
  }

  lemma ReachEdge(g: Graph, a: Vertex, b: Vertex)
    requires Edge(g, a, b)
    ensures Reach(g, a, b)
  {
    ReachSelf(g, b);
    ReachStep(g, a, b, b);
  }

  lemma {:induction false} ReachInTrans(g: Graph, a: Vertex, b: Vertex, c: Vertex, n: nat)
    requires ReachIn(g, a, b, n) && Reach(g, b, c)
    ensures Reach(g, a, c)
    decreases n
  {
    if n > 0 {
      var m :| Edge(g, a, m) && ReachIn(g, m, b, n - 1);
      ReachInTrans(g, m, b, c, n - 1);
      ReachStep(g, a, m, c);
    }
  }

  lemma ReachTrans(g: Graph, a: Vertex, b: Vertex, c: Vertex)
    requires Reach(g, a, b) && Reach(g, b, c)
    ensures Reach(g, a, c)
  {
    var n: nat :| ReachIn(g, a, b, n);
    ReachInTrans(g, a, b, c, n);
  }

  /** A path that leaves S crosses an edge out of S. */
  lemma {:induction false} CrossingIn(g: Graph, S: set<Vertex>, a: Vertex, b: Vertex, n: nat)
    returns (u: Vertex, v: Vertex)
    requires ReachIn(g, a, b, n) && a in S && b !in S
    ensures u in S && v !in S && Edge(g, u, v) && Reach(g, a, u) && Reach(g, v, b)
    decreases n
  {
    var m :| Edge(g, a, m) && ReachIn(g, m, b, n - 1);
    if m in S {
      u, v := CrossingIn(g, S, m, b, n - 1);
      ReachStep(g, a, m, u);
    } else {
      u, v := a, m;
      ReachSelf(g, a);
      assert Reach(g, m, b);
    }
  }

  lemma Crossing(g: Graph, S: set<Vertex>, a: Vertex, b: Vertex) returns (u: Vertex, v: Vertex)
    requires Reach(g, a, b) && a in S && b !in S
    ensures u in S && v !in S && Edge(g, u, v) && Reach(g, a, u) && Reach(g, v, b)
  {
    var n: nat :| ReachIn(g, a, b, n);
    u, v := CrossingIn(g, S, a, b, n);
  }

  lemma ReachStaysInside(g: Graph, S: set<Vertex>, a: Vertex, b: Vertex)
    requires ClosedUnder(g, S) && a in S && Reach(g, a, b)
    ensures b in S
  {
    if b !in S {
      var u, v := Crossing(g, S, a, b);
      assert false;
    }
  }

  lemma {:induction false} ReachInMono(g: Graph, h: Graph, a: Vertex, b: Vertex, n: nat)
    requires forall x, y :: Edge(g, x, y) ==> Edge(h, x, y)
    requires ReachIn(g, a, b, n)
    ensures Reach(h, a, b)
    decreases n
  {
    if n == 0 {
      ReachSelf(h, a);
    } else {
      var m :| Edge(g, a, m) && ReachIn(g, m, b, n - 1);
      ReachInMono(g, h, m, b, n - 1);
      ReachStep(h, a, m, b);
    }
  }

  /** Adding edges keeps reachability. */
  lemma ReachMono(g: Graph, h: Graph, a: Vertex, b: Vertex)
    requires forall x, y :: Edge(g, x, y) ==> Edge(h, x, y)
    requires Reach(g, a, b)
    ensures Reach(h, a, b)
  {
    var n: nat :| ReachIn(g, a, b, n);
    ReachInMono(g, h, a, b, n);
  }

  lemma RestrictReach(g: Graph, W: set<Vertex>, a: Vertex, b: Vertex)
    requires Reach(Restrict(g, W), a, b)
    ensures Reach(g, a, b)
  {
    ReachMono(Restrict(g, W), g, a, b);
  }
}
