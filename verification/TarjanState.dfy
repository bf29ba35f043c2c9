/** The value a running component search has computed so far, what it keeps true, and
    why each step of the search keeps it. */
module TarjanStates {
  import opened Graphs

  /** index and low are the node fields (-1 for "not visited"), stack is the linked stack
      from its head, sccs are the components written so far, part is the one being
      written, comp gives the component number of every vertex in sccs. */
  datatype TState = TState(
    index: map<Vertex, int>,
    low: map<Vertex, int>,
    stack: seq<Vertex>,
    onStack: set<Vertex>,
    sccs: seq<seq<Vertex>>,
    part: seq<Vertex>,
    comp: map<Vertex, nat>,
    next: int)

  function Fresh(g: Graph): TState {
    TState(map v | v in g :: -1, map v | v in g :: -1, [], {}, [], [], map[], 0)
  }

  ghost predicate Visited(s: TState, v: Vertex) {
    v in s.index && s.index[v] >= 0
  }

  ghost function Unvisited(g: Graph, s: TState): set<Vertex> {
    set v | v in g && !Visited(s, v)
  }

  ghost predicate Holds(s: TState) {
    && (forall i :: 0 <= i < |s.stack| ==> s.stack[i] in s.onStack)
    && (forall v :: v in s.onStack ==> v in s.stack && v in s.index)
  }

  /** The stack holds each of its vertices once, the latest visited first. */
  ghost predicate StackOk(s: TState) {
    && Holds(s)
    && (forall i, j :: 0 <= i < j < |s.stack| ==> s.index[s.stack[i]] > s.index[s.stack[j]])
  }

  ghost predicate Shape(g: Graph, s: TState) {
    && s.index.Keys == g.Keys
    && s.low.Keys == g.Keys
    && (forall v :: v in s.index ==> -1 <= s.index[v] < s.next)
    && s.onStack <= g.Keys
    && StackOk(s)
    && s.comp.Keys <= g.Keys
    && (forall v :: v in s.index ==> (s.index[v] >= 0 <==> v in s.onStack || v in s.comp))
    && s.onStack !! s.comp.Keys
    && s.next >= 0
  }

  /** comp numbers exactly the vertices of the rows, each of which occurs once. */
  ghost predicate CompRows(sccs: seq<seq<Vertex>>, comp: map<Vertex, nat>) {
    && (forall v :: v in comp ==> comp[v] < |sccs| && v in sccs[comp[v]])
    && (forall p, i :: 0 <= p < |sccs| && 0 <= i < |sccs[p]| ==> sccs[p][i] in comp && comp[sccs[p][i]] == p)
    && (forall p, i, j :: 0 <= p < |sccs| && 0 <= i < j < |sccs[p]| ==> sccs[p][i] != sccs[p][j])
    && (forall p :: 0 <= p < |sccs| ==> |sccs[p]| > 0)
  }

  /** An edge from a component leads into it or into an earlier one. */
  ghost predicate CompEdges(g: Graph, comp: map<Vertex, nat>) {
    forall a, b :: a in comp && Edge(g, a, b) ==> b in comp && comp[b] <= comp[a]
  }

  ghost predicate CompStrong(g: Graph, comp: map<Vertex, nat>) {
    forall a, b :: a in comp && b in comp && comp[a] == comp[b] ==> Reach(g, a, b)
  }

  ghost predicate CompOk(g: Graph, sccs: seq<seq<Vertex>>, comp: map<Vertex, nat>) {
    CompRows(sccs, comp) && CompEdges(g, comp) && CompStrong(g, comp)
  }

  /** Vertices whose visit is complete have no edge to an unvisited vertex. */
  ghost predicate NoWhite(g: Graph, s: TState, gray: set<Vertex>) {
    forall a, b :: Edge(g, a, b) && Visited(s, a) && a !in gray ==> Visited(s, b)
  }

  /** An earlier stack entry reaches every later one. */
  ghost predicate StackReach(g: Graph, s: TState)
    requires s.onStack <= s.index.Keys
  {
    forall x, y :: x in s.onStack && y in s.onStack && s.index[x] <= s.index[y] ==> Reach(g, x, y)
  }

  ghost predicate ReachesGray(g: Graph, s: TState, gray: set<Vertex>, y: Vertex) {
    exists z :: z in gray && z in s.index && y in s.index && s.index[z] <= s.index[y] && Reach(g, y, z)
  }

  /** Between visits: gray are the vertices whose visit is under way. */
  ghost predicate WF(g: Graph, s: TState, gray: set<Vertex>) {
    && Shape(g, s)
    && CompOk(g, s.sccs, s.comp)
    && gray <= s.onStack
    && NoWhite(g, s, gray)
    && StackReach(g, s)
    && (forall y {:trigger ReachesGray(g, s, gray, y)} :: y in s.onStack ==> ReachesGray(g, s, gray, y))
  }

  ghost predicate Suffix(t: seq<Vertex>, u: seq<Vertex>) {
    |t| >= |u| && t[|t| - |u|..] == u
  }

  /** What a visit never undoes. */
  ghost predicate Extends(s0: TState, s: TState) {
    && s0.index.Keys == s.index.Keys && s0.low.Keys == s.low.Keys
    && (forall v :: Visited(s0, v) ==> v in s.index && s.index[v] == s0.index[v])
    && (forall v :: Visited(s0, v) && v in s0.low ==> v in s.low && s.low[v] == s0.low[v])
    && |s0.sccs| <= |s.sccs| && s.sccs[..|s0.sccs|] == s0.sccs
    && (forall v :: v in s0.comp ==> v in s.comp && s.comp[v] == s0.comp[v])
    && Suffix(s.stack, s0.stack)
    && s0.onStack <= s.onStack
    && s0.next <= s.next
    && s.part == s0.part
  }

  /** low of x is the index of a stack entry that x reaches. */
  ghost predicate LowOk(g: Graph, s: TState, x: Vertex) {
    x in s.low && exists y :: y in s.onStack && y in s.index && s.index[y] == s.low[x] && Reach(g, x, y)
  }

  ghost predicate VisitPre(g: Graph, s: TState, gray: set<Vertex>, x: Vertex) {
    && Closed(g)
    && WF(g, s, gray)
    && x in g && !Visited(s, x)
    && (forall z :: z in gray ==> Reach(g, z, x))
  }

  /** Every edge from a new stack entry to an entry of the old stack is counted in low of x. */
  ghost predicate Cut(g: Graph, s0: TState, s: TState, x: Vertex, but: set<Vertex>) {
    forall a, y :: a in s.onStack && a !in s0.onStack && a !in but && y in s0.onStack && Edge(g, a, y) ==>
      x in s.low && y in s.index && s.low[x] <= s.index[y]
  }

  ghost predicate VisitPost(g: Graph, s0: TState, s: TState, gray: set<Vertex>, x: Vertex) {
    && WF(g, s, gray)
    && Extends(s0, s)
    && Visited(s, x)
    && x in s.low
    && Cut(g, s0, s, x, {})
    && (x in s.comp ==> s.low[x] >= s0.next)
    && (x in s.onStack ==> s.low[x] < s.index[x] && LowOk(g, s, x))
  }

  /** In the visit of x begun at s0, all out-edges of x but those to todo are followed. */
  ghost predicate Exploring(g: Graph, s0: TState, s: TState, gray: set<Vertex>, x: Vertex, todo: set<Vertex>) {
    && VisitPre(g, s0, gray, x)
    && WF(g, s, gray + {x})
    && Extends(s0, s)
    && Suffix(s.stack, [x] + s0.stack)
    && s.index[x] == s0.next
    && LowOk(g, s, x)
    && s.low[x] <= s.index[x]
    && Cut(g, s0, s, x, {x})
    && EdgesDone(g, s0, s, x, todo)
  }

  ghost predicate EdgesDone(g: Graph, s0: TState, s: TState, x: Vertex, todo: set<Vertex>) {
    forall d :: Edge(g, x, d) && d !in todo ==>
      Visited(s, d) && (d in s0.onStack ==> x in s.low && s.low[x] <= s.index[d])
  }

  // ---------- steps of a visit ----------

  function Enter(s: TState, x: Vertex): TState {
    s.(index := s.index[x := s.next], low := s.low[x := s.next], next := s.next + 1,
       stack := [x] + s.stack, onStack := s.onStack + {x})
  }

  function WithLow(s: TState, x: Vertex, l: int): TState {
    s.(low := s.low[x := l])
  }

  function Min(a: int, b: int): int {
    if a < b then a else b
  }

  lemma EnterStackOk(s: TState, x: Vertex)
    requires StackOk(s) && x !in s.onStack
    requires forall v :: v in s.onStack ==> s.index[v] < s.next
    ensures StackOk(Enter(s, x))
  {
    var t := Enter(s, x);
    assert forall i :: 0 < i < |t.stack| ==> t.stack[i] == s.stack[i - 1] && t.stack[i] != x;
  }

  lemma EnterShape(g: Graph, s: TState, x: Vertex)
    requires Shape(g, s) && x in g && !Visited(s, x)
    ensures Shape(g, Enter(s, x))
  {
    assert x !in s.onStack && x !in s.comp;
    assert forall v :: v in s.onStack ==> v in s.index && s.index[v] < s.next;
    EnterStackOk(s, x);
    hide StackOk;
  }

  lemma EnterExtends(g: Graph, s: TState, x: Vertex)
    requires Shape(g, s) && x in g && !Visited(s, x)
    ensures Extends(s, Enter(s, x)) && Suffix(Enter(s, x).stack, [x] + s.stack)
  {
    hide StackOk;
    var t := Enter(s, x);
    assert t.stack[1..] == s.stack;
    assert t.stack[0..] == [x] + s.stack;
    assert t.sccs[..|s.sccs|] == s.sccs;
  }

  lemma EnterReach(g: Graph, s: TState, gray: set<Vertex>, x: Vertex)
    requires VisitPre(g, s, gray, x)
    ensures StackReach(g, Enter(s, x))
    ensures forall y :: y in s.onStack ==> Reach(g, y, x)
  {
    var t := Enter(s, x);
    forall y | y in s.onStack ensures Reach(g, y, x) {
      assert ReachesGray(g, s, gray, y);
      var z :| z in gray && Reach(g, y, z);
      ReachTrans(g, y, z, x);
    }
    ReachSelf(g, x);
  }

  lemma EnterGray(g: Graph, s: TState, gray: set<Vertex>, x: Vertex)
    requires VisitPre(g, s, gray, x)
    ensures forall y :: y in Enter(s, x).onStack ==> ReachesGray(g, Enter(s, x), gray + {x}, y)
  {
    hide Reach, StackOk, CompRows, CompEdges, CompStrong;
    var t := Enter(s, x);
    ReachSelf(g, x);
    forall y | y in t.onStack ensures ReachesGray(g, t, gray + {x}, y) {
      if y == x {
        assert x in gray + {x} && Reach(g, y, x);
      } else {
        assert ReachesGray(g, s, gray, y);
        var z :| z in gray && z in s.index && s.index[z] <= s.index[y] && Reach(g, y, z);
        assert z in gray + {x} && z != x;
      }
    }
  }

  lemma EnterNoWhite(g: Graph, s: TState, gray: set<Vertex>, x: Vertex)
    requires VisitPre(g, s, gray, x)
    ensures NoWhite(g, Enter(s, x), gray + {x})
  {
    hide Reach, StackOk, CompRows, CompEdges, CompStrong, StackReach;
    var t := Enter(s, x);
    forall a, b | Edge(g, a, b) && Visited(t, a) && a !in gray + {x} ensures Visited(t, b) {
      assert Visited(s, a) && Visited(s, b);
    }
  }

  lemma EnterExplores(g: Graph, s: TState, gray: set<Vertex>, x: Vertex)
    requires VisitPre(g, s, gray, x)
    ensures Exploring(g, s, Enter(s, x), gray, x, g[x])
  {
    hide Reach, StackOk, CompRows, CompEdges, CompStrong, StackReach, ReachesGray, NoWhite;
    var t := Enter(s, x);
    EnterShape(g, s, x);
    EnterExtends(g, s, x);
    EnterReach(g, s, gray, x);
    EnterGray(g, s, gray, x);
    EnterNoWhite(g, s, gray, x);
    ReachSelf(g, x);
    assert x in t.onStack && t.index[x] == t.low[x];
  }

  lemma SuffixTrans(a: seq<Vertex>, b: seq<Vertex>, c: seq<Vertex>)
    requires Suffix(a, b) && Suffix(b, c)
    ensures Suffix(a, c)
  {
    assert a[|a| - |c|..] == a[|a| - |b|..][|b| - |c|..];
  }

  lemma ExtendsTrans(s0: TState, s: TState, t: TState)
    requires Extends(s0, s) && Extends(s, t)
    ensures Extends(s0, t)
  {
    SuffixTrans(t.stack, s.stack, s0.stack);
    assert t.sccs[..|s0.sccs|] == t.sccs[..|s.sccs|][..|s0.sccs|];
    forall v | Visited(s0, v) ensures v in t.index && t.index[v] == s0.index[v] {
      assert Visited(s, v);
    }
    forall v | Visited(s0, v) && v in s0.low ensures v in t.low && t.low[v] == s0.low[v] {
      assert Visited(s, v);
    }
  }

  /** Lowering low of the vertex under way disturbs nothing else. */
  lemma LowerKeeps(g: Graph, s0: TState, s: TState, gray: set<Vertex>, x: Vertex, l: int)
    requires WF(g, s, gray) && Extends(s0, s) && x in g && !Visited(s0, x)
    ensures WF(g, WithLow(s, x, l), gray) && Extends(s0, WithLow(s, x, l))
  {
    LowerExtends(s0, s, x, l);
    hide Reach, CompOk, StackReach, NoWhite, Extends, Visited, StackOk;
    var t := WithLow(s, x, l);
    LowerShape(g, s, x, l);
    LowerWhite(g, s, gray, x, l);
    hide Shape;
    forall y | y in t.onStack ensures ReachesGray(g, t, gray, y) {
      assert ReachesGray(g, s, gray, y);
    }
  }

  lemma LowerExtends(s0: TState, s: TState, x: Vertex, l: int)
    requires Extends(s0, s) && !Visited(s0, x) && x in s.low
    ensures Extends(s0, WithLow(s, x, l))
  {
    hide Suffix;
  }

  lemma LowerShape(g: Graph, s: TState, x: Vertex, l: int)
    requires Shape(g, s) && x in g
    ensures Shape(g, WithLow(s, x, l)) && s.onStack <= s.index.Keys
  {
    LowerStack(s, x, l);
    hide StackOk;
  }

  lemma LowerStack(s: TState, x: Vertex, l: int)
    requires StackOk(s)
    ensures StackOk(WithLow(s, x, l))
  {
  }

  lemma LowerWhite(g: Graph, s: TState, gray: set<Vertex>, x: Vertex, l: int)
    requires NoWhite(g, s, gray) && s.onStack <= s.index.Keys && StackReach(g, s)
    ensures NoWhite(g, WithLow(s, x, l), gray) && StackReach(g, WithLow(s, x, l))
  {
    hide Reach;
  }

  /** After the visit of the out-neighbour d of x. */
  lemma ChildStep(g: Graph, s0: TState, s: TState, s1: TState, gray: set<Vertex>, x: Vertex, todo: set<Vertex>,
      d: Vertex)
    requires Exploring(g, s0, s, gray, x, todo) && Edge(g, x, d) && !Visited(s, d)
    requires VisitPost(g, s, s1, gray + {x}, d)
    ensures Exploring(g, s0, WithLow(s1, x, Min(s1.low[x], s1.low[d])), gray, x, todo - {d})
  {
    hide Reach, WF, Cut, LowOk, Suffix, EdgesDone;
    ChildLow(g, s0, s, s1, gray, x, todo, d);
    var l := Min(s1.low[x], s1.low[d]);
    var t := WithLow(s1, x, l);
    ExtendsTrans(s0, s, s1);
    LowerKeeps(g, s0, s1, gray + {x}, x, l);
    SuffixTrans(t.stack, s.stack, [x] + s0.stack);
    ChildCut(g, s0, s, s1, gray, x, todo, d);
    ChildEdges(g, s0, s, s1, gray, x, todo, d);
  }

  lemma ChildCut(g: Graph, s0: TState, s: TState, s1: TState, gray: set<Vertex>, x: Vertex, todo: set<Vertex>,
      d: Vertex)
    requires Exploring(g, s0, s, gray, x, todo) && Edge(g, x, d) && !Visited(s, d)
    requires VisitPost(g, s, s1, gray + {x}, d)
    ensures Cut(g, s0, WithLow(s1, x, Min(s1.low[x], s1.low[d])), x, {x})
  {
    hide Reach, StackOk, CompRows, CompEdges, CompStrong, StackReach, ReachesGray, NoWhite, Suffix;
    var t := WithLow(s1, x, Min(s1.low[x], s1.low[d]));
    assert Visited(s, x);
    forall a, y | a in t.onStack && a !in s0.onStack && a !in {x} && y in s0.onStack && Edge(g, a, y)
      ensures x in t.low && y in t.index && t.low[x] <= t.index[y]
    {
      assert Visited(s0, y) && Visited(s, y);
      if a in s.onStack {
        assert s.low[x] <= s.index[y];
      } else {
        assert y in s.onStack;
        assert s1.low[d] <= s1.index[y];
      }
    }
  }

  lemma ChildEdges(g: Graph, s0: TState, s: TState, s1: TState, gray: set<Vertex>, x: Vertex, todo: set<Vertex>,
      d: Vertex)
    requires Exploring(g, s0, s, gray, x, todo) && Edge(g, x, d) && !Visited(s, d)
    requires VisitPost(g, s, s1, gray + {x}, d)
    ensures EdgesDone(g, s0, WithLow(s1, x, Min(s1.low[x], s1.low[d])), x, todo - {d})
  {
    hide Reach, StackOk, CompRows, CompEdges, CompStrong, StackReach, ReachesGray, NoWhite, Suffix;
    var t := WithLow(s1, x, Min(s1.low[x], s1.low[d]));
    assert Visited(s, x);
    forall e | Edge(g, x, e) && e !in todo - {d}
      ensures Visited(t, e) && (e in s0.onStack ==> t.low[x] <= t.index[e])
    {
      if e == d {
        assert d !in s0.onStack;
      } else {
        assert Visited(s, e);
      }
    }
  }

  lemma ChildLow(g: Graph, s0: TState, s: TState, s1: TState, gray: set<Vertex>, x: Vertex, todo: set<Vertex>,
      d: Vertex)
    requires Exploring(g, s0, s, gray, x, todo) && Edge(g, x, d) && !Visited(s, d)
    requires VisitPost(g, s, s1, gray + {x}, d)
    ensures x in s1.index && x in s1.low && s1.index[x] == s0.next && s1.low[x] == s.low[x]
    ensures LowOk(g, WithLow(s1, x, Min(s1.low[x], s1.low[d])), x)
  {
    hide Reach, StackOk, CompRows, CompEdges, CompStrong, StackReach, ReachesGray, NoWhite, Suffix, Cut;
    var t := WithLow(s1, x, Min(s1.low[x], s1.low[d]));
    assert Visited(s, x);
    if s1.low[x] <= s1.low[d] {
      var y :| y in s.onStack && y in s.index && s.index[y] == s.low[x] && Reach(g, x, y);
      assert Visited(s, y);
      assert y in t.onStack && t.index[y] == t.low[x];
    } else {
      assert d in s1.onStack;
      var y :| y in s1.onStack && y in s1.index && s1.index[y] == s1.low[d] && Reach(g, d, y);
      ReachStep(g, x, d, y);
      assert y in t.onStack && t.index[y] == t.low[x];
    }
  }

  /** The out-neighbour d is on the stack already. */
  lemma CrossStep(g: Graph, s0: TState, s: TState, gray: set<Vertex>, x: Vertex, todo: set<Vertex>, d: Vertex)
    requires Exploring(g, s0, s, gray, x, todo) && Edge(g, x, d) && d in s.onStack
    ensures Exploring(g, s0, WithLow(s, x, Min(s.low[x], s.index[d])), gray, x, todo - {d})
  {
    hide Reach, StackOk, CompRows, CompEdges, CompStrong, StackReach, ReachesGray, NoWhite, Suffix;
    var l := Min(s.low[x], s.index[d]);
    var t := WithLow(s, x, l);
    LowerKeeps(g, s0, s, gray + {x}, x, l);
    ReachEdge(g, x, d);
    CrossLow(g, s, x, d);
  }

  lemma CrossLow(g: Graph, s: TState, x: Vertex, d: Vertex)
    requires x in s.low && d in s.onStack && d in s.index && LowOk(g, s, x) && Reach(g, x, d)
    ensures LowOk(g, WithLow(s, x, Min(s.low[x], s.index[d])), x)
  {
    hide Reach;
    var t := WithLow(s, x, Min(s.low[x], s.index[d]));
    if s.low[x] < s.index[d] {
      var y :| y in s.onStack && y in s.index && s.index[y] == s.low[x] && Reach(g, x, y);
      assert y in t.onStack && t.index[y] == t.low[x];
    } else {
      assert d in t.onStack && t.index[d] == t.low[x];
    }
  }

  /** The out-neighbour d lies in a written component. */
  lemma DoneStep(g: Graph, s0: TState, s: TState, gray: set<Vertex>, x: Vertex, todo: set<Vertex>, d: Vertex)
    requires Exploring(g, s0, s, gray, x, todo) && Visited(s, d) && d !in s.onStack
    ensures Exploring(g, s0, s, gray, x, todo - {d})
  {
    hide Reach, StackOk, CompRows, CompEdges, CompStrong, StackReach, ReachesGray, NoWhite, Suffix, Cut;
    assert d !in s0.onStack;
  }

  // ---------- the end of a visit ----------

  /** low of x is below its index: x stays on the stack. */
  lemma StayStep(g: Graph, s0: TState, s: TState, gray: set<Vertex>, x: Vertex)
    requires Exploring(g, s0, s, gray, x, {}) && s.low[x] < s.index[x]
    ensures VisitPost(g, s0, s, gray, x)
  {
    hide Reach, StackOk, CompRows, CompEdges, CompStrong, StackReach, ReachesGray, NoWhite, Cut, Suffix;
    StayCut(g, s0, s, gray, x);
    StayNoWhite(g, s0, s, gray, x);
    forall y | y in s.onStack ensures ReachesGray(g, s, gray, y) {
      StayGray(g, s0, s, gray, x, y);
    }
    StackSplit(g, s0, s, gray, x, {});
  }

  lemma StayCut(g: Graph, s0: TState, s: TState, gray: set<Vertex>, x: Vertex)
    requires Exploring(g, s0, s, gray, x, {})
    ensures Cut(g, s0, s, x, {})
  {
    hide Reach, StackOk, CompRows, CompEdges, CompStrong, StackReach, ReachesGray, NoWhite, Suffix;
    forall a, y | a in s.onStack && a !in s0.onStack && y in s0.onStack && Edge(g, a, y)
      ensures x in s.low && y in s.index && s.low[x] <= s.index[y]
    {
      if a != x {
        assert a !in {x};
      }
    }
  }

  lemma StayNoWhite(g: Graph, s0: TState, s: TState, gray: set<Vertex>, x: Vertex)
    requires Exploring(g, s0, s, gray, x, {})
    ensures NoWhite(g, s, gray)
  {
    hide Reach, StackOk, CompRows, CompEdges, CompStrong, StackReach, ReachesGray, Cut, Suffix;
    forall a, b | Edge(g, a, b) && Visited(s, a) && a !in gray ensures Visited(s, b) {
      if a != x {
        assert a !in gray + {x};
      }
    }
  }

  lemma StayGray(g: Graph, s0: TState, s: TState, gray: set<Vertex>, x: Vertex, y: Vertex)
    requires Exploring(g, s0, s, gray, x, {}) && s.low[x] < s.index[x] && y in s.onStack
    ensures ReachesGray(g, s, gray, y)
  {
    hide Reach, StackOk, CompRows, CompEdges, CompStrong, StackReach, NoWhite, Cut, Suffix, EdgesDone;
    assert ReachesGray(g, s, gray + {x}, y);
    var z :| z in gray + {x} && z in s.index && s.index[z] <= s.index[y] && Reach(g, y, z);
    if z == x {
      var u :| u in s.onStack && s.index[u] == s.low[x] && Reach(g, x, u);
      assert ReachesGray(g, s, gray + {x}, u);
      var w :| w in gray + {x} && w in s.index && s.index[w] <= s.index[u] && Reach(g, u, w);
      ReachTrans(g, y, x, u);
      ReachTrans(g, y, u, w);
      assert w in gray;
    }
  }

  lemma TopOf(s0: TState, s: TState, x: Vertex)
    requires StackOk(s0) && StackOk(s) && Suffix(s.stack, [x] + s0.stack)
    ensures |s.stack| > |s0.stack| && s.stack[|s.stack| - |s0.stack| - 1] == x && x in s.onStack
    ensures s.stack[|s.stack| - |s0.stack|..] == s0.stack
    ensures forall i :: 0 <= i < |s.stack| - |s0.stack| ==>
      s.stack[i] in s.onStack && s.stack[i] in s.index && s.index[s.stack[i]] >= s.index[x]
    ensures forall i :: 0 <= i < |s.stack| - |s0.stack| ==> s.stack[i] !in s0.onStack
  {
    var c := |s.stack| - |s0.stack|;
    assert s.stack[c - 1..][0] == ([x] + s0.stack)[0] == x;
    assert s.stack[c - 1] == x;
    assert s.stack[c..] == s.stack[c - 1..][1..] == s0.stack;
    forall i | 0 <= i < c ensures s.stack[i] !in s0.onStack {
      NewEntry(s0, s, i);
    }
  }

  /** The entries above the old stack are x and the vertices visited after it. */
  lemma StackSplit(g: Graph, s0: TState, s: TState, gray: set<Vertex>, x: Vertex, todo: set<Vertex>)
    requires Exploring(g, s0, s, gray, x, todo)
    ensures x in s.onStack && Visited(s, x) && x !in s0.onStack
    ensures |s.stack| > |s0.stack| && s.stack[|s.stack| - |s0.stack| - 1] == x
    ensures forall i :: 0 <= i < |s.stack| - |s0.stack| ==> s.stack[i] !in s0.onStack && s.stack[i] in s.onStack
    ensures forall i :: 0 <= i < |s.stack| - |s0.stack| ==> s.stack[i] in s.index && s.index[s.stack[i]] >= s.index[x]
    ensures s.stack[|s.stack| - |s0.stack|..] == s0.stack
  {
    hide Reach, CompOk, StackReach, ReachesGray, NoWhite, Cut, EdgesDone, LowOk, StackOk, Suffix;
    TopOf(s0, s, x);
  }

  /** Pops the entries above the old stack and writes them as the next component. */
  function Emit(s: TState, c: nat): TState
    requires c <= |s.stack|
  {
    s.(stack := s.stack[c..],
       onStack := s.onStack - (set i | 0 <= i < c :: s.stack[i]),
       sccs := s.sccs + [s.stack[..c]],
       comp := s.comp + (map v | v in s.stack[..c] :: |s.sccs|))
  }

  /** The first c entries are popped and copied to the row under way. */
  function Popped(s: TState, c: nat): TState
    requires c <= |s.stack|
  {
    s.(stack := s.stack[c..],
       onStack := s.onStack - (set i | 0 <= i < c :: s.stack[i]),
       part := s.stack[..c])
  }

  lemma PoppedNext(s: TState, c: nat)
    requires c < |s.stack|
    ensures var t := Popped(s, c);
      && |t.part| == c && |t.stack| > 0 && t.stack[0] == s.stack[c]
      && Popped(s, c + 1) ==
           t.(stack := t.stack[1..], onStack := t.onStack - {s.stack[c]}, part := t.part + [s.stack[c]])
  {
    var now, then' := set i | 0 <= i < c :: s.stack[i], set i | 0 <= i < c + 1 :: s.stack[i];
    assert then' == now + {s.stack[c]};
  }

  /** Closing the row after c pops is one Emit. */
  lemma PoppedAll(s: TState, c: nat)
    requires StackOk(s) && s.part == [] && 0 < c <= |s.stack|
    ensures Popped(s, 0) == s
    ensures forall i :: 0 <= i < c - 1 ==> s.stack[i] != s.stack[c - 1]
    ensures var t := Popped(s, c);
      Emit(s, c) == t.(part := [], sccs := t.sccs + [t.part], comp := Emit(s, c).comp)
  {
    assert s.stack[0..] == s.stack && s.stack[..0] == [];
    forall i | 0 <= i < c - 1 ensures s.stack[i] != s.stack[c - 1] {
      assert s.index[s.stack[i]] > s.index[s.stack[c - 1]];
    }
  }

  /** x is ready to be written as the root of a component. */
  ghost predicate Root(g: Graph, s0: TState, s: TState, gray: set<Vertex>, x: Vertex) {
    Exploring(g, s0, s, gray, x, {}) && s.low[x] == s.index[x]
  }

  ghost function Above(s0: TState, s: TState): (c: nat)
    ensures c <= |s.stack|
  {
    if |s.stack| < |s0.stack| then 0 else |s.stack| - |s0.stack|
  }

  lemma NewEntry(s0: TState, s: TState, i: nat)
    requires StackOk(s0) && StackOk(s) && Suffix(s.stack, s0.stack) && i < Above(s0, s)
    ensures s.stack[i] !in s0.onStack
  {
    var c := Above(s0, s);
    assert forall j :: 0 <= j < |s0.stack| ==> s.stack[c..][j] == s.stack[c + j];
  }

  /** The entries of s above those of s0 are the vertices put on the stack since. */
  lemma StackDiff(s0: TState, s: TState, v: Vertex)
    requires StackOk(s0) && StackOk(s) && Suffix(s.stack, s0.stack)
    ensures v in s.stack[..Above(s0, s)] <==> v in s.onStack && v !in s0.onStack
  {
    var c := Above(s0, s);
    FrontEntry(s.stack, c, v);
    if v in s.stack[..c] {
      var i :| 0 <= i < c && s.stack[i] == v;
      NewEntry(s0, s, i);
    } else {
      hide StackOk;
      assert s.stack == s.stack[..c] + s0.stack;
      assert v in s.stack <==> v in s0.stack;
      InHolds(s, v);
      InHolds(s0, v);
    }
  }

  lemma InHolds(s: TState, v: Vertex)
    requires StackOk(s)
    ensures v in s.stack <==> v in s.onStack
  {
  }

  lemma FrontEntry(q: seq<Vertex>, c: nat, v: Vertex)
    requires c <= |q|
    ensures v in q[..c] <==> exists i :: 0 <= i < c && q[i] == v
  {
    assert forall i :: 0 <= i < c ==> q[..c][i] == q[i];
  }

  lemma EmitStacks(g: Graph, s0: TState, s: TState, gray: set<Vertex>, x: Vertex)
    requires Root(g, s0, s, gray, x)
    ensures var t := Emit(s, Above(s0, s));
      && t.stack == s0.stack && t.onStack == s0.onStack && x in t.comp
      && t.comp.Keys == s.comp.Keys + (s.onStack - s0.onStack)
      && (forall v :: v in s.comp ==> t.comp[v] == s.comp[v])
      && (forall v :: v in s.onStack && v !in s0.onStack ==> t.comp[v] == |s.sccs|)
  {
    hide Reach, CompOk, StackReach, ReachesGray, NoWhite, Cut, EdgesDone, LowOk, StackOk, Suffix;
    StackSplit(g, s0, s, gray, x, {});
    forall v ensures v in s.stack[..Above(s0, s)] <==> v in s.onStack && v !in s0.onStack {
      StackDiff(s0, s, v);
    }
    hide WF, Extends, VisitPre, Exploring, Root;
    assert s.onStack !! s.comp.Keys by { DisjointStack(g, s0, s, gray, x); }
    EmitParts(s0, s);
  }

  lemma DisjointStack(g: Graph, s0: TState, s: TState, gray: set<Vertex>, x: Vertex)
    requires Root(g, s0, s, gray, x)
    ensures s.onStack !! s.comp.Keys && s0.onStack <= s.onStack
  {
  }

  lemma EmitParts(s0: TState, s: TState)
    requires |s0.stack| <= |s.stack| && s.stack[Above(s0, s)..] == s0.stack && s0.onStack <= s.onStack
    requires s.onStack !! s.comp.Keys
    requires forall v :: v in s.stack[..Above(s0, s)] <==> v in s.onStack && v !in s0.onStack
    ensures var t := Emit(s, Above(s0, s));
      && t.stack == s0.stack && t.onStack == s0.onStack
      && t.comp.Keys == s.comp.Keys + (s.onStack - s0.onStack)
      && (forall v :: v in s.comp ==> t.comp[v] == s.comp[v])
      && (forall v :: v in s.onStack && v !in s0.onStack ==> t.comp[v] == |s.sccs|)
  {
    forall v ensures v in s.stack[..Above(s0, s)] <==> exists i :: 0 <= i < Above(s0, s) && s.stack[i] == v {
      FrontEntry(s.stack, Above(s0, s), v);
    }
  }

  lemma EmitShape(g: Graph, s0: TState, s: TState, gray: set<Vertex>, x: Vertex)
    requires Root(g, s0, s, gray, x)
    ensures Shape(g, Emit(s, Above(s0, s)))
  {
    hide Reach, CompOk, StackReach, ReachesGray, NoWhite, Cut, EdgesDone, LowOk, StackOk, Suffix, Emit;
    EmitStacks(g, s0, s, gray, x);
    EmitLeaves(s, Above(s0, s));
    assert forall v :: v in s0.onStack ==> Visited(s0, v);
    EmitStackOk(s0, Emit(s, Above(s0, s)));
    hide WF, Root, Exploring, VisitPre, Extends, Visited;
    ShapeAfter(g, s, s0.onStack, Emit(s, Above(s0, s)));
  }

  /** What an emission leaves alone. */
  lemma EmitLeaves(s: TState, c: nat)
    requires c <= |s.stack|
    ensures var t := Emit(s, c); t.index == s.index && t.low == s.low && t.next == s.next
  {
  }

  lemma ShapeAfter(g: Graph, s: TState, left: set<Vertex>, t: TState)
    requires Shape(g, s) && left <= s.onStack && StackOk(t)
    requires t.index == s.index && t.low == s.low && t.next == s.next && t.onStack == left
    requires t.comp.Keys == s.comp.Keys + (s.onStack - left)
    ensures Shape(g, t)
  {
    hide StackOk;
  }

  lemma EmitExtends(g: Graph, s0: TState, s: TState, gray: set<Vertex>, x: Vertex)
    requires Root(g, s0, s, gray, x)
    ensures Extends(s0, Emit(s, Above(s0, s)))
  {
    hide Reach, WF, Cut, EdgesDone, LowOk;
    EmitStacks(g, s0, s, gray, x);
    var t := Emit(s, Above(s0, s));
    assert t.sccs[..|s0.sccs|] == s.sccs[..|s0.sccs|];
  }

  lemma EmitStackOk(s0: TState, t: TState)
    requires StackOk(s0) && t.stack == s0.stack && t.onStack == s0.onStack
    requires forall v :: v in s0.onStack ==> v in t.index && v in s0.index && t.index[v] == s0.index[v]
    ensures StackOk(t)
  {
  }

  /** No edge leaves the written components and the members of the new one. */
  lemma EmitEdge(g: Graph, s0: TState, s: TState, gray: set<Vertex>, x: Vertex, a: Vertex, b: Vertex)
    requires Root(g, s0, s, gray, x)
    requires a in s.onStack && a !in s0.onStack && Edge(g, a, b)
    ensures b in s.comp || (b in s.onStack && b !in s0.onStack)
  {
    hide Reach, CompRows, CompEdges, CompStrong, StackReach, ReachesGray, StackOk, LowOk;
    StayNoWhite(g, s0, s, gray, x);
    StayCut(g, s0, s, gray, x);
    assert Visited(s, a) && a !in gray;
    assert Visited(s, b);
    assert b in s0.onStack ==> Visited(s0, b);
  }

  /** Any two members of the new component reach each other. */
  lemma EmitStrong(g: Graph, s0: TState, s: TState, gray: set<Vertex>, x: Vertex, a: Vertex, b: Vertex)
    requires Root(g, s0, s, gray, x)
    requires a in s.onStack && a !in s0.onStack && b in s.onStack && b !in s0.onStack
    ensures Reach(g, a, b)
  {
    hide Reach, CompRows, CompEdges, CompStrong, NoWhite, Cut, EdgesDone, LowOk;
    EmitAbove(g, s0, s, gray, x, b);
    assert Reach(g, x, b);
    assert ReachesGray(g, s, gray + {x}, a);
    var z :| z in gray + {x} && Reach(g, a, z);
    if z == x {
      ReachTrans(g, a, x, b);
    } else {
      ReachTrans(g, a, z, x);
      ReachTrans(g, a, x, b);
    }
  }

  lemma EmitAbove(g: Graph, s0: TState, s: TState, gray: set<Vertex>, x: Vertex, b: Vertex)
    requires Root(g, s0, s, gray, x)
    requires b in s.onStack && b !in s0.onStack
    ensures x in s.onStack && s.index[x] <= s.index[b]
  {
    hide Reach, CompOk, StackReach, NoWhite, Cut, EdgesDone, LowOk, StackOk, ReachesGray;
    StackSplit(g, s0, s, gray, x, {});
    StackDiff(s0, s, b);
  }

  lemma RowsAdd(sccs: seq<seq<Vertex>>, comp: map<Vertex, nat>, row: seq<Vertex>)
    requires CompRows(sccs, comp) && |row| > 0
    requires forall i :: 0 <= i < |row| ==> row[i] !in comp
    requires forall i, j :: 0 <= i < j < |row| ==> row[i] != row[j]
    ensures CompRows(sccs + [row], comp + (map v | v in row :: |sccs|))
  {
    var rows := sccs + [row];
    assert rows[|sccs|] == row;
    assert forall p :: 0 <= p < |sccs| ==> rows[p] == sccs[p];
  }

  lemma EmitRows(s0: TState, s: TState)
    requires CompRows(s.sccs, s.comp) && StackOk(s) && s.onStack !! s.comp.Keys && |s.stack| > |s0.stack|
    ensures CompRows(Emit(s, Above(s0, s)).sccs, Emit(s, Above(s0, s)).comp)
  {
    hide CompRows;
    var row := s.stack[..Above(s0, s)];
    assert forall i :: 0 <= i < |row| ==> row[i] == s.stack[i] && row[i] in s.onStack;
    forall i, j | 0 <= i < j < |row| ensures row[i] != row[j] {
      assert s.index[s.stack[i]] > s.index[s.stack[j]];
    }
    RowsAdd(s.sccs, s.comp, row);
  }

  lemma RootRows(g: Graph, s0: TState, s: TState, gray: set<Vertex>, x: Vertex)
    requires Root(g, s0, s, gray, x)
    ensures CompRows(Emit(s, Above(s0, s)).sccs, Emit(s, Above(s0, s)).comp)
  {
    hide Reach, StackOk, CompRows, CompEdges, CompStrong, StackReach, ReachesGray, NoWhite, Cut, EdgesDone, LowOk, Emit;
    StackSplit(g, s0, s, gray, x, {});
    EmitRows(s0, s);
  }

  lemma EmitEdges(g: Graph, s0: TState, s: TState, gray: set<Vertex>, x: Vertex)
    requires Root(g, s0, s, gray, x)
    ensures CompEdges(g, Emit(s, Above(s0, s)).comp)
  {
    hide Reach, StackOk, CompRows, CompStrong, StackReach, ReachesGray, NoWhite, Cut, EdgesDone, LowOk;
    var t := Emit(s, Above(s0, s));
    EmitStacks(g, s0, s, gray, x);
    hide Exploring;
    forall a, b | a in t.comp && Edge(g, a, b) ensures b in t.comp && t.comp[b] <= t.comp[a] {
      if a !in s.comp {
        EmitEdge(g, s0, s, gray, x, a, b);
      }
      EmitBound(g, s0, s, gray, x, a, b);
    }
  }

  lemma EmitBound(g: Graph, s0: TState, s: TState, gray: set<Vertex>, x: Vertex, a: Vertex, b: Vertex)
    requires Root(g, s0, s, gray, x) && Edge(g, a, b)
    ensures a in s.comp ==> b in s.comp && s.comp[b] <= s.comp[a]
    ensures b in s.comp ==> s.comp[b] < |s.sccs|
  {
    hide Reach, StackOk, CompStrong, StackReach, ReachesGray, NoWhite, Cut, EdgesDone, LowOk, Shape, Extends;
  }

  lemma EmitStrongAll(g: Graph, s0: TState, s: TState, gray: set<Vertex>, x: Vertex)
    requires Root(g, s0, s, gray, x)
    ensures CompStrong(g, Emit(s, Above(s0, s)).comp)
  {
    hide Reach, StackOk, CompEdges, StackReach, ReachesGray, NoWhite, Cut, EdgesDone, LowOk;
    var t := Emit(s, Above(s0, s));
    EmitStacks(g, s0, s, gray, x);
    forall a, b | a in t.comp && b in t.comp && t.comp[a] == t.comp[b] ensures Reach(g, a, b) {
      if a !in s.comp && b !in s.comp {
        EmitStrong(g, s0, s, gray, x, a, b);
      }
    }
  }

  lemma EmitRest(g: Graph, s0: TState, s: TState, gray: set<Vertex>, x: Vertex)
    requires Root(g, s0, s, gray, x)
    ensures var t := Emit(s, Above(s0, s));
      && NoWhite(g, t, gray) && StackReach(g, t)
      && (forall y :: y in t.onStack ==> ReachesGray(g, t, gray, y))
  {
    hide Reach, StackOk, CompRows, CompEdges, CompStrong, Cut, EdgesDone, LowOk;
    var t := Emit(s, Above(s0, s));
    EmitShape(g, s0, s, gray, x);
    EmitStacks(g, s0, s, gray, x);
    StayNoWhite(g, s0, s, gray, x);
    assert forall v :: Visited(s, v) == Visited(t, v);
    forall y | y in t.onStack ensures ReachesGray(g, t, gray, y) {
      assert ReachesGray(g, s0, gray, y);
      var z :| z in gray && z in s0.index && s0.index[z] <= s0.index[y] && Reach(g, y, z);
      assert Visited(s0, y) && Visited(s0, z);
    }
  }

  /** What becomes of the root itself. */
  lemma EmitRoot(g: Graph, s0: TState, s: TState, gray: set<Vertex>, x: Vertex)
    requires Root(g, s0, s, gray, x)
    ensures var t := Emit(s, Above(s0, s));
      && Visited(t, x) && x in t.low && t.low[x] >= s0.next && x in t.comp && x !in t.onStack
      && t.onStack == s0.onStack && gray <= t.onStack
  {
    hide Reach, StackOk, CompOk, StackReach, ReachesGray, NoWhite, Cut, EdgesDone, LowOk;
    EmitStacks(g, s0, s, gray, x);
    StackSplit(g, s0, s, gray, x, {});
  }

  /** low of x equals its index: x and everything above it on the stack is a component. */
  lemma EmitStep(g: Graph, s0: TState, s: TState, gray: set<Vertex>, x: Vertex)
    requires Root(g, s0, s, gray, x)
    ensures VisitPost(g, s0, Emit(s, Above(s0, s)), gray, x)
  {
    hide Root, Visited, StackOk, CompRows, CompEdges, CompStrong, StackReach, ReachesGray, NoWhite, Cut, LowOk,
         Shape, Extends, Emit, Above;
    EmitRoot(g, s0, s, gray, x);
    EmitShape(g, s0, s, gray, x);
    EmitExtends(g, s0, s, gray, x);
    RootRows(g, s0, s, gray, x);
    EmitEdges(g, s0, s, gray, x);
    EmitStrongAll(g, s0, s, gray, x);
    EmitRest(g, s0, s, gray, x);
    EmitCut(g, s0, Emit(s, Above(s0, s)), x);
  }

  lemma EmitCut(g: Graph, s0: TState, t: TState, x: Vertex)
    requires t.onStack == s0.onStack
    ensures Cut(g, s0, t, x, {})
  {
  }

  lemma EnterFresh(g: Graph, s: TState, gray: set<Vertex>, x: Vertex)
    requires VisitPre(g, s, gray, x)
    ensures x in g && x !in s.stack
  {
    hide Reach, CompOk, StackReach, NoWhite, ReachesGray;
  }

  lemma ExploringLow(g: Graph, s0: TState, s: TState, gray: set<Vertex>, x: Vertex)
    requires Exploring(g, s0, s, gray, x, {})
    ensures x in s.low && x in s.index && s.low[x] <= s.index[x]
  {
    hide Reach, CompOk, StackReach, NoWhite, ReachesGray, Cut, EdgesDone;
  }

  lemma ExploringPart(g: Graph, s0: TState, s: TState, gray: set<Vertex>, x: Vertex, todo: set<Vertex>)
    requires Exploring(g, s0, s, gray, x, todo)
    ensures s.part == s0.part
  {
  }

  /** Where the components fit, there is a free row, long enough, for the one about to be
      written. */
  lemma EmitRoom(g: Graph, s0: TState, s: TState, gray: set<Vertex>, x: Vertex, k: nat)
    requires Root(g, s0, s, gray, x) && Room(g, k)
    ensures StackOk(s) && s.part == s0.part
    ensures |s.sccs| < k && 0 < Above(s0, s) <= |s.stack| && Above(s0, s) <= k && s.stack[Above(s0, s) - 1] == x
  {
    hide Reach, CompEdges, CompStrong, StackReach, NoWhite, ReachesGray, Cut, EdgesDone, LowOk, Room, CompRows;
    StackSplit(g, s0, s, gray, x, {});
    EmitStep(g, s0, s, gray, x);
    var t, c := Emit(s, Above(s0, s)), Above(s0, s);
    RowsFit(g, t.sccs, t.comp, k);
    assert t.sccs[|s.sccs|] == s.stack[..c];
  }

  lemma VisitGrows(g: Graph, s0: TState, s: TState, gray: set<Vertex>, x: Vertex)
    requires VisitPost(g, s0, s, gray, x)
    ensures WF(g, s, gray) && Visited(s, x) && s.part == s0.part
    ensures forall v :: Visited(s0, v) ==> Visited(s, v)
  {
    hide WF, Cut, LowOk, Suffix;
  }

  /** Fewer vertices are unvisited than when the visit of x began. */
  lemma ExploringShrinks(g: Graph, s0: TState, s: TState, gray: set<Vertex>, x: Vertex, todo: set<Vertex>)
    requires Exploring(g, s0, s, gray, x, todo)
    ensures Unvisited(g, s) < Unvisited(g, s0)
  {
    hide Reach, WF, Cut, EdgesDone, LowOk, Suffix;
    StackSplit(g, s0, s, gray, x, todo);
    assert x in Unvisited(g, s0) && x !in Unvisited(g, s);
    assert forall v :: Visited(s0, v) ==> Visited(s, v);
  }

  /** A vertex under way reaches whatever its next out-neighbour is. */
  lemma ChildPre(g: Graph, s0: TState, s: TState, gray: set<Vertex>, x: Vertex, todo: set<Vertex>, d: Vertex)
    requires Exploring(g, s0, s, gray, x, todo) && Edge(g, x, d) && !Visited(s, d)
    ensures VisitPre(g, s, gray + {x}, d)
  {
    hide Reach, WF, Cut, EdgesDone, LowOk, Suffix;
    ReachEdge(g, x, d);
    forall z | z in gray + {x} ensures Reach(g, z, d) {
      if z != x {
        ReachTrans(g, z, x, d);
      }
    }
  }

  // ---------- the result of a whole search ----------

  /** sccs lists the strongly connected components of g, each vertex once, dependencies first. */
  ghost predicate SccOrder(g: Graph, sccs: seq<seq<Vertex>>) {
    && (forall v :: v in g ==> exists p :: 0 <= p < |sccs| && v in sccs[p])
    && (forall p, i :: 0 <= p < |sccs| && 0 <= i < |sccs[p]| ==> sccs[p][i] in g)
    && (forall p :: 0 <= p < |sccs| ==> |sccs[p]| > 0)
    && (forall p, i, j :: 0 <= p < |sccs| && 0 <= i < j < |sccs[p]| ==> sccs[p][i] != sccs[p][j])
    && (forall p, q, a, b :: 0 <= p < |sccs| && 0 <= q < |sccs| && a in sccs[p] && b in sccs[q] ==>
          (p == q <==> SameScc(g, a, b)))
    && (forall p, q, a, b :: 0 <= p < |sccs| && 0 <= q < |sccs| && a in sccs[p] && b in sccs[q] && Edge(g, a, b) ==>
          q <= p)
  }

  /** A vertex only reaches its own and earlier components. */
  lemma {:induction false} CompDescends(g: Graph, comp: map<Vertex, nat>, a: Vertex, b: Vertex, n: nat)
    requires CompEdges(g, comp) && a in comp && ReachIn(g, a, b, n)
    ensures b in comp && comp[b] <= comp[a]
    decreases n
  {
    if n > 0 {
      var m :| Edge(g, a, m) && ReachIn(g, m, b, n - 1);
      CompDescends(g, comp, m, b, n - 1);
    }
  }

  lemma SearchShare(g: Graph, comp: map<Vertex, nat>, a: Vertex, b: Vertex)
    requires CompEdges(g, comp) && CompStrong(g, comp) && a in comp && b in comp
    ensures comp[a] == comp[b] <==> SameScc(g, a, b)
  {
    if SameScc(g, a, b) {
      var n: nat :| ReachIn(g, a, b, n);
      CompDescends(g, comp, a, b, n);
      var m: nat :| ReachIn(g, b, a, m);
      CompDescends(g, comp, b, a, m);
    }
  }

  lemma RowOf(sccs: seq<seq<Vertex>>, comp: map<Vertex, nat>, p: nat, a: Vertex)
    requires CompRows(sccs, comp) && p < |sccs| && a in sccs[p]
    ensures a in comp && comp[a] == p
  {
    var i :| 0 <= i < |sccs[p]| && sccs[p][i] == a;
  }

  /** Between the outermost visits the stack is empty: there is no vertex under way to reach. */
  lemma SearchIdle(g: Graph, s: TState)
    requires WF(g, s, {})
    ensures s.stack == [] && s.onStack == {}
  {
    hide Reach, NoWhite, StackReach, CompOk;
    assert forall v :: !ReachesGray(g, s, {}, v);
    assert forall v :: v in s.onStack ==> ReachesGray(g, s, {}, v);
    HoldsNothing(s);
  }

  lemma HoldsNothing(s: TState)
    requires Holds(s)
    ensures s.onStack == {} ==> s.stack == []
  {
    if s.stack != [] {
      assert s.stack[0] in s.onStack;
    }
  }

  /** Once every vertex is visited, the components written are those of g. */
  lemma SearchDone(g: Graph, s: TState)
    requires WF(g, s, {}) && Unvisited(g, s) == {}
    ensures s.stack == [] && s.onStack == {} && SccOrder(g, s.sccs)
  {
    hide Reach, NoWhite, StackReach, ReachesGray, CompOk, StackOk, SccOrder;
    SearchIdle(g, s);
    assert forall v :: v in g ==> v !in Unvisited(g, s);
    assert s.comp.Keys == g.Keys;
    hide Shape, WF, Unvisited, Visited;
    SearchOrder(g, s);
  }

  lemma SearchOrder(g: Graph, s: TState)
    requires CompOk(g, s.sccs, s.comp) && s.comp.Keys == g.Keys
    ensures SccOrder(g, s.sccs)
  {
    hide SameScc, CompRows, CompEdges, CompStrong;
    SearchPairs(g, s);
    SearchCovers(s.sccs, s.comp);
  }

  lemma SearchCovers(sccs: seq<seq<Vertex>>, comp: map<Vertex, nat>)
    requires CompRows(sccs, comp)
    ensures forall v :: v in comp ==> exists p :: 0 <= p < |sccs| && v in sccs[p]
    ensures forall p, i :: 0 <= p < |sccs| && 0 <= i < |sccs[p]| ==> sccs[p][i] in comp
    ensures forall p :: 0 <= p < |sccs| ==> |sccs[p]| > 0
    ensures forall p, i, j :: 0 <= p < |sccs| && 0 <= i < j < |sccs[p]| ==> sccs[p][i] != sccs[p][j]
  {
    forall v | v in comp ensures exists p :: 0 <= p < |sccs| && v in sccs[p] {
      assert v in sccs[comp[v]];
    }
  }

  lemma SearchPairs(g: Graph, s: TState)
    requires CompOk(g, s.sccs, s.comp)
    ensures forall p, q, a, b :: 0 <= p < |s.sccs| && 0 <= q < |s.sccs| && a in s.sccs[p] && b in s.sccs[q] ==>
          (p == q <==> SameScc(g, a, b)) && (Edge(g, a, b) ==> q <= p)
  {
    hide SameScc, CompRows, CompStrong;
    forall p, q, a, b | 0 <= p < |s.sccs| && 0 <= q < |s.sccs| && a in s.sccs[p] && b in s.sccs[q]
      ensures (p == q <==> SameScc(g, a, b)) && (Edge(g, a, b) ==> q <= p)
    {
      RowOf(s.sccs, s.comp, p, a);
      RowOf(s.sccs, s.comp, q, b);
      SearchShare(g, s.comp, a, b);
    }
  }

  lemma FreshWF(g: Graph)
    ensures WF(g, Fresh(g), {}) && Unvisited(g, Fresh(g)) == g.Keys
  {
    hide Reach;
  }

  // ---------- room in the component table ----------

  ghost function Elements(q: seq<Vertex>): set<Vertex> {
    set v | v in q
  }

  lemma {:induction false} DistinctSize(q: seq<Vertex>)
    requires forall i, j :: 0 <= i < j < |q| ==> q[i] != q[j]
    ensures |Elements(q)| == |q|
  {
    if q != [] {
      DistinctSize(q[1..]);
      assert q[0] !in Elements(q[1..]);
      assert Elements(q) == {q[0]} + Elements(q[1..]);
    }
  }

  lemma SubsetSize(A: set<Vertex>, B: set<Vertex>)
    requires A <= B
    ensures |A| <= |B|
  {
    assert B == A + (B - A);
  }

  ghost function Heads(sccs: seq<seq<Vertex>>): seq<Vertex>
    requires forall p :: 0 <= p < |sccs| ==> |sccs[p]| > 0
  {
    seq(|sccs|, p requires 0 <= p < |sccs| => sccs[p][0])
  }

  /** The vertices on a cycle with x, and x itself. */
  ghost function Component(g: Graph, x: Vertex): set<Vertex> {
    set v | v in g && SameScc(g, x, v)
  }

  /** No two of these vertices are in one component. */
  ghost predicate Apart(g: Graph, h: seq<Vertex>) {
    && (forall i :: 0 <= i < |h| ==> h[i] in g)
    && forall i, j :: 0 <= i < j < |h| ==> !SameScc(g, h[i], h[j])
  }

  /** A table of k rows of k cells is enough: there are no more components, and no longer ones. */
  ghost predicate Room(g: Graph, k: nat) {
    (forall x :: x in g ==> |Component(g, x)| <= k) && forall h :: Apart(g, h) ==> |h| <= k
  }

  lemma SameRow(g: Graph, comp: map<Vertex, nat>, a: Vertex, b: Vertex)
    requires CompEdges(g, comp) && a in comp && b in comp && SameScc(g, a, b)
    ensures comp[a] == comp[b]
  {
    hide ReachIn;
    var n: nat :| ReachIn(g, a, b, n);
    CompDescends(g, comp, a, b, n);
    var m: nat :| ReachIn(g, b, a, m);
    CompDescends(g, comp, b, a, m);
  }

  lemma RowFits(g: Graph, sccs: seq<seq<Vertex>>, comp: map<Vertex, nat>, p: nat, k: nat)
    requires CompOk(g, sccs, comp) && comp.Keys <= g.Keys && Room(g, k) && p < |sccs|
    ensures 0 < |sccs[p]| <= k && sccs[p][0] in g && sccs[p][0] in comp && comp[sccs[p][0]] == p
  {
    hide Reach, CompEdges, Apart;
    var row := sccs[p];
    DistinctSize(row);
    forall v | v in row ensures v in Component(g, row[0]) {
      assert comp[row[0]] == comp[v] == p;
    }
    SubsetSize(Elements(row), Component(g, row[0]));
  }

  /** The components written so far fit. */
  lemma RowsFit(g: Graph, sccs: seq<seq<Vertex>>, comp: map<Vertex, nat>, k: nat)
    requires CompOk(g, sccs, comp) && comp.Keys <= g.Keys && Room(g, k)
    ensures |sccs| <= k && forall p :: 0 <= p < |sccs| ==> |sccs[p]| <= k
  {
    assert CompEdges(g, comp);
    hide SameScc, CompEdges, CompStrong, CompRows, CompOk;
    forall p | 0 <= p < |sccs|
      ensures 0 < |sccs[p]| <= k && sccs[p][0] in g && sccs[p][0] in comp && comp[sccs[p][0]] == p
    {
      RowFits(g, sccs, comp, p, k);
    }
    var h := Heads(sccs);
    forall i, j | 0 <= i < j < |h| ensures !SameScc(g, h[i], h[j]) {
      if SameScc(g, h[i], h[j]) {
        SameRow(g, comp, h[i], h[j]);
      }
    }
    assert Apart(g, h);
  }

  /** There are never more rows and stack entries than vertices. */
  lemma Capacity(g: Graph, s: TState)
    requires Shape(g, s) && CompRows(s.sccs, s.comp)
    ensures |s.sccs| + |s.stack| <= |g|
  {
    var h := Heads(s.sccs);
    forall i, j | 0 <= i < j < |h| ensures h[i] != h[j] {
      assert s.comp[s.sccs[i][0]] == i && s.comp[s.sccs[j][0]] == j;
    }
    DistinctSize(h);
    DistinctSize(s.stack);
    SubsetSize(Elements(h), s.comp.Keys);
    assert Elements(s.stack) == s.onStack;
    SubsetSize(s.comp.Keys + s.onStack, g.Keys);
  }
}
