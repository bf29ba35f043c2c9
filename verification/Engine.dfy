/** The execution engine on values: what one arrival does to the waiting instances and to
    the log, and what every run of arrivals therefore guarantees. */
module Engines {
  import opened Graphs
  import opened SeqOrders
  import opened TarjanStates

  /** The committed instances of the whole cluster: dependencies and sequence numbers. */
  datatype Committed = Committed(deps: Graph, seqNo: Numbers)

  /** The instances received and not executed, and the components executed so far in order. */
  datatype EngineState = EngineState(waiting: set<Vertex>, blocks: seq<seq<Vertex>>)

  const EMPTY := EngineState({}, [])

  ghost function Done(blocks: seq<seq<Vertex>>): set<Vertex> {
    set p, v | 0 <= p < |blocks| && v in blocks[p] :: v
  }

  ghost function Received(s: EngineState): set<Vertex> {
    s.waiting + Done(s.blocks)
  }

  /** Every dependency lies in the component or is found in the index and executed. */
  ghost predicate Ready(c: Committed, comp: seq<Vertex>, found: set<Vertex>) {
    forall v, d :: v in comp && Edge(c.deps, v, d) ==> d in comp || d in found
  }

  /** One component of a pass; indexed are the instances that the replica's index still holds. */
  ghost function ExecuteOne(c: Committed, comp: seq<Vertex>, indexed: set<Vertex>, s: EngineState): EngineState {
    if Ready(c, comp, Done(s.blocks) * indexed)
    then EngineState(s.waiting - Elements(comp), s.blocks + [SortBySeq(c.seqNo, comp)])
    else s
  }

  /** The first n components of a pass. */
  ghost function PassUpTo(c: Committed, sccs: seq<seq<Vertex>>, n: nat, indexed: set<Vertex>,
      s: EngineState): EngineState
    requires n <= |sccs|
  {
    if n == 0 then s
    else ExecuteOne(c, sccs[n - 1], indexed, PassUpTo(c, sccs, n - 1, indexed, s))
  }

  ghost predicate Pass(c: Committed, indexed: set<Vertex>, s: EngineState, t: EngineState) {
    exists sccs :: SccOrder(Restrict(c.deps, s.waiting), sccs) && t == PassUpTo(c, sccs, |sccs|, indexed, s)
  }

  /** k is received. A copy of a waiting instance replaces it and starts no pass. */
  ghost predicate Arrival(c: Committed, k: Vertex, indexed: set<Vertex>, s: EngineState, t: EngineState) {
    && k in c.deps && k !in Done(s.blocks)
    && (if k in s.waiting then t == s else Pass(c, indexed, s.(waiting := s.waiting + {k}), t))
  }

  /** What every pass keeps. */
  ghost predicate Inv(c: Committed, s: EngineState) {
    && s.waiting <= c.deps.Keys && Done(s.blocks) <= c.deps.Keys
    && s.waiting !! Done(s.blocks)
    && BlocksOk(c, s.blocks)
  }

  ghost predicate BlocksOk(c: Committed, blocks: seq<seq<Vertex>>) {
    && (forall n :: 0 <= n <= |blocks| ==> ClosedUnder(c.deps, Done(blocks[..n])))
    && (forall p, q, v :: 0 <= p < q < |blocks| && v in blocks[p] ==> v !in blocks[q])
    && (forall p :: 0 <= p < |blocks| ==> BlockOk(c, blocks[p]))
  }

  /** A whole component of the committed graph, each member once, ascending. */
  ghost predicate BlockOk(c: Committed, block: seq<Vertex>) {
    && |block| > 0
    && (forall i, j :: 0 <= i < j < |block| ==> block[i] != block[j])
    && Ascending(c.seqNo, block)
    && (forall a, b :: a in block ==> (b in block <==> SameScc(c.deps, a, b)))
  }

  // ---------- one component ----------

  lemma DoneAdd(blocks: seq<seq<Vertex>>, b: seq<Vertex>)
    ensures Done(blocks + [b]) == Done(blocks) + Elements(b)
  {
    var t := blocks + [b];
    assert t[|blocks|] == b;
    forall v | v in Done(blocks) ensures v in Done(t) {
      var p :| 0 <= p < |blocks| && v in blocks[p];
      assert t[p] == blocks[p];
    }
  }

  /** A component of the waiting graph whose outside dependencies are executed is a whole
      component of the committed graph: nothing outside it can be on a cycle with it. */
  lemma WholeComponent(c: Committed, W: set<Vertex>, comp: seq<Vertex>, done: set<Vertex>, a: Vertex, b: Vertex)
    requires ClosedUnder(c.deps, done) && Elements(comp) !! done
    requires Ready(c, comp, done)
    requires forall x, y :: x in comp && y in comp ==> SameScc(Restrict(c.deps, W), x, y)
    requires a in comp
    ensures b in comp <==> SameScc(c.deps, a, b)
  {
    hide Reach;
    if b in comp {
      RestrictReach(c.deps, W, a, b);
      RestrictReach(c.deps, W, b, a);
    }
    assert a in Elements(comp);
    if SameScc(c.deps, a, b) && b !in comp {
      var S := Elements(comp) + done;
      assert ClosedUnder(c.deps, S);
      ReachStaysInside(c.deps, S, a, b);
      assert b in done;
      ReachStaysInside(c.deps, done, b, a);
    }
  }

  /** The log so far is a start of the new one, and what was received stays received. */
  ghost predicate Grows(s: EngineState, t: EngineState) {
    && Received(t) == Received(s)
    && |s.blocks| <= |t.blocks| && t.blocks[..|s.blocks|] == s.blocks
    && Done(s.blocks) <= Done(t.blocks)
  }

  lemma ReadyMono(c: Committed, comp: seq<Vertex>, A: set<Vertex>, B: set<Vertex>)
    requires Ready(c, comp, A) && A <= B
    ensures Ready(c, comp, B)
  {
  }

  lemma PrefixClosed(c: Committed, blocks: seq<seq<Vertex>>, comp: seq<Vertex>, b: seq<Vertex>)
    requires forall n :: 0 <= n <= |blocks| ==> ClosedUnder(c.deps, Done(blocks[..n]))
    requires Ready(c, comp, Done(blocks)) && Elements(b) == Elements(comp)
    ensures forall n :: 0 <= n <= |blocks| + 1 ==> ClosedUnder(c.deps, Done((blocks + [b])[..n]))
  {
    var t := blocks + [b];
    forall n | 0 <= n <= |t| ensures ClosedUnder(c.deps, Done(t[..n])) {
      if n <= |blocks| {
        assert t[..n] == blocks[..n];
      } else {
        assert t[..n] == t && blocks[..|blocks|] == blocks;
        DoneAdd(blocks, b);
        NewClosed(c, Done(blocks), comp);
      }
    }
  }

  lemma NewClosed(c: Committed, done: set<Vertex>, comp: seq<Vertex>)
    requires ClosedUnder(c.deps, done) && Ready(c, comp, done)
    ensures ClosedUnder(c.deps, done + Elements(comp))
  {
  }

  lemma NewBlockOk(c: Committed, W: set<Vertex>, comp: seq<Vertex>, done: set<Vertex>)
    requires ClosedUnder(c.deps, done) && Elements(comp) !! done && Ready(c, comp, done)
    requires |comp| > 0 && (forall i, j :: 0 <= i < j < |comp| ==> comp[i] != comp[j])
    requires forall x, y :: x in comp && y in comp ==> SameScc(Restrict(c.deps, W), x, y)
    ensures BlockOk(c, SortBySeq(c.seqNo, comp))
    ensures Elements(SortBySeq(c.seqNo, comp)) == Elements(comp)
  {
    hide SameScc, Ready, ClosedUnder, SortBySeq;
    var b := SortBySeq(c.seqNo, comp);
    SortMembers(c.seqNo, comp);
    SortCorrect(c.seqNo, comp, 0);
    SortDistinct(c.seqNo, comp);
    forall x, y | x in b ensures y in b <==> SameScc(c.deps, x, y) {
      WholeComponent(c, W, comp, done, x, y);
    }
  }

  lemma ExecuteKeeps(c: Committed, W: set<Vertex>, comp: seq<Vertex>, indexed: set<Vertex>, s: EngineState)
    requires Inv(c, s) && Elements(comp) <= s.waiting
    requires |comp| > 0 && (forall i, j :: 0 <= i < j < |comp| ==> comp[i] != comp[j])
    requires forall x, y :: x in comp && y in comp ==> SameScc(Restrict(c.deps, W), x, y)
    ensures Inv(c, ExecuteOne(c, comp, indexed, s)) && Grows(s, ExecuteOne(c, comp, indexed, s))
    ensures s.waiting - Elements(comp) <= ExecuteOne(c, comp, indexed, s).waiting
  {
    hide SameScc, Ready, SortBySeq, BlockOk;
    var t := ExecuteOne(c, comp, indexed, s);
    var done := Done(s.blocks);
    if t != s {
      var b := SortBySeq(c.seqNo, comp);
      ReadyMono(c, comp, done * indexed, done);
      assert s.blocks[..|s.blocks|] == s.blocks;
      NewBlockOk(c, W, comp, done);
      PrefixClosed(c, s.blocks, comp, b);
      DoneAdd(s.blocks, b);
      NewDisjoint(s.blocks, b);
      assert t.blocks[..|s.blocks|] == s.blocks;
    } else {
      assert s.blocks[..|s.blocks|] == s.blocks;
    }
  }

  lemma NewDisjoint(blocks: seq<seq<Vertex>>, b: seq<Vertex>)
    requires forall p, q, v :: 0 <= p < q < |blocks| && v in blocks[p] ==> v !in blocks[q]
    requires Elements(b) !! Done(blocks)
    ensures forall p, q, v :: 0 <= p < q < |blocks + [b]| && v in (blocks + [b])[p] ==> v !in (blocks + [b])[q]
  {
    var t := blocks + [b];
    forall p, q, v | 0 <= p < q < |t| && v in t[p] ensures v !in t[q] {
      if q == |blocks| {
        assert v in Done(blocks) && t[q] == b;
        assert v !in Elements(b);
      }
    }
  }

  // ---------- one pass ----------

  lemma RowsDisjoint(g: Graph, sccs: seq<seq<Vertex>>, p: nat, q: nat, v: Vertex)
    requires SccOrder(g, sccs) && p < |sccs| && q < |sccs| && v in sccs[p] && v in sccs[q]
    ensures p == q
  {
    hide Reach;
    ReachSelf(g, v);
    assert SameScc(g, v, v);
  }

  lemma RowFacts(g: Graph, sccs: seq<seq<Vertex>>, p: nat)
    requires SccOrder(g, sccs) && p < |sccs|
    ensures |sccs[p]| > 0 && Elements(sccs[p]) <= g.Keys
    ensures forall i, j :: 0 <= i < j < |sccs[p]| ==> sccs[p][i] != sccs[p][j]
    ensures forall x, y :: x in sccs[p] && y in sccs[p] ==> SameScc(g, x, y)
  {
    hide SameScc;
  }

  /** No more components, and no longer ones, than there are vertices. */
  lemma SccSizes(g: Graph, sccs: seq<seq<Vertex>>)
    requires SccOrder(g, sccs)
    ensures |sccs| <= |g| && forall p :: 0 <= p < |sccs| ==> |sccs[p]| <= |g|
  {
    hide SccOrder;
    forall p | 0 <= p < |sccs| ensures 0 < |sccs[p]| <= |g| && sccs[p][0] in g {
      RowFacts(g, sccs, p);
      DistinctSize(sccs[p]);
      SubsetSize(Elements(sccs[p]), g.Keys);
      assert sccs[p][0] in Elements(sccs[p]);
    }
    var h := Heads(sccs);
    forall i, j | 0 <= i < j < |h| ensures h[i] != h[j] {
      if h[i] == h[j] {
        RowsDisjoint(g, sccs, i, j, h[i]);
      }
    }
    DistinctSize(h);
    SubsetSize(Elements(h), g.Keys);
  }

  /** Which row v is in. */
  ghost function RowNumber(g: Graph, sccs: seq<seq<Vertex>>, v: Vertex): (p: nat)
    requires SccOrder(g, sccs) && v in g
    ensures p < |sccs| && v in sccs[p]
  {
    var p :| 0 <= p < |sccs| && v in sccs[p];
    p
  }

  ghost function RowNumbers(g: Graph, sccs: seq<seq<Vertex>>, h: seq<Vertex>): (ps: seq<nat>)
    requires SccOrder(g, sccs) && forall i :: 0 <= i < |h| ==> h[i] in g
    ensures |ps| == |h| && forall i :: 0 <= i < |h| ==> ps[i] < |sccs| && h[i] in sccs[ps[i]]
  {
    if h == [] then [] else RowNumbers(g, sccs, h[..|h| - 1]) + [RowNumber(g, sccs, h[|h| - 1])]
  }

  /** Vertices of different components are in different rows. */
  lemma ApartRows(g: Graph, sccs: seq<seq<Vertex>>, h: seq<Vertex>)
    requires SccOrder(g, sccs) && Apart(g, h)
    ensures |h| <= |sccs|
  {
    var ps := RowNumbers(g, sccs, h);
    forall i, j | 0 <= i < j < |ps| ensures ps[i] != ps[j] {
      if ps[i] == ps[j] {
        RowFacts(g, sccs, ps[i]);
      }
    }
    hide SccOrder, Apart;
    DistinctSize(ps);
    SubsetSize(Elements(ps), Range(|sccs|));
  }

  ghost function Range(n: nat): (r: set<nat>)
    ensures |r| == n && forall i: nat :: i in r <==> i < n
  {
    if n == 0 then {} else Range(n - 1) + {n - 1}
  }

  /** A row holds the whole component of each of its members. */
  lemma RowComponent(g: Graph, sccs: seq<seq<Vertex>>, p: nat, x: Vertex)
    requires SccOrder(g, sccs) && p < |sccs| && x in sccs[p]
    ensures x in g && |Component(g, x)| == |sccs[p]|
  {
    RowFacts(g, sccs, p);
    DistinctSize(sccs[p]);
    forall v ensures v in Component(g, x) <==> v in Elements(sccs[p]) {
      if v in Component(g, x) {
        Covered(g, sccs, v);
      }
    }
    assert Component(g, x) == Elements(sccs[p]);
  }

  /** Whatever order the components are found in, they fit into k rows of k cells exactly if
      there is room: the bound on the table is exact. */
  lemma RoomExact(g: Graph, sccs: seq<seq<Vertex>>, k: nat)
    requires SccOrder(g, sccs)
    ensures Room(g, k) <==> |sccs| <= k && forall p :: 0 <= p < |sccs| ==> |sccs[p]| <= k
  {
    hide SccOrder, Component, Apart;
    if |sccs| <= k && forall p :: 0 <= p < |sccs| ==> |sccs[p]| <= k {
      RoomThen(g, sccs, k);
    }
    if Room(g, k) {
      var h := HeadsApart(g, sccs);
      forall p | 0 <= p < |sccs| ensures |sccs[p]| <= k {
        RowFacts(g, sccs, p);
        RowComponent(g, sccs, p, sccs[p][0]);
      }
    }
  }

  lemma RoomThen(g: Graph, sccs: seq<seq<Vertex>>, k: nat)
    requires SccOrder(g, sccs) && |sccs| <= k && forall p :: 0 <= p < |sccs| ==> |sccs[p]| <= k
    ensures Room(g, k)
  {
    forall x | x in g ensures |Component(g, x)| <= k {
      RowComponent(g, sccs, RowNumber(g, sccs, x), x);
    }
    forall h | Apart(g, h) ensures |h| <= k {
      ApartRows(g, sccs, h);
    }
    hide SccOrder, Component, Apart;
  }

  lemma HeadsApart(g: Graph, sccs: seq<seq<Vertex>>) returns (h: seq<Vertex>)
    requires SccOrder(g, sccs)
    ensures Apart(g, h) && |h| == |sccs|
  {
    hide Reach;
    h := Heads(sccs);
  }

  lemma {:induction false} OwnOnly(g: Graph, a: Vertex, b: Vertex, n: nat)
    requires ReachIn(g, a, b, n) && forall x, y :: Edge(g, x, y) ==> x == y
    ensures a == b
    decreases n
  {
    if n > 0 {
      var m :| Edge(g, a, m) && ReachIn(g, m, b, n - 1);
      OwnOnly(g, m, b, n - 1);
    }
  }

  lemma {:induction false} Listed(S: set<Vertex>) returns (h: seq<Vertex>)
    ensures Elements(h) == S && |h| == |S| && forall i, j :: 0 <= i < j < |h| ==> h[i] != h[j]
  {
    if S == {} {
      h := [];
    } else {
      var v :| v in S;
      var rest := Listed(S - {v});
      assert forall i :: 0 <= i < |rest| ==> rest[i] in Elements(rest);
      h := [v] + rest;
      assert forall x :: x in h <==> x == v || x in Elements(rest);
    }
  }

  /** Instances that do not depend on each other have room exactly if there are not more of them
      than rows: nine of them overrun a table of eight. */
  lemma RoomAlone(g: Graph, k: nat)
    requires forall x, y :: Edge(g, x, y) ==> x == y
    ensures Room(g, k) <==> |g.Keys| <= k
  {
    forall a, b ensures SameScc(g, a, b) <==> a == b {
      if SameScc(g, a, b) {
        var n: nat :| ReachIn(g, a, b, n);
        OwnOnly(g, a, b, n);
      }
      ReachSelf(g, a);
    }
    hide SameScc;
    var all := Listed(g.Keys);
    assert forall i :: 0 <= i < |all| ==> all[i] in Elements(all);
    assert Apart(g, all);
    forall h | Apart(g, h) ensures |h| <= |g.Keys| {
      DistinctSize(h);
      SubsetSize(Elements(h), g.Keys);
    }
    forall x | x in g ensures Component(g, x) == {x} {
    }
  }

  /** Every pass keeps the invariant, and components not looked at yet still wait. */
  lemma {:induction false} PassKeeps(c: Committed, sccs: seq<seq<Vertex>>, n: nat, indexed: set<Vertex>, s: EngineState)
    requires Inv(c, s) && SccOrder(Restrict(c.deps, s.waiting), sccs) && n <= |sccs|
    ensures Inv(c, PassUpTo(c, sccs, n, indexed, s)) && Grows(s, PassUpTo(c, sccs, n, indexed, s))
    ensures forall p :: n <= p < |sccs| ==> Elements(sccs[p]) <= PassUpTo(c, sccs, n, indexed, s).waiting
  {
    hide SccOrder, Inv, ExecuteOne;
    var g := Restrict(c.deps, s.waiting);
    if n == 0 {
      assert s.blocks[..|s.blocks|] == s.blocks;
      forall p | 0 <= p < |sccs| ensures Elements(sccs[p]) <= s.waiting {
        RowFacts(g, sccs, p);
      }
    } else {
      PassKeeps(c, sccs, n - 1, indexed, s);
      var r := PassUpTo(c, sccs, n - 1, indexed, s);
      var t := ExecuteOne(c, sccs[n - 1], indexed, r);
      RowFacts(g, sccs, n - 1);
      ExecuteKeeps(c, s.waiting, sccs[n - 1], indexed, r);
      GrowsTrans(s, r, t);
      forall p | n <= p < |sccs| ensures Elements(sccs[p]) <= t.waiting {
        forall v | v in Elements(sccs[p]) ensures v in t.waiting {
          if v in Elements(sccs[n - 1]) {
            RowsDisjoint(g, sccs, p, n - 1, v);
          }
        }
      }
    }
  }

  lemma GrowsTrans(s: EngineState, r: EngineState, t: EngineState)
    requires Grows(s, r) && Grows(r, t)
    ensures Grows(s, t)
  {
    assert t.blocks[..|s.blocks|] == t.blocks[..|r.blocks|][..|s.blocks|];
  }

  lemma PassNext(c: Committed, sccs: seq<seq<Vertex>>, n: nat, indexed: set<Vertex>, s: EngineState)
    requires n < |sccs|
    ensures PassUpTo(c, sccs, n + 1, indexed, s) == ExecuteOne(c, sccs[n], indexed, PassUpTo(c, sccs, n, indexed, s))
  {
    hide ExecuteOne;
  }

  lemma PassStart(c: Committed, sccs: seq<seq<Vertex>>, indexed: set<Vertex>, s: EngineState)
    ensures PassUpTo(c, sccs, 0, indexed, s) == s
  {
  }

  lemma PassMade(c: Committed, sccs: seq<seq<Vertex>>, indexed: set<Vertex>, s: EngineState, t: EngineState)
    requires Inv(c, s) && SccOrder(Restrict(c.deps, s.waiting), sccs)
    requires t == PassUpTo(c, sccs, |sccs|, indexed, s)
    ensures Pass(c, indexed, s, t) && Inv(c, t)
  {
    hide SccOrder, Inv, ExecuteOne, PassUpTo;
    PassKeeps(c, sccs, |sccs|, indexed, s);
  }

  // ---------- which waiting instances a pass executes ----------

  /** u has a dependency outside its component that cannot be found executed: it is not
      received, or the index has dropped it. */
  ghost predicate Blocked(c: Committed, s: EngineState, indexed: set<Vertex>, u: Vertex) {
    exists d :: Edge(c.deps, u, d) && !SameScc(Restrict(c.deps, s.waiting), u, d) &&
      (d !in indexed || d !in Received(s))
  }

  ghost predicate CanRun(c: Committed, s: EngineState, indexed: set<Vertex>, v: Vertex) {
    forall u :: Reach(Restrict(c.deps, s.waiting), v, u) ==> !Blocked(c, s, indexed, u)
  }

  /** The first n components are decided, exactly as CanRun says. */
  ghost predicate Decided(c: Committed, sccs: seq<seq<Vertex>>, n: nat, indexed: set<Vertex>, s: EngineState,
      r: EngineState)
    requires n <= |sccs|
  {
    forall p, v :: 0 <= p < n && v in sccs[p] ==> (v in Done(r.blocks) <==> CanRun(c, s, indexed, v))
  }

  lemma CanRunFrom(c: Committed, s: EngineState, indexed: set<Vertex>, v: Vertex, u: Vertex)
    requires CanRun(c, s, indexed, v) && Reach(Restrict(c.deps, s.waiting), v, u)
    ensures CanRun(c, s, indexed, u)
  {
    hide Reach, Blocked;
    var g := Restrict(c.deps, s.waiting);
    forall w | Reach(g, u, w) ensures !Blocked(c, s, indexed, w) {
      ReachTrans(g, v, u, w);
    }
  }

  lemma OutsideRow(g: Graph, sccs: seq<seq<Vertex>>, p: nat, u: Vertex, d: Vertex)
    requires SccOrder(g, sccs) && p < |sccs| && u in sccs[p] && d in g
    ensures d in sccs[p] <==> SameScc(g, u, d)
    ensures Edge(g, u, d) && d !in sccs[p] ==> exists q :: 0 <= q < p && d in sccs[q]
  {
    hide SameScc;
    var q :| 0 <= q < |sccs| && d in sccs[q];
    assert q == p <==> SameScc(g, u, d);
  }

  /** A runnable member of the next component makes the component ready. */
  lemma RunnableReady(c: Committed, sccs: seq<seq<Vertex>>, n: nat, indexed: set<Vertex>, s: EngineState,
      r: EngineState, v: Vertex)
    requires Inv(c, s) && SccOrder(Restrict(c.deps, s.waiting), sccs) && n < |sccs| && v in sccs[n]
    requires Decided(c, sccs, n, indexed, s, r) && Grows(s, r)
    requires CanRun(c, s, indexed, v)
    ensures Ready(c, sccs[n], Done(r.blocks) * indexed)
  {
    hide Reach, SccOrder, BlocksOk;
    var g := Restrict(c.deps, s.waiting);
    RowFacts(g, sccs, n);
    forall u, d | u in sccs[n] && Edge(c.deps, u, d) && d !in sccs[n] ensures d in Done(r.blocks) * indexed {
      assert SameScc(g, v, u);
      assert u in Elements(sccs[n]);
      assert !Blocked(c, s, indexed, u);
      if d in g {
        OutsideRow(g, sccs, n, u, d);
        assert Edge(g, u, d);
        var q :| 0 <= q < n && d in sccs[q];
        CanRunFrom(c, s, indexed, v, u);
        ReachEdge(g, u, d);
        CanRunFrom(c, s, indexed, u, d);
      } else {
        NotSame(c, s, u, d);
      }
    }
  }

  /** A vertex outside the waiting graph is on no cycle in it. */
  lemma NotSame(c: Committed, s: EngineState, u: Vertex, d: Vertex)
    requires u in s.waiting && d !in s.waiting
    ensures !SameScc(Restrict(c.deps, s.waiting), u, d)
  {
    hide Reach;
    var g := Restrict(c.deps, s.waiting);
    if Reach(g, u, d) {
      ReachStaysInside(g, s.waiting, u, d);
    }
  }

  /** Every member of a ready component is runnable. */
  lemma ReadyRunnable(c: Committed, sccs: seq<seq<Vertex>>, n: nat, indexed: set<Vertex>, s: EngineState,
      r: EngineState, v: Vertex)
    requires Inv(c, s) && SccOrder(Restrict(c.deps, s.waiting), sccs) && n < |sccs| && v in sccs[n]
    requires Decided(c, sccs, n, indexed, s, r) && Grows(s, r)
    requires Ready(c, sccs[n], Done(r.blocks) * indexed)
    ensures CanRun(c, s, indexed, v)
  {
    hide Reach, SccOrder, Inv, Decided, Blocked;
    var g := Restrict(c.deps, s.waiting);
    forall u | Reach(g, v, u) ensures !Blocked(c, s, indexed, u) {
      if u in sccs[n] {
        ReadyUnblocked(c, sccs, n, indexed, s, r, u);
      } else {
        assert v in Elements(sccs[n]);
        var x, d := Crossing(g, Elements(sccs[n]), v, u);
        CrossedRunnable(c, sccs, n, indexed, s, r, x, d);
      }
    }
  }

  lemma ReadyUnblocked(c: Committed, sccs: seq<seq<Vertex>>, n: nat, indexed: set<Vertex>, s: EngineState,
      r: EngineState, u: Vertex)
    requires SccOrder(Restrict(c.deps, s.waiting), sccs) && n < |sccs| && u in sccs[n]
    requires Grows(s, r) && Ready(c, sccs[n], Done(r.blocks) * indexed)
    ensures !Blocked(c, s, indexed, u)
  {
    hide SameScc, SccOrder;
    RowFacts(Restrict(c.deps, s.waiting), sccs, n);
  }

  /** Stepping out of a ready component leads to an executed, hence runnable, vertex. */
  lemma CrossedRunnable(c: Committed, sccs: seq<seq<Vertex>>, n: nat, indexed: set<Vertex>, s: EngineState,
      r: EngineState, x: Vertex, d: Vertex)
    requires Inv(c, s) && SccOrder(Restrict(c.deps, s.waiting), sccs) && n < |sccs|
    requires Decided(c, sccs, n, indexed, s, r)
    requires Ready(c, sccs[n], Done(r.blocks) * indexed)
    requires x in sccs[n] && d !in sccs[n] && Edge(Restrict(c.deps, s.waiting), x, d)
    ensures CanRun(c, s, indexed, d)
  {
    hide SameScc, Reach, SccOrder, BlocksOk, CanRun;
    OutsideRow(Restrict(c.deps, s.waiting), sccs, n, x, d);
  }

  lemma {:induction false} PassDecides(c: Committed, sccs: seq<seq<Vertex>>, n: nat, indexed: set<Vertex>,
      s: EngineState)
    requires Inv(c, s) && SccOrder(Restrict(c.deps, s.waiting), sccs) && n <= |sccs|
    ensures Decided(c, sccs, n, indexed, s, PassUpTo(c, sccs, n, indexed, s))
  {
    hide SccOrder, Inv, ExecuteOne, CanRun, Grows;
    if n > 0 {
      var r := PassUpTo(c, sccs, n - 1, indexed, s);
      PassDecides(c, sccs, n - 1, indexed, s);
      PassKeeps(c, sccs, n - 1, indexed, s);
      DecideNext(c, sccs, n - 1, indexed, s, r);
    }
  }

  lemma DecideNext(c: Committed, sccs: seq<seq<Vertex>>, n: nat, indexed: set<Vertex>, s: EngineState, r: EngineState)
    requires Inv(c, s) && SccOrder(Restrict(c.deps, s.waiting), sccs) && n < |sccs|
    requires Decided(c, sccs, n, indexed, s, r) && Grows(s, r) && Inv(c, r)
    requires Elements(sccs[n]) <= r.waiting
    ensures Decided(c, sccs, n + 1, indexed, s, ExecuteOne(c, sccs[n], indexed, r))
  {
    hide SccOrder, CanRun, BlocksOk, Ready, SortBySeq;
    var t := ExecuteOne(c, sccs[n], indexed, r);
    SortMembers(c.seqNo, sccs[n]);
    DoneAdd(r.blocks, SortBySeq(c.seqNo, sccs[n]));
    forall p, v | 0 <= p < n + 1 && v in sccs[p] ensures v in Done(t.blocks) <==> CanRun(c, s, indexed, v) {
      if p == n {
        assert v in Elements(sccs[n]);
        if CanRun(c, s, indexed, v) {
          RunnableReady(c, sccs, n, indexed, s, r, v);
        }
        if Ready(c, sccs[n], Done(r.blocks) * indexed) {
          ReadyRunnable(c, sccs, n, indexed, s, r, v);
        }
      } else if v in sccs[n] {
        RowsDisjoint(Restrict(c.deps, s.waiting), sccs, p, n, v);
      }
    }
  }

  /** A pass executes exactly the waiting instances that reach no blocked one. */
  lemma PassExact(c: Committed, indexed: set<Vertex>, s: EngineState, t: EngineState, v: Vertex)
    requires Inv(c, s) && Pass(c, indexed, s, t) && v in s.waiting
    ensures v in Done(t.blocks) <==> CanRun(c, s, indexed, v)
  {
    hide SccOrder, CanRun, BlocksOk, PassUpTo;
    var sccs :| SccOrder(Restrict(c.deps, s.waiting), sccs) && t == PassUpTo(c, sccs, |sccs|, indexed, s);
    PassDecides(c, sccs, |sccs|, indexed, s);
    Covered(Restrict(c.deps, s.waiting), sccs, v);
  }

  lemma Covered(g: Graph, sccs: seq<seq<Vertex>>, v: Vertex)
    requires SccOrder(g, sccs) && v in g
    ensures exists p :: 0 <= p < |sccs| && v in sccs[p]
  {
  }

  // ---------- the log ----------

  /** The executed instances one after the other, component by component. */
  ghost function Log(blocks: seq<seq<Vertex>>): seq<Vertex> {
    if blocks == [] then [] else Log(blocks[..|blocks| - 1]) + blocks[|blocks| - 1]
  }

  ghost predicate LogBefore(log: seq<Vertex>, a: Vertex, b: Vertex) {
    exists i, j :: 0 <= i < j < |log| && log[i] == a && log[j] == b
  }

  lemma {:induction false} LogHolds(blocks: seq<seq<Vertex>>)
    ensures Elements(Log(blocks)) == Done(blocks)
  {
    if blocks != [] {
      var front, last := blocks[..|blocks| - 1], blocks[|blocks| - 1];
      LogHolds(front);
      DoneAdd(front, last);
      assert blocks == front + [last];
    }
  }

  lemma {:induction false} LogPrefix(blocks: seq<seq<Vertex>>, n: nat)
    requires n <= |blocks|
    ensures Log(blocks[..n]) <= Log(blocks)
    decreases |blocks| - n
  {
    if n == |blocks| {
      assert blocks[..n] == blocks;
    } else {
      LogPrefix(blocks, n + 1);
      assert blocks[..n + 1][..n] == blocks[..n];
    }
  }

  lemma LogLast(blocks: seq<seq<Vertex>>, p: nat)
    requires p < |blocks|
    ensures Log(blocks[..p + 1]) == Log(blocks[..p]) + blocks[p]
  {
    var upTo := blocks[..p + 1];
    assert upTo[..|upTo| - 1] == blocks[..p];
  }

  lemma LogSplit(blocks: seq<seq<Vertex>>, p: nat)
    requires p < |blocks|
    ensures Log(blocks[..p]) + blocks[p] <= Log(blocks)
  {
    hide Log;
    LogPrefix(blocks, p + 1);
    LogLast(blocks, p);
  }

  lemma {:induction false} LogOnce(c: Committed, blocks: seq<seq<Vertex>>)
    requires BlocksOk(c, blocks)
    ensures forall i, j :: 0 <= i < j < |Log(blocks)| ==> Log(blocks)[i] != Log(blocks)[j]
  {
    hide ClosedUnder, SameScc;
    if blocks != [] {
      var front, last := blocks[..|blocks| - 1], blocks[|blocks| - 1];
      assert forall n :: 0 <= n <= |front| ==> front[..n] == blocks[..n];
      LogOnce(c, front);
      LogHolds(front);
      forall v | v in last ensures v !in Log(front) {
        assert v !in Done(front);
        assert v in Log(front) ==> v in Elements(Log(front));
      }
      assert BlockOk(c, last);
      hide BlocksOk, BlockOk, Done, Log;
      ConcatOnce(Log(front), last);
    }
  }

  lemma ConcatOnce(a: seq<Vertex>, b: seq<Vertex>)
    requires forall i, j :: 0 <= i < j < |a| ==> a[i] != a[j]
    requires forall i, j :: 0 <= i < j < |b| ==> b[i] != b[j]
    requires forall v :: v in b ==> v !in a
    ensures forall i, j :: 0 <= i < j < |a + b| ==> (a + b)[i] != (a + b)[j]
  {
    forall i, j | 0 <= i < j < |a + b| ensures (a + b)[i] != (a + b)[j] {
      if i < |a| <= j {
        assert (a + b)[j] in b;
      }
    }
  }

  /** Earlier blocks come first. */
  lemma BlockBefore(blocks: seq<seq<Vertex>>, q: nat, p: nat, b: Vertex, a: Vertex)
    requires q < p < |blocks| && b in blocks[q] && a in blocks[p]
    ensures LogBefore(Log(blocks), b, a)
  {
    LogSplit(blocks, p);
    LogHolds(blocks[..p]);
    assert blocks[..p][q] == blocks[q];
    assert b in Elements(Log(blocks[..p]));
    var i :| 0 <= i < |Log(blocks[..p])| && Log(blocks[..p])[i] == b;
    var j :| 0 <= j < |blocks[p]| && blocks[p][j] == a;
    var pre := Log(blocks[..p]) + blocks[p];
    hide Log;
    assert pre[i] == b && pre[|Log(blocks[..p])| + j] == a;
    assert Log(blocks)[i] == b && Log(blocks)[|Log(blocks[..p])| + j] == a;
  }

  lemma InBlockBefore(blocks: seq<seq<Vertex>>, p: nat, i: nat, j: nat)
    requires p < |blocks| && i < j < |blocks[p]|
    ensures LogBefore(Log(blocks), blocks[p][i], blocks[p][j])
  {
    LogSplit(blocks, p);
    var pre := Log(blocks[..p]) + blocks[p];
    var k := |Log(blocks[..p])|;
    hide Log;
    assert pre[k + i] == blocks[p][i] && pre[k + j] == blocks[p][j];
    assert Log(blocks)[k + i] == blocks[p][i] && Log(blocks)[k + j] == blocks[p][j];
  }

  lemma NotBothBefore(c: Committed, blocks: seq<seq<Vertex>>, a: Vertex, b: Vertex)
    requires BlocksOk(c, blocks) && LogBefore(Log(blocks), a, b)
    ensures !LogBefore(Log(blocks), b, a)
  {
    LogOnce(c, blocks);
    hide Log, BlocksOk;
  }

  /** What an instance depends on, other than round a cycle, is executed before it. */
  lemma DependencyFirst(c: Committed, s: EngineState, a: Vertex, b: Vertex)
    requires Inv(c, s) && a in Done(s.blocks) && Reach(c.deps, a, b) && !SameScc(c.deps, a, b)
    ensures b in Done(s.blocks) && LogBefore(Log(s.blocks), b, a) && !LogBefore(Log(s.blocks), a, b)
  {
    hide Reach, ClosedUnder, LogBefore;
    var p :| 0 <= p < |s.blocks| && a in s.blocks[p];
    var upTo := Done(s.blocks[..p + 1]);
    assert s.blocks[..p + 1][p] == s.blocks[p];
    ReachStaysInside(c.deps, upTo, a, b);
    var q :| 0 <= q < p + 1 && b in s.blocks[..p + 1][q];
    assert s.blocks[..p + 1][q] == s.blocks[q];
    assert BlockOk(c, s.blocks[p]);
    assert q != p;
    BlockBefore(s.blocks, q, p, b, a);
    NotBothBefore(c, s.blocks, b, a);
  }

  /** A cycle is executed as a whole. */
  lemma CycleDone(c: Committed, s: EngineState, a: Vertex, b: Vertex)
    requires Inv(c, s) && a in Done(s.blocks) && SameScc(c.deps, a, b)
    ensures b in Done(s.blocks)
  {
    hide Reach, ClosedUnder, SameScc;
    var p :| 0 <= p < |s.blocks| && a in s.blocks[p];
    assert BlockOk(c, s.blocks[p]);
  }

  /** On a cycle the smaller sequence number is executed first. */
  lemma SmallerSeqFirst(c: Committed, s: EngineState, a: Vertex, b: Vertex)
    requires Inv(c, s) && a in Done(s.blocks) && SameScc(c.deps, a, b) && Num(c.seqNo, a) < Num(c.seqNo, b)
    ensures b in Done(s.blocks) && LogBefore(Log(s.blocks), a, b) && !LogBefore(Log(s.blocks), b, a)
  {
    hide Reach, ClosedUnder, LogBefore, SameScc;
    var p :| 0 <= p < |s.blocks| && a in s.blocks[p];
    assert BlockOk(c, s.blocks[p]);
    var i :| 0 <= i < |s.blocks[p]| && s.blocks[p][i] == a;
    var j :| 0 <= j < |s.blocks[p]| && s.blocks[p][j] == b;
    InBlockBefore(s.blocks, p, i, j);
    NotBothBefore(c, s.blocks, a, b);
  }

  // ---------- runs of arrivals ----------

  /** A run: instance ks[i] arrives when the index holds idx[i]. */
  ghost predicate Run(c: Committed, ks: seq<Vertex>, idx: seq<set<Vertex>>, ss: seq<EngineState>) {
    && |ss| == |ks| + 1 && |idx| == |ks|
    && ss[0] == EMPTY
    && forall i :: 0 <= i < |ks| ==> Arrival(c, ks[i], idx[i], ss[i], ss[i + 1])
  }

  lemma PassSafe(c: Committed, indexed: set<Vertex>, s: EngineState, t: EngineState)
    requires Inv(c, s) && Pass(c, indexed, s, t)
    ensures Inv(c, t) && Grows(s, t)
  {
    hide SccOrder, Inv, PassUpTo, Grows;
    var sccs :| SccOrder(Restrict(c.deps, s.waiting), sccs) && t == PassUpTo(c, sccs, |sccs|, indexed, s);
    PassKeeps(c, sccs, |sccs|, indexed, s);
  }

  lemma ArrivalSafe(c: Committed, k: Vertex, indexed: set<Vertex>, s: EngineState, t: EngineState)
    requires Inv(c, s) && Arrival(c, k, indexed, s, t)
    ensures Inv(c, t) && Received(t) == Received(s) + {k}
    ensures |s.blocks| <= |t.blocks| && t.blocks[..|s.blocks|] == s.blocks
  {
    hide Pass, BlocksOk;
    if k in s.waiting {
      assert t.blocks[..|s.blocks|] == s.blocks;
    } else {
      PassSafe(c, indexed, s.(waiting := s.waiting + {k}), t);
    }
  }

  /** At every moment of every run: each instance received waits or is executed, never both,
      executed once, in whole components, after everything it depends on. */
  lemma {:induction false} RunSafe(c: Committed, ks: seq<Vertex>, idx: seq<set<Vertex>>, ss: seq<EngineState>, n: nat)
    requires Run(c, ks, idx, ss) && n <= |ks|
    ensures Inv(c, ss[n]) && Received(ss[n]) == Elements(ks[..n])
  {
    hide Arrival, BlocksOk;
    if n == 0 {
      EmptyInv(c);
    } else {
      RunSafe(c, ks, idx, ss, n - 1);
      assert Arrival(c, ks[n - 1], idx[n - 1], ss[n - 1], ss[n - 1 + 1]);
      ArrivalSafe(c, ks[n - 1], idx[n - 1], ss[n - 1], ss[n]);
      assert ks[..n] == ks[..n - 1] + [ks[n - 1]];
    }
  }

  lemma EmptyInv(c: Committed)
    ensures Inv(c, EMPTY) && Received(EMPTY) == {}
  {
  }

  /** Executed instances are never moved: the log only gets longer. */
  lemma {:induction false} LogOnlyGrows(c: Committed, ks: seq<Vertex>, idx: seq<set<Vertex>>,
      ss: seq<EngineState>, m: nat, n: nat)
    requires Run(c, ks, idx, ss) && m <= n <= |ks|
    ensures Log(ss[m].blocks) <= Log(ss[n].blocks)
    decreases n
  {
    hide Arrival, Inv;
    if m < n {
      LogOnlyGrows(c, ks, idx, ss, m, n - 1);
      RunSafe(c, ks, idx, ss, n - 1);
      assert Arrival(c, ks[n - 1], idx[n - 1], ss[n - 1], ss[n - 1 + 1]);
      ArrivalSafe(c, ks[n - 1], idx[n - 1], ss[n - 1], ss[n]);
      LogPrefix(ss[n].blocks, |ss[n - 1].blocks|);
    }
  }

  /** Two replicas that are fed the same committed instances, in whatever orders and with
      whatever the index drops meanwhile, agree on the order of any two instances of which
      one depends on the other, unless they share a cycle and a sequence number. */
  lemma ReplicasAgree(c: Committed, ks: seq<Vertex>, idx: seq<set<Vertex>>, ss: seq<EngineState>, n: nat,
                      ks': seq<Vertex>, idx': seq<set<Vertex>>, ss': seq<EngineState>, n': nat, a: Vertex, b: Vertex)
    requires Run(c, ks, idx, ss) && n <= |ks| && Run(c, ks', idx', ss') && n' <= |ks'|
    requires a in Done(ss[n].blocks) && a in Done(ss'[n'].blocks)
    requires b in Done(ss[n].blocks) && b in Done(ss'[n'].blocks)
    requires Reach(c.deps, a, b) || Reach(c.deps, b, a)
    requires SameScc(c.deps, a, b) ==> Num(c.seqNo, a) != Num(c.seqNo, b)
    ensures LogBefore(Log(ss[n].blocks), a, b) <==> LogBefore(Log(ss'[n'].blocks), a, b)
    ensures LogBefore(Log(ss[n].blocks), a, b) <==> !LogBefore(Log(ss[n].blocks), b, a)
  {
    RunSafe(c, ks, idx, ss, n);
    RunSafe(c, ks', idx', ss', n');
    OrderFixed(c, ss[n], a, b);
    OrderFixed(c, ss'[n'], a, b);
  }

  /** The rule that fixes the order: dependencies first, on a cycle the smaller number first. */
  ghost predicate RuledBefore(c: Committed, a: Vertex, b: Vertex) {
    if SameScc(c.deps, a, b) then Num(c.seqNo, a) < Num(c.seqNo, b) else Reach(c.deps, b, a)
  }

  lemma OrderFixed(c: Committed, s: EngineState, a: Vertex, b: Vertex)
    requires Inv(c, s) && a in Done(s.blocks) && b in Done(s.blocks)
    requires Reach(c.deps, a, b) || Reach(c.deps, b, a)
    requires SameScc(c.deps, a, b) ==> Num(c.seqNo, a) != Num(c.seqNo, b)
    ensures LogBefore(Log(s.blocks), a, b) <==> RuledBefore(c, a, b)
    ensures LogBefore(Log(s.blocks), b, a) <==> !RuledBefore(c, a, b)
  {
    hide Reach, Inv, LogBefore, Log;
    if SameScc(c.deps, a, b) {
      if Num(c.seqNo, a) < Num(c.seqNo, b) {
        SmallerSeqFirst(c, s, a, b);
      } else {
        SmallerSeqFirst(c, s, b, a);
      }
    } else if Reach(c.deps, a, b) {
      DependencyFirst(c, s, a, b);
    } else {
      DependencyFirst(c, s, b, a);
    }
  }

  // ---------- completeness ----------

  /** Every waiting instance waits, perhaps indirectly, for one that has not been received. */
  ghost predicate Stuck(c: Committed, s: EngineState) {
    forall v :: v in s.waiting ==> exists d :: Reach(c.deps, v, d) && d !in Received(s)
  }

  /** A pass over an index that still holds everything received leaves only stuck instances. */
  lemma PassComplete(c: Committed, indexed: set<Vertex>, s: EngineState, t: EngineState)
    requires Inv(c, s) && Pass(c, indexed, s, t) && Received(s) <= indexed
    ensures Stuck(c, t)
  {
    hide Reach, Pass, BlocksOk, CanRun;
    PassSafe(c, indexed, s, t);
    forall v | v in t.waiting ensures exists d :: Reach(c.deps, v, d) && d !in Received(t) {
      assert v in Received(s);
      PassExact(c, indexed, s, t, v);
      var d := WaitsFor(c, indexed, s, v);
    }
  }

  lemma WaitsFor(c: Committed, indexed: set<Vertex>, s: EngineState, v: Vertex) returns (d: Vertex)
    requires !CanRun(c, s, indexed, v) && Received(s) <= indexed
    ensures Reach(c.deps, v, d) && d !in Received(s)
  {
    hide Reach;
    var u :| Reach(Restrict(c.deps, s.waiting), v, u) && Blocked(c, s, indexed, u);
    d :| Edge(c.deps, u, d) && (d !in indexed || d !in Received(s));
    RestrictReach(c.deps, s.waiting, v, u);
    ReachEdge(c.deps, u, d);
    ReachTrans(c.deps, v, u, d);
  }

  /** When only stuck instances are left, a further pass with nothing new executes nothing. */
  lemma StuckIdle(c: Committed, indexed: set<Vertex>, s: EngineState, t: EngineState)
    requires Inv(c, s) && Stuck(c, s) && Pass(c, indexed, s, t)
    ensures t == s
  {
    hide Reach, Pass, ClosedUnder;
    PassSafe(c, indexed, s, t);
    assert t.blocks[..|t.blocks|] == t.blocks;
    forall v | v in s.waiting ensures v !in Done(t.blocks) {
      var d :| Reach(c.deps, v, d) && d !in Received(s);
      if v in Done(t.blocks) {
        ReachStaysInside(c.deps, Done(t.blocks), v, d);
      }
    }
    if |t.blocks| > |s.blocks| {
      NewBlockNew(c, s, t);
    }
    assert t.blocks == s.blocks;
  }

  lemma NewBlockNew(c: Committed, s: EngineState, t: EngineState)
    requires Inv(c, s) && Inv(c, t) && Grows(s, t) && |t.blocks| > |s.blocks|
    ensures exists v :: v in s.waiting && v in Done(t.blocks)
  {
    hide ClosedUnder;
    var p := |s.blocks|;
    assert BlockOk(c, t.blocks[p]);
    var v := t.blocks[p][0];
    assert v in t.blocks[p];
    forall q | 0 <= q < p ensures v !in s.blocks[q] {
      assert t.blocks[..p][q] == s.blocks[q];
    }
    assert v in Received(s);
  }

  /** The index never drops an instance while the run lasts. */
  ghost predicate Keeping(ks: seq<Vertex>, idx: seq<set<Vertex>>, ss: seq<EngineState>)
    requires |ss| == |ks| + 1 && |idx| == |ks|
  {
    forall i :: 0 <= i < |ks| ==> Received(ss[i]) + {ks[i]} <= idx[i]
  }

  lemma {:induction false} RunStuck(c: Committed, ks: seq<Vertex>, idx: seq<set<Vertex>>, ss: seq<EngineState>, n: nat)
    requires Run(c, ks, idx, ss) && Keeping(ks, idx, ss) && n <= |ks|
    ensures Stuck(c, ss[n])
  {
    hide Reach, Pass, BlocksOk, Stuck, Received;
    if n == 0 {
      EmptyStuck(c);
    } else {
      RunStuck(c, ks, idx, ss, n - 1);
      RunSafe(c, ks, idx, ss, n - 1);
      var s, k := ss[n - 1], ks[n - 1];
      assert Arrival(c, k, idx[n - 1], s, ss[n - 1 + 1]);
      if k !in s.waiting {
        AddReceived(s, k);
        PassComplete(c, idx[n - 1], s.(waiting := s.waiting + {k}), ss[n]);
      }
    }
  }

  lemma EmptyStuck(c: Committed)
    ensures Stuck(c, EMPTY)
  {
  }

  lemma AddReceived(s: EngineState, k: Vertex)
    ensures Received(s.(waiting := s.waiting + {k})) == Received(s) + {k}
  {
  }

  /** With an index that keeps what it is given, what a replica has executed depends only on
      what it has received: exactly the instances whose dependencies, direct and indirect,
      have all arrived. */
  lemma ExecutedExactly(c: Committed, ks: seq<Vertex>, idx: seq<set<Vertex>>, ss: seq<EngineState>, n: nat, v: Vertex)
    requires Run(c, ks, idx, ss) && Keeping(ks, idx, ss) && n <= |ks|
    ensures v in Done(ss[n].blocks) <==> v in ks[..n] && forall d :: Reach(c.deps, v, d) ==> d in ks[..n]
  {
    hide Reach, Arrival, ClosedUnder;
    RunSafe(c, ks, idx, ss, n);
    RunStuck(c, ks, idx, ss, n);
    var s := ss[n];
    assert forall d :: d in Elements(ks[..n]) <==> d in ks[..n];
    if v in Done(s.blocks) {
      assert s.blocks[..|s.blocks|] == s.blocks;
      forall d | Reach(c.deps, v, d) ensures d in ks[..n] {
        ReachStaysInside(c.deps, Done(s.blocks), v, d);
      }
    }
  }

  /** Two such replicas that received the same instances, in whatever orders, have executed the
      same ones and wait with the same ones. */
  lemma ReplicasConverge(c: Committed, ks: seq<Vertex>, idx: seq<set<Vertex>>, ss: seq<EngineState>, n: nat,
                         ks': seq<Vertex>, idx': seq<set<Vertex>>, ss': seq<EngineState>, n': nat)
    requires Run(c, ks, idx, ss) && Keeping(ks, idx, ss) && n <= |ks|
    requires Run(c, ks', idx', ss') && Keeping(ks', idx', ss') && n' <= |ks'|
    requires forall v :: v in ks[..n] <==> v in ks'[..n']
    ensures Done(ss[n].blocks) == Done(ss'[n'].blocks) && ss[n].waiting == ss'[n'].waiting
  {
    hide Reach, Arrival, Keeping, Done, BlocksOk;
    RunSafe(c, ks, idx, ss, n);
    RunSafe(c, ks', idx', ss', n');
    forall v ensures v in Done(ss[n].blocks) <==> v in Done(ss'[n'].blocks) {
      ExecutedExactly(c, ks, idx, ss, n, v);
      ExecutedExactly(c, ks', idx', ss', n', v);
    }
  }

  /** The source prunes executed instances from the index; a dependency pruned before its
      dependent arrives is never found again, and the dependent stays unexecuted. */
  lemma DroppedDependencyStalls(c: Committed, indexed: set<Vertex>, s: EngineState, t: EngineState, v: Vertex,
      d: Vertex)
    requires Inv(c, s) && Pass(c, indexed, s, t)
    requires v in s.waiting && Edge(c.deps, v, d) && d in Done(s.blocks) && d !in indexed
    ensures v in t.waiting && v !in Done(t.blocks)
  {
    hide Reach, Pass, BlocksOk;
    PassSafe(c, indexed, s, t);
    PassExact(c, indexed, s, t, v);
    NotSame(c, s, v, d);
    ReachSelf(Restrict(c.deps, s.waiting), v);
    assert Blocked(c, s, indexed, v);
    assert v in Received(s);
  }

  // ---------- handed over again ----------

  /** Every dependency of k but itself is found executed. */
  ghost predicate DepsFound(c: Committed, k: Vertex, found: set<Vertex>) {
    forall d :: Edge(c.deps, k, d) ==> d == k || d in found
  }

  /** With nothing else waiting: an instance handed over again after its execution enters the
      log a second time, alone, exactly if its dependencies are found executed. */
  lemma HandedTwice(c: Committed, indexed: set<Vertex>, s: EngineState, k: Vertex, t: EngineState)
    requires k in c.deps && k in Done(s.blocks) && s.waiting == {}
    requires Pass(c, indexed, s.(waiting := {k}), t)
    ensures t == EngineState({}, s.blocks + [[k]]) <==> DepsFound(c, k, Done(s.blocks) * indexed)
  {
    var w := s.(waiting := {k});
    var g := Restrict(c.deps, {k});
    hide SccOrder, Done, PassUpTo, SortBySeq;
    var sccs :| SccOrder(g, sccs) && t == PassUpTo(c, sccs, |sccs|, indexed, w);
    SingleScc(g, k, sccs);
    PassStart(c, sccs, indexed, w);
    PassNext(c, sccs, 0, indexed, w);
    SortOne(c, k);
  }

  /** The executed instances it depends on are executed, so that only the index can hide them:
      k is a component of its own, whatever else waits. */
  lemma OwnComponent(c: Committed, s: EngineState, k: Vertex, sccs: seq<seq<Vertex>>) returns (p: nat)
    requires Inv(c, s) && k in Done(s.blocks) && SccOrder(Restrict(c.deps, s.waiting + {k}), sccs)
    ensures p < |sccs| && sccs[p] == [k]
    ensures forall q :: 0 <= q < |sccs| && q != p ==> k !in sccs[q]
    ensures forall d :: Edge(c.deps, k, d) ==> d in Done(s.blocks)
  {
    var g, done := Restrict(c.deps, s.waiting + {k}), Done(s.blocks);
    assert s.blocks[..|s.blocks|] == s.blocks;
    assert ClosedUnder(c.deps, done);
    hide Done, Reach, SccOrder;
    Covered(g, sccs, k);
    p :| 0 <= p < |sccs| && k in sccs[p];
    RowFacts(g, sccs, p);
    forall v | v in sccs[p] ensures v == k {
      assert v in Elements(sccs[p]);
      RestrictReach(c.deps, s.waiting + {k}, k, v);
      ReachStaysInside(c.deps, done, k, v);
    }
    forall i | 0 <= i < |sccs[p]| ensures sccs[p][i] == k {
      assert sccs[p][i] in sccs[p];
    }
    AloneOnce(sccs[p], k);
    forall q | 0 <= q < |sccs| && q != p ensures k !in sccs[q] {
      if k in sccs[q] {
        RowsDisjoint(g, sccs, p, q, k);
      }
    }
  }

  lemma AloneOnce(comp: seq<Vertex>, k: Vertex)
    requires k in comp && (forall i :: 0 <= i < |comp| ==> comp[i] == k)
    requires forall i, j :: 0 <= i < j < |comp| ==> comp[i] != comp[j]
    ensures comp == [k]
  {
    DistinctSize(comp);
    assert Elements(comp) == {k};
  }

  /** The blocks that a pass added to those of s. */
  ghost function NewBlocks(s: EngineState, r: EngineState): seq<seq<Vertex>>
    requires |s.blocks| <= |r.blocks|
  {
    r.blocks[|s.blocks|..]
  }

  /** What the first n components of the pass did about k, whose component is number p. */
  ghost predicate Treated(c: Committed, indexed: set<Vertex>, s: EngineState, k: Vertex, p: nat, n: nat,
      r: EngineState) {
    && |s.blocks| <= |r.blocks| && Done(s.blocks) <= Done(r.blocks)
    && var run := n > p && DepsFound(c, k, indexed);
       && (k in r.waiting <==> !run)
       && (run ==> [k] in NewBlocks(s, r))
       && (!run ==> forall i :: 0 <= i < |NewBlocks(s, r)| ==> k !in NewBlocks(s, r)[i])
  }

  lemma TreatedNext(c: Committed, indexed: set<Vertex>, s: EngineState, k: Vertex, comp: seq<Vertex>, p: nat, n: nat,
      r: EngineState)
    requires Treated(c, indexed, s, k, p, n, r)
    requires if n == p then comp == [k] else k !in comp
    requires forall d :: Edge(c.deps, k, d) ==> d in Done(s.blocks)
    ensures Treated(c, indexed, s, k, p, n + 1, ExecuteOne(c, comp, indexed, r))
  {
    var t := ExecuteOne(c, comp, indexed, r);
    if t != r {
      var b := SortBySeq(c.seqNo, comp);
      SortMembers(c.seqNo, comp);
      DoneAdd(r.blocks, b);
      assert NewBlocks(s, t) == NewBlocks(s, r) + [b];
      SortOne(c, k);
    }
    if n == p {
      assert Ready(c, [k], Done(r.blocks) * indexed) <==> DepsFound(c, k, indexed);
    }
  }

  lemma {:induction false} TreatedUpTo(c: Committed, indexed: set<Vertex>, s: EngineState, k: Vertex,
      sccs: seq<seq<Vertex>>, p: nat, n: nat)
    requires n <= |sccs| && p < |sccs| && sccs[p] == [k]
    requires forall q :: 0 <= q < |sccs| && q != p ==> k !in sccs[q]
    requires forall d :: Edge(c.deps, k, d) ==> d in Done(s.blocks)
    ensures Treated(c, indexed, s, k, p, n, PassUpTo(c, sccs, n, indexed, s.(waiting := s.waiting + {k})))
  {
    hide ExecuteOne, Treated;
    var w := s.(waiting := s.waiting + {k});
    if n == 0 {
      PassStart(c, sccs, indexed, w);
      TreatedStart(c, indexed, s, k, p);
    } else {
      TreatedUpTo(c, indexed, s, k, sccs, p, n - 1);
      PassNext(c, sccs, n - 1, indexed, w);
      TreatedNext(c, indexed, s, k, sccs[n - 1], p, n - 1, PassUpTo(c, sccs, n - 1, indexed, w));
    }
  }

  lemma TreatedStart(c: Committed, indexed: set<Vertex>, s: EngineState, k: Vertex, p: nat)
    ensures Treated(c, indexed, s, k, p, 0, s.(waiting := s.waiting + {k}))
  {
  }

  /** Whatever else waits: an instance handed over again after its execution is executed again,
      alone, exactly if the index still holds what it depends on; if not, it goes on waiting. */
  lemma HandedAgain(c: Committed, indexed: set<Vertex>, s: EngineState, k: Vertex, t: EngineState)
    requires Inv(c, s) && k in Done(s.blocks) && Pass(c, indexed, s.(waiting := s.waiting + {k}), t)
    ensures |s.blocks| <= |t.blocks|
    ensures [k] in NewBlocks(s, t) <==> DepsFound(c, k, indexed)
    ensures k in t.waiting <==> !DepsFound(c, k, indexed)
    ensures (exists b :: b in NewBlocks(s, t) && k in b) <==> DepsFound(c, k, indexed)
  {
    hide SccOrder, BlocksOk, PassUpTo, Done;
    var w := s.(waiting := s.waiting + {k});
    var sccs :| SccOrder(Restrict(c.deps, w.waiting), sccs) && t == PassUpTo(c, sccs, |sccs|, indexed, w);
    var p := OwnComponent(c, s, k, sccs);
    TreatedUpTo(c, indexed, s, k, sccs, p, |sccs|);
    if DepsFound(c, k, indexed) {
      assert k in [k];
    }
  }

  lemma SortOne(c: Committed, k: Vertex)
    ensures SortBySeq(c.seqNo, [k]) == [k]
  {
    assert [k][..0] == [];
  }

  lemma SingleScc(g: Graph, k: Vertex, sccs: seq<seq<Vertex>>)
    requires g.Keys == {k} && SccOrder(g, sccs)
    ensures sccs == [[k]]
  {
    SccSizes(g, sccs);
    assert |g| == |g.Keys| == 1;
    Covered(g, sccs, k);
    RowFacts(g, sccs, 0);
    hide SccOrder;
    assert |sccs| == 1 && |sccs[0]| == 1;
    assert sccs[0][0] in Elements(sccs[0]);
    assert sccs[0] == [k] && sccs == [sccs[0]];
  }
}
