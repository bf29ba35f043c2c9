/** The execution engine: a table of committed instances that wait for their dependencies,
    searched for strongly connected components on every arrival. */
module Executors {
  import opened Graphs
  import opened Engines
  import opened Ids
  import opened SeqOrders
  import opened TarjanStates

  /** A committed instance. Its number and dependencies are settled when it is sent here. */
  class CommittedInstance {
    const key: InstanceId
    const seqNo: nat
    const deps: DepArray
    var status: State

    constructor (key: InstanceId, seqNo: nat, deps: DepArray, status: State)
      ensures this.key == key && this.seqNo == seqNo && this.deps == deps && this.status == status
    {
      this.key, this.seqNo, this.deps, this.status := key, seqNo, deps, status;
    }
  }

  class TarjanNode {
    const inst: CommittedInstance
    const key: Vertex
    var index: int
    var lowLink: int
    var onStack: bool
    var deps: seq<TarjanNode?>
    var next: TarjanNode?

    constructor (inst: CommittedInstance)
      ensures this.inst == inst && key == DhKey(inst.key)
    {
      hide DhKey;
      this.inst, key := inst, DhKey(inst.key);
      index, lowLink, onStack := -1, -1, false;
      deps, next := seq(MAX_DEPS, _ => null), null;
    }
  }

  type Nodes = map<Vertex, TarjanNode>

  /** The table key of a dependency slot, or none for an empty slot. */
  function SlotKeys(d: Dependency): set<Vertex> {
    if d.id.instanceId == 0 then {} else {DhKey(d.id)}
  }

  function DepKeys(deps: seq<Dependency>): set<Vertex> {
    set j, k | 0 <= j < |deps| && k in SlotKeys(deps[j]) :: k
  }

  /** An array stands for the keys of its filled slots, flagged committed or not. */
  lemma DepKeysExact(deps: seq<Dependency>, k: Vertex)
    ensures k in DepKeys(deps) <==>
      exists j :: 0 <= j < |deps| && deps[j].id.instanceId != 0 && DhKey(deps[j].id) == k
  {
    hide DhKey;
    if k in DepKeys(deps) {
      var j :| 0 <= j < |deps| && k in SlotKeys(deps[j]);
      assert deps[j].id.instanceId != 0 && DhKey(deps[j].id) == k;
    }
    if j :| 0 <= j < |deps| && deps[j].id.instanceId != 0 && DhKey(deps[j].id) == k {
      assert k in SlotKeys(deps[j]);
    }
  }

  /** The graph that the search sees: dependencies between waiting instances. */
  ghost function GraphOf(nodes: Nodes): Graph {
    map k | k in nodes :: DepKeys(nodes[k].inst.deps) * nodes.Keys
  }

  /** The next pointer of every node. */
  type Links = map<Vertex, TarjanNode?>

  /** The linked list from head holds the nodes of keys in order. */
  ghost predicate Chain(nodes: Nodes, links: Links, head: TarjanNode?, keys: seq<Vertex>) {
    if keys == [] then head == null
    else
      && keys[0] in nodes && keys[0] in links && head == nodes[keys[0]]
      && Chain(nodes, links, links[keys[0]], keys[1..])
  }

  lemma {:induction false} ChainOff(nodes: Nodes, links: Links, head: TarjanNode?, keys: seq<Vertex>,
                                    k: Vertex, n: TarjanNode?)
    requires Chain(nodes, links, head, keys) && k !in keys
    ensures Chain(nodes, links[k := n], head, keys)
  {
    if keys != [] {
      ChainOff(nodes, links, links[keys[0]], keys[1..], k, n);
    }
  }

  lemma GraphClosed(nodes: Nodes)
    ensures Closed(GraphOf(nodes))
  {
  }

  ghost function NodeAt(nodes: Nodes, k: Vertex): TarjanNode? {
    if k in nodes then nodes[k] else null
  }

  ghost function SlotNode(nodes: Nodes, d: Dependency): TarjanNode? {
    if d.id.instanceId == 0 then null else NodeAt(nodes, DhKey(d.id))
  }

  /** The rows written so far and the one under way. */
  ghost function Rows(ts: TState): seq<seq<Vertex>> {
    ts.sccs + [ts.part]
  }

  ghost function WithRow(rows: seq<seq<Vertex>>, p: nat, row: seq<Vertex>): seq<seq<Vertex>>
    requires p < |rows|
  {
    rows[p := row]
  }

  lemma RowsPut(ts: TState, k: Vertex)
    ensures Rows(ts.(part := ts.part + [k])) == Rows(ts)[|ts.sccs| := ts.part + [k]]
  {
  }

  /** The replica's index, as find_instance sees it. */
  type Index = map<InstanceId, CommittedInstance>

  /** The table keys of the indexed instances that are executed. */
  ghost function Found(idx: Index): set<Vertex>
    reads idx.Values`status
  {
    set id | id in idx && IsState(idx[id].status, EXECUTED) :: DhKey(id)
  }

  /** num gives the sequence numbers of the waiting instances. */
  ghost predicate Numbered(nodes: Nodes, num: Numbers) {
    forall k :: k in nodes ==> Num(num, k) == nodes[k].inst.seqNo
  }

  /** The waiting instances are instances of c, under their own keys. */
  ghost predicate Matches(nodes: Nodes, c: Committed) {
    && Numbered(nodes, c.seqNo)
    && forall k :: k in nodes ==>
         && k in c.deps && c.deps[k] == DepKeys(nodes[k].inst.deps)
         && nodes[k].key == k == DhKey(nodes[k].inst.key)
         && forall j :: 0 <= j < MAX_DEPS ==> Fits(nodes[k].inst.deps[j].id)
  }

  /** The index names its instances properly; a waiting one it holds is the one that waits. */
  ghost predicate IndexOk(nodes: Nodes, idx: Index) {
    forall id :: id in idx ==>
      idx[id].key == id && Fits(id) && (DhKey(id) in nodes ==> nodes[DhKey(id)].inst == idx[id])
  }

  ghost function InstSet(nodes: Nodes): set<CommittedInstance> {
    set k | k in nodes :: nodes[k].inst
  }

  ghost function IndexKeys(idx: Index): set<Vertex> {
    set id | id in idx :: DhKey(id)
  }

  /** What the index holds of the instances received. */
  ghost function Indexed(vertices: Nodes, idx: Index): set<Vertex>
    reads idx.Values`status
  {
    Found(idx) + IndexKeys(idx) * vertices.Keys
  }

  class Executor {
    var vertices: Nodes
    var sccCount: nat
    var stack: TarjanNode?
    const sccs: array2<TarjanNode?>
    var index: int
    /** The waiting nodes of the search under way, as a table and as a set. */
    ghost var nodes: Nodes
    ghost var all: set<TarjanNode>
    ghost var insts: set<CommittedInstance>
    /** The components executed so far, in order. */
    ghost var blocks: seq<seq<Vertex>>

    ghost predicate Keyed()
      reads this`nodes, this`all
    {
      forall k :: k in nodes ==> nodes[k] in all && nodes[k].key == k
    }

    /** Every dependency pointer leads to the waiting node of that dependency, if there is one. */
    ghost predicate Wired()
      requires Keyed()
      reads this`nodes, this`all, all`deps
    {
      forall k :: k in nodes ==> NodeWired(nodes[k])
    }

    ghost predicate NodeWired(n: TarjanNode)
      reads this`nodes, n`deps
    {
      |n.deps| == MAX_DEPS && forall j :: 0 <= j < MAX_DEPS ==> n.deps[j] == SlotNode(nodes, n.inst.deps[j])
    }

    ghost predicate NumbersAre(index: map<Vertex, int>, low: map<Vertex, int>)
      requires Keyed()
      reads this`nodes, this`all, all`index, all`lowLink
    {
      && index.Keys == nodes.Keys && low.Keys == nodes.Keys
      && forall k :: k in nodes ==> nodes[k].index == index[k] && nodes[k].lowLink == low[k]
    }

    ghost predicate FlagsAre(onStack: set<Vertex>)
      requires Keyed()
      reads this`nodes, this`all, all`onStack
    {
      forall k :: k in nodes ==> (nodes[k].onStack <==> k in onStack)
    }

    ghost function LinksNow(): Links
      requires Keyed()
      reads this`nodes, this`all, all`next
    {
      map k | k in nodes :: nodes[k].next
    }

    /** The table starts with these rows; every other cell is empty. */
    ghost predicate TableIs(rows: seq<seq<Vertex>>)
      reads this`nodes, sccs
    {
      && sccs.Length0 == sccs.Length1
      && forall p, i :: 0 <= p < sccs.Length0 && 0 <= i < sccs.Length1 ==>
           sccs[p, i] == (if p < |rows| && i < |rows[p]| then NodeAt(nodes, rows[p][i]) else null)
    }

    ghost predicate IsNode(n: TarjanNode)
      reads this`nodes, this`all
    {
      n.key in nodes && nodes[n.key] == n && n in all
    }

    /** The objects hold the search state s. */
    ghost predicate Tracks(s: TState)
      reads this, sccs, all
    {
      && Keyed()
      && NumbersAre(s.index, s.low)
      && FlagsAre(s.onStack)
      && Chain(nodes, LinksNow(), stack, s.stack)
      && TableIs(Rows(s))
      && sccCount == |s.sccs| && index == s.next
    }

    method Push(n: TarjanNode, ghost s: TState)
      requires Tracks(s) && IsNode(n) && n.key !in s.stack
      modifies this`stack, n`next
      ensures Tracks(s.(stack := [n.key] + s.stack))
    {
      hide NumbersAre, FlagsAre, TableIs;
      ghost var links := LinksNow();
      ChainOff(nodes, links, stack, s.stack, n.key, stack);
      n.next := stack;
      stack := n;
      assert LinksNow() == links[n.key := n.next];
      assert ([n.key] + s.stack)[1..] == s.stack;
    }

    method Pop(ghost s: TState) returns (n: TarjanNode)
      requires Tracks(s) && s.stack != []
      modifies this`stack
      ensures IsNode(n) && n.key == s.stack[0] && Tracks(s.(stack := s.stack[1..]))
    {
      n := stack;
      stack := stack.next;
    }

    method ClearFlag(n: TarjanNode, ghost s: TState)
      requires Tracks(s) && IsNode(n)
      modifies n`onStack
      ensures Tracks(s.(onStack := s.onStack - {n.key}))
    {
      n.onStack := false;
    }

    method PutCell(i: nat, n: TarjanNode, ghost s: TState)
      requires Tracks(s) && IsNode(n) && |s.part| == i
      requires sccCount < sccs.Length0 && i < sccs.Length1
      modifies sccs
      ensures Tracks(s.(part := s.part + [n.key]))
    {
      sccs[sccCount, i] := n;
      RowsPut(s, n.key);
    }

    /** Moves the head of the stack into cell cnt of the row under way. */
    method PopToRow(ghost s: TState, cnt: nat) returns (tn: TarjanNode)
      requires cnt < |s.stack| && Tracks(Popped(s, cnt))
      requires sccCount < sccs.Length0 && cnt < sccs.Length1
      modifies this`stack, sccs, all`onStack
      ensures IsNode(tn) && tn.key == s.stack[cnt]
      ensures Tracks(Popped(s, cnt + 1))
    {
      PoppedNext(s, cnt);
      hide Popped, Tracks;
      ghost var t := Popped(s, cnt);
      tn := Pop(t);
      t := t.(stack := t.stack[1..]);
      ClearFlag(tn, t);
      t := t.(onStack := t.onStack - {tn.key});
      PutCell(cnt, tn, t);
    }

    /** Moves the stack entries down to n into the next row of the table. */
    method WriteScc(n: TarjanNode, ghost s: TState, ghost c: nat)
      requires Tracks(s) && s.part == [] && StackOk(s)
      requires 0 < c <= |s.stack| && s.stack[c - 1] == n.key && IsNode(n)
      requires |s.sccs| < sccs.Length0 && c <= sccs.Length1
      modifies this`stack, this`sccCount, sccs, all`onStack
      ensures Tracks(Emit(s, c))
    {
      hide StackOk, Popped, Emit, Tracks, Keyed;
      PoppedAll(s, c);
      NodeFields(n, s);
      var cnt := 0;
      var tn: TarjanNode? := null;
      while tn != n
        invariant 0 <= cnt <= c
        invariant cnt == 0 ==> tn == null
        invariant cnt > 0 ==> tn != null && IsNode(tn) && tn.key == s.stack[cnt - 1]
        invariant Tracks(Popped(s, cnt))
        invariant sccCount == |s.sccs|
        decreases c - cnt
      {
        tn := PopToRow(s, cnt);
        cnt := cnt + 1;
      }
      CloseRow(s, c);
    }

    method CloseRow(ghost s: TState, ghost c: nat)
      requires c <= |s.stack| && Tracks(Popped(s, c)) && s.part == []
      requires sccCount == |s.sccs|
      modifies this`sccCount
      ensures Tracks(Emit(s, c))
    {
      ghost var t := Popped(s, c);
      assert Rows(Emit(s, c)) == Rows(t) + [[]];
      sccCount := sccCount + 1;
    }

    method SetLow(n: TarjanNode, l: int, ghost s: TState)
      requires Tracks(s) && IsNode(n)
      modifies n`lowLink
      ensures Tracks(WithLow(s, n.key, l))
    {
      n.lowLink := l;
    }

    method Number(n: TarjanNode, ghost s: TState)
      requires Tracks(s) && IsNode(n)
      modifies this`index, n`index, n`lowLink, n`onStack
      ensures Tracks(s.(index := s.index[n.key := s.next], low := s.low[n.key := s.next], next := s.next + 1,
                        onStack := s.onStack + {n.key}))
    {
      hide Tracks, IsNode;
      SetNumbers(n, s);
      SetFlag(n, s.(index := s.index[n.key := s.next], low := s.low[n.key := s.next], next := s.next + 1));
    }

    method SetNumbers(n: TarjanNode, ghost s: TState)
      requires Tracks(s) && IsNode(n)
      modifies this`index, n`index, n`lowLink
      ensures Tracks(s.(index := s.index[n.key := s.next], low := s.low[n.key := s.next], next := s.next + 1))
    {
      hide Tracks, IsNode;
      NodeFields(n, s);
      SetLow(n, index, s);
      SetIndex(n, WithLow(s, n.key, s.next));
    }

    method SetIndex(n: TarjanNode, ghost s: TState)
      requires Tracks(s) && IsNode(n)
      modifies this`index, n`index
      ensures Tracks(s.(index := s.index[n.key := s.next], next := s.next + 1))
    {
      hide TableIs, Chain, FlagsAre;
      n.index := index;
      index := index + 1;
    }

    method SetFlag(n: TarjanNode, ghost s: TState)
      requires Tracks(s) && IsNode(n)
      modifies n`onStack
      ensures Tracks(s.(onStack := s.onStack + {n.key}))
    {
      hide TableIs, Chain, NumbersAre;
      n.onStack := true;
    }

    // ---------- dependency pointers and edges ----------

    lemma SlotEdge(n: TarjanNode, j: nat)
      requires Keyed() && Wired() && IsNode(n) && j < MAX_DEPS
      ensures |n.deps| == MAX_DEPS
      ensures n.deps[j] != null ==> IsNode(n.deps[j]) && Edge(GraphOf(nodes), n.key, n.deps[j].key)
    {
      hide DhKey;
      if n.deps[j] != null {
        assert n.deps[j] == SlotNode(nodes, n.inst.deps[j]);
        var k := DhKey(n.inst.deps[j].id);
        assert k in SlotKeys(n.inst.deps[j]);
        assert k in DepKeys(n.inst.deps);
      }
    }

    lemma EdgeSlot(n: TarjanNode, d: Vertex)
      requires Keyed() && Wired() && IsNode(n) && Edge(GraphOf(nodes), n.key, d)
      ensures |n.deps| == MAX_DEPS
      ensures exists j :: 0 <= j < MAX_DEPS && n.deps[j] != null && n.deps[j].key == d
    {
      hide DhKey;
      assert d in DepKeys(n.inst.deps);
      var j :| 0 <= j < |n.inst.deps| && d in SlotKeys(n.inst.deps[j]);
      assert n.deps[j] == SlotNode(nodes, n.inst.deps[j]) == nodes[d];
    }

    lemma NodeFields(n: TarjanNode, s: TState)
      requires Tracks(s) && IsNode(n)
      ensures n.key in s.index && n.key in s.low
      ensures n.index == s.index[n.key] && n.lowLink == s.low[n.key] && (n.onStack <==> n.key in s.onStack)
      ensures n.index >= 0 <==> Visited(s, n.key)
      ensures sccCount == |s.sccs| && index == s.next
    {
    }

    // ---------- the search ----------

    method Begin(n: TarjanNode, ghost s: TState)
      requires Tracks(s) && IsNode(n) && n.key !in s.stack
      modifies this`stack, this`index, n`index, n`lowLink, n`onStack, n`next
      ensures Tracks(Enter(s, n.key))
    {
      hide Tracks, IsNode;
      Number(n, s);
      Push(n, s.(index := s.index[n.key := s.next], low := s.low[n.key := s.next], next := s.next + 1,
                 onStack := s.onStack + {n.key}));
    }

    /** One turn of the loop over the dependencies of n. */
    method Follow(n: TarjanNode, tn: TarjanNode, ghost s0: TState, ghost s: TState, ghost gray: set<Vertex>,
                  ghost todo: set<Vertex>)
      returns (ghost t: TState)
      requires Keyed() && Wired() && IsNode(n) && IsNode(tn)
      requires sccs.Length0 == sccs.Length1 && Room(GraphOf(nodes), sccs.Length0)
      requires Tracks(s) && s.part == []
      requires Exploring(GraphOf(nodes), s0, s, gray, n.key, todo) && Edge(GraphOf(nodes), n.key, tn.key)
      modifies this`stack, this`index, this`sccCount, sccs, all`index, all`lowLink, all`onStack, all`next
      ensures Tracks(t) && Exploring(GraphOf(nodes), s0, t, gray, n.key, todo - {tn.key})
      decreases Unvisited(GraphOf(nodes), s0), 0
    {
      hide Room, Tracks, Wired, Keyed, VisitPre, VisitPost, Exploring, GraphOf, Unvisited, Edge, Visited;
      ghost var g, x, d := GraphOf(nodes), n.key, tn.key;
      NodeFields(n, s);
      NodeFields(tn, s);
      t := s;
      if tn.index < 0 {
        ExploringShrinks(g, s0, s, gray, x, todo);
        ChildPre(g, s0, s, gray, x, todo, d);
        t := Visit(tn, s, gray + {x});
        NodeFields(n, t);
        NodeFields(tn, t);
        ChildStep(g, s0, s, t, gray, x, todo, d);
        var l := Min(n.lowLink, tn.lowLink);
        SetLow(n, l, t);
        t := WithLow(t, x, l);
      } else if tn.onStack {
        CrossStep(g, s0, s, gray, x, todo, d);
        var l := Min(n.lowLink, tn.index);
        SetLow(n, l, t);
        t := WithLow(t, x, l);
      } else {
        DoneStep(g, s0, s, gray, x, todo, d);
      }
    }

    method Visit(n: TarjanNode, ghost s0: TState, ghost gray: set<Vertex>) returns (ghost s: TState)
      requires Keyed() && Wired() && IsNode(n)
      requires sccs.Length0 == sccs.Length1 && Room(GraphOf(nodes), sccs.Length0)
      requires Tracks(s0) && s0.part == []
      requires VisitPre(GraphOf(nodes), s0, gray, n.key)
      modifies this`stack, this`index, this`sccCount, sccs, all`index, all`lowLink, all`onStack, all`next
      ensures Tracks(s) && VisitPost(GraphOf(nodes), s0, s, gray, n.key)
      decreases Unvisited(GraphOf(nodes), s0), 1
    {
      hide Room, Tracks, Wired, Keyed, VisitPre, VisitPost, Exploring, GraphOf, Enter, WithLow, Unvisited, Edge, Emit;
      ghost var g, x := GraphOf(nodes), n.key;
      EnterFresh(g, s0, gray, x);
      EnterExplores(g, s0, gray, x);
      SlotEdge(n, 0);
      Begin(n, s0);
      s := Enter(s0, x);
      ExploringPart(g, s0, s, gray, x, g[x]);
      ghost var done: set<Vertex> := {};
      assert g[x] - done == g[x];
      var i := 0;
      while i < MAX_DEPS
        invariant 0 <= i <= MAX_DEPS
        invariant Tracks(s) && Exploring(g, s0, s, gray, x, g[x] - done) && s.part == []
        invariant |n.deps| == MAX_DEPS
        invariant forall j :: 0 <= j < i && n.deps[j] != null ==> n.deps[j].key in done
      {
        var tn := n.deps[i];
        if tn != null {
          SlotEdge(n, i);
          s := Follow(n, tn, s0, s, gray, g[x] - done);
          assert g[x] - done - {tn.key} == g[x] - (done + {tn.key});
          done := done + {tn.key};
          ExploringPart(g, s0, s, gray, x, g[x] - done);
        }
        i := i + 1;
      }
      AllFollowed(n, done);
      assert g[x] - done == {};
      NodeFields(n, s);
      ExploringLow(g, s0, s, gray, x);
      if n.lowLink == n.index {
        EmitStep(g, s0, s, gray, x);
        EmitRoom(g, s0, s, gray, x, sccs.Length0);
        WriteScc(n, s, Above(s0, s));
        s := Emit(s, Above(s0, s));
      } else {
        StayStep(g, s0, s, gray, x);
      }
    }

    lemma AllFollowed(n: TarjanNode, done: set<Vertex>)
      requires Keyed() && Wired() && IsNode(n) && |n.deps| == MAX_DEPS
      requires forall j :: 0 <= j < MAX_DEPS && n.deps[j] != null ==> n.deps[j].key in done
      ensures GraphOf(nodes)[n.key] <= done
    {
      hide Wired;
      forall d | d in GraphOf(nodes)[n.key] ensures d in done {
        EdgeSlot(n, d);
      }
    }

    /** Unlinks a node from earlier searches and points it at the waiting nodes it depends on. */
    method WireNode(n: TarjanNode)
      requires Keyed() && nodes == vertices
      modifies n`index, n`lowLink, n`onStack, n`next, n`deps
      ensures n.index == -1 && n.lowLink == -1 && !n.onStack
      ensures NodeWired(n) && |n.deps| == MAX_DEPS
      ensures forall j :: 0 <= j < MAX_DEPS ==>
        var id := n.inst.deps[j].id;
        n.deps[j] == if id.instanceId != 0 && DhKey(id) in vertices then vertices[DhKey(id)] else null
    {
      hide DhKey, Keyed;
      n.index, n.lowLink, n.onStack, n.next := -1, -1, false, null;
      n.deps := seq(MAX_DEPS, _ => null);
      var dc := 0;
      while dc < MAX_DEPS
        invariant 0 <= dc <= MAX_DEPS && |n.deps| == MAX_DEPS
        invariant n.index == -1 && n.lowLink == -1 && !n.onStack
        invariant forall j :: 0 <= j < dc ==> n.deps[j] == SlotNode(nodes, n.inst.deps[j])
        invariant forall j :: dc <= j < MAX_DEPS ==> n.deps[j] == null
      {
        var dep := n.inst.deps[dc];
        if dep.id.instanceId != 0 {
          var k := DhKey(dep.id);
          if k in vertices {
            n.deps := n.deps[dc := vertices[k]];
          }
        }
        dc := dc + 1;
      }
    }

    /** Rebuilds the graph of the waiting instances. */
    method WireAll()
      requires Keyed() && nodes == vertices && Cleared()
      modifies all`index, all`lowLink, all`onStack, all`next, all`deps
      ensures Wired() && Tracks(Fresh(GraphOf(nodes)))
    {
      var ks := vertices.Keys;
      hide NodeWired;
      while ks != {}
        invariant ks <= vertices.Keys
        invariant forall k :: k in vertices && k !in ks ==>
          vertices[k].index == -1 && vertices[k].lowLink == -1 && !vertices[k].onStack && NodeWired(vertices[k])
        decreases ks
      {
        var k :| k in ks;
        WireNode(vertices[k]);
        ks := ks - {k};
      }
    }

    /** The state that reset_exec leaves behind. */
    ghost predicate Cleared()
      reads this`sccCount, this`stack, this`index, sccs
    {
      && sccCount == 0 && stack == null && index == 0
      && sccs.Length0 == sccs.Length1
      && forall p, i :: 0 <= p < sccs.Length0 && 0 <= i < sccs.Length1 ==> sccs[p, i] == null
    }

    method Reset()
      requires sccs.Length0 == sccs.Length1
      modifies this`sccCount, this`stack, this`index, sccs
      ensures Cleared()
    {
      sccCount := 0;
      forall p, i | 0 <= p < sccs.Length0 && 0 <= i < sccs.Length1 {
        sccs[p, i] := null;
      }
      stack := null;
      index := 0;
    }

    /** One turn of the loop over the waiting instances. */
    method VisitIfNew(tn: TarjanNode, ghost s0: TState) returns (ghost s: TState)
      requires Keyed() && Wired() && IsNode(tn)
      requires sccs.Length0 == sccs.Length1 && Room(GraphOf(nodes), sccs.Length0)
      requires Tracks(s0) && s0.part == [] && WF(GraphOf(nodes), s0, {})
      modifies this`stack, this`index, this`sccCount, sccs, all`index, all`lowLink, all`onStack, all`next
      ensures Tracks(s) && s.part == [] && WF(GraphOf(nodes), s, {})
      ensures Visited(s, tn.key) && forall v :: Visited(s0, v) ==> Visited(s, v)
    {
      GraphClosed(nodes);
      NodeFields(tn, s0);
      assert tn.key in GraphOf(nodes);
      hide Room, Tracks, Keyed, Wired, WF, Closed, Visited, GraphOf;
      s := s0;
      if tn.index < 0 {
        s := Visit(tn, s0, {});
        VisitGrows(GraphOf(nodes), s0, s, {}, tn.key);
      }
    }

    method VisitAll(ghost s0: TState) returns (ghost s: TState)
      requires Keyed() && Wired() && nodes == vertices
      requires sccs.Length0 == sccs.Length1 && Room(GraphOf(nodes), sccs.Length0)
      requires Tracks(s0) && s0.part == [] && WF(GraphOf(nodes), s0, {})
      modifies this`stack, this`index, this`sccCount, sccs, all`index, all`lowLink, all`onStack, all`next
      ensures Tracks(s) && s.part == [] && WF(GraphOf(nodes), s, {})
      ensures forall k :: k in nodes ==> Visited(s, k)
    {
      hide Room, Tracks, Keyed, Wired, WF, Visited, GraphOf, IsNode;
      s := s0;
      var ks := vertices.Keys;
      while ks != {}
        invariant ks <= vertices.Keys
        invariant Tracks(s) && WF(GraphOf(nodes), s, {}) && s.part == []
        invariant forall k :: k in vertices && k !in ks ==> Visited(s, k)
        decreases ks
      {
        var k :| k in ks;
        var tn := vertices[k];
        KeyedNode(k);
        s := VisitIfNew(tn, s);
        ks := ks - {k};
      }
    }

    /** Lists the strongly connected components of the waiting instances, dependencies first. */
    method StrongConnect() returns (ghost s: TState)
      requires Keyed() && nodes == vertices && Cleared() && Room(GraphOf(nodes), sccs.Length0)
      modifies this`stack, this`index, this`sccCount, sccs
      modifies all`index, all`lowLink, all`onStack, all`next, all`deps
      ensures Tracks(s) && s.stack == [] && s.part == [] && SccOrder(GraphOf(nodes), s.sccs)
    {
      WireAll();
      s := Fresh(GraphOf(nodes));
      FreshWF(GraphOf(nodes));
      s := VisitAll(s);
      AllVisited(s);
    }

    lemma AllVisited(s: TState)
      requires WF(GraphOf(nodes), s, {}) && forall k :: k in nodes ==> Visited(s, k)
      ensures s.stack == [] && SccOrder(GraphOf(nodes), s.sccs)
    {
      hide WF, SccOrder, Visited;
      assert Unvisited(GraphOf(nodes), s) == {};
      SearchDone(GraphOf(nodes), s);
    }

    lemma KeyedNode(k: Vertex)
      requires Keyed() && k in nodes
      ensures IsNode(nodes[k]) && nodes[k].key == k
    {
    }

    // ---------- ordering a component ----------

    method SetCell(p: nat, i: nat, n: TarjanNode, ghost rows: seq<seq<Vertex>>)
      requires Keyed() && IsNode(n) && TableIs(rows)
      requires p < |rows| && i < |rows[p]| && p < sccs.Length0 && i < sccs.Length1
      modifies sccs
      ensures TableIs(WithRow(rows, p, rows[p][i := n.key]))
    {
      sccs[p, i] := n;
    }

    lemma CellNode(p: nat, i: nat, rows: seq<seq<Vertex>>)
      requires Keyed() && TableIs(rows) && p < sccs.Length0 && i < sccs.Length1
      ensures p < |rows| && i < |rows[p]| && rows[p][i] in nodes ==>
        sccs[p, i] != null && IsNode(sccs[p, i]) && sccs[p, i].key == rows[p][i]
      ensures !(p < |rows| && i < |rows[p]|) ==> sccs[p, i] == null
    {
    }

    method PlaceCell(p: nat, j: nat, d: TarjanNode, ghost rows: seq<seq<Vertex>>, ghost row: seq<Vertex>,
        ghost out: seq<Vertex>)
      requires Keyed() && IsNode(d) && p < |rows| && p < sccs.Length0 && j < |row| && j < sccs.Length1
      requires TableIs(WithRow(rows, p, row)) && row[j := d.key] == out
      modifies sccs
      ensures TableIs(WithRow(rows, p, out))
    {
      hide TableIs, Keyed;
      SetCell(p, j, d, WithRow(rows, p, row));
      assert WithRow(WithRow(rows, p, row), p, out) == WithRow(rows, p, out);
    }

    /** Moves the entries of row p that precede cell i and exceed d one cell to the right. */
    method ShiftCells(p: nat, i: nat, d: TarjanNode, ghost rows: seq<seq<Vertex>>, ghost num: Numbers,
                      ghost q: seq<Vertex>, ghost rest: seq<Vertex>)
      returns (free: nat, ghost row: seq<Vertex>)
      requires Keyed() && TableIs(rows) && Numbered(nodes, num) && IsNode(d)
      requires p < |rows| && p < sccs.Length0 && |rows[p]| <= sccs.Length1 && i < |rows[p]|
      requires forall c :: 0 <= c < |rows[p]| ==> rows[p][c] in nodes
      requires Shifted(num, q, rest, d.key, rows[p], i)
      modifies sccs
      ensures free <= i && |row| == |rows[p]| && TableIs(WithRow(rows, p, row))
      ensures Shifted(num, q, rest, d.key, row, free)
      ensures free == 0 || Num(num, row[free - 1]) <= Num(num, d.key)
    {
      hide TableIs, Keyed, Shifted;
      row := rows[p];
      free := i;
      assert WithRow(rows, p, row) == rows;
      while free > 0 && sccs[p, free - 1] != null && sccs[p, free - 1].inst.seqNo > d.inst.seqNo
        invariant free <= i && |row| == |rows[p]|
        invariant TableIs(WithRow(rows, p, row))
        invariant forall c :: 0 <= c < |row| ==> row[c] in nodes
        invariant Shifted(num, q, rest, d.key, row, free)
      {
        CellNode(p, free - 1, WithRow(rows, p, row));
        ShiftStep(num, q, rest, d.key, row, free);
        ghost var moved := row[free := row[free - 1]];
        PlaceCell(p, free, sccs[p, free - 1], rows, row, moved);
        row := moved;
        free := free - 1;
      }
      if free > 0 {
        CellNode(p, free - 1, WithRow(rows, p, row));
      }
    }

    /** Puts the i-th entry of row p into its place among the sorted ones before it. */
    method InsertCell(p: nat, i: nat, d: TarjanNode, ghost rows: seq<seq<Vertex>>, ghost num: Numbers,
        ghost q: seq<Vertex>)
      requires Keyed() && TableIs(rows) && Numbered(nodes, num) && IsNode(d)
      requires p < |rows| && p < sccs.Length0 && |rows[p]| <= sccs.Length1 && i < |rows[p]|
      requires forall c :: 0 <= c < |rows[p]| ==> rows[p][c] in nodes
      requires rows[p][..i] == q && rows[p][i] == d.key
      modifies sccs
      ensures TableIs(WithRow(rows, p, InsertBySeq(num, q, d.key) + rows[p][i + 1..]))
    {
      hide TableIs, Keyed, InsertBySeq, Shifted, Numbered;
      ghost var rest: seq<Vertex> := rows[p][i + 1..];
      assert rows[p] == q + [d.key] + rest;
      ShiftStart(num, q, rest, d.key, rows[p]);
      var free;
      ghost var row;
      free, row := ShiftCells(p, i, d, rows, num, q, rest);
      ShiftEnd(num, q, rest, d.key, row, free);
      PlaceCell(p, free, d, rows, row, InsertBySeq(num, q, d.key) + rest);
    }

    /** Insertion sort of the p-th component by sequence number, in place. */
    method SortScc(p: nat, ghost rows: seq<seq<Vertex>>, ghost num: Numbers)
      requires Keyed() && TableIs(rows) && Numbered(nodes, num)
      requires p < |rows| && p < sccs.Length0 && |rows[p]| <= sccs.Length1
      requires forall v :: v in rows[p] ==> v in nodes
      modifies sccs
      ensures TableIs(WithRow(rows, p, SortBySeq(num, rows[p])))
    {
      hide TableIs, Keyed, InsertBySeq, Numbered;
      ghost var keys: seq<Vertex> := rows[p];
      ghost var row: seq<Vertex> := keys;
      SortFirst(num, keys);
      assert WithRow(rows, p, row) == rows;
      var i := 1;
      while i < sccs.Length1
        invariant 1 <= i
        invariant TableIs(WithRow(rows, p, row)) && |row| == |keys|
        invariant row == SortedTo(num, keys, if i <= |keys| then i else |keys|)
        invariant forall v :: v in row ==> v in nodes
      {
        ghost var now := WithRow(rows, p, row);
        CellNode(p, i, now);
        var d := sccs[p, i];
        if d != null {
          SortedNext(num, keys, i);
          InsertCell(p, i, d, now, num, row[..i]);
          row := SortedTo(num, keys, i + 1);
          assert WithRow(now, p, row) == WithRow(rows, p, row);
        }
        i := i + 1;
      }
      SortedAll(num, keys);
    }

    // ---------- executing a component ----------

    /** The waiting table holds some of the nodes of the search. */
    ghost predicate Waiting()
      reads this`vertices, this`nodes
    {
      forall k :: k in vertices ==> k in nodes && vertices[k] == nodes[k]
    }

    method Contains(p: nat, t: TarjanNode, ghost rows: seq<seq<Vertex>>) returns (found: bool)
      requires Keyed() && TableIs(rows) && IsNode(t) && p < |rows| && p < sccs.Length0 && |rows[p]| <= sccs.Length1
      requires forall v :: v in rows[p] ==> v in nodes
      ensures found <==> t.key in rows[p]
    {
      hide TableIs, Keyed;
      var i := 0;
      while i < sccs.Length1
        invariant 0 <= i <= sccs.Length1
        invariant forall j :: 0 <= j < i && j < |rows[p]| ==> rows[p][j] != t.key
      {
        CellNode(p, i, rows);
        if sccs[p, i] == t {
          return true;
        }
        i := i + 1;
      }
      return false;
    }

    /** Whether a dependency slot does not hold its component back. */
    method SlotReady(p: nat, d: Dependency, idx: Index, ghost rows: seq<seq<Vertex>>) returns (ok: bool)
      requires Keyed() && TableIs(rows) && Waiting() && IndexOk(nodes, idx) && Fits(d.id)
      requires p < |rows| && p < sccs.Length0 && |rows[p]| <= sccs.Length1
      requires forall v :: v in rows[p] ==> v in vertices
      ensures ok <==> (d.id.instanceId != 0 ==>
        DhKey(d.id) in rows[p] || (d.id in idx && IsState(idx[d.id].status, EXECUTED)))
    {
      hide TableIs, DhKey, Fits;
      if d.id.instanceId == 0 {
        return true;
      }
      var k := DhKey(d.id);
      if k in vertices {
        var c := Contains(p, vertices[k], rows);
        if c {
          return true;
        }
      }
      ok := d.id in idx && IsState(idx[d.id].status, EXECUTED);
    }

    /** Looking an id up finds what its table key stands for. */
    lemma FoundById(idx: Index, id: InstanceId)
      requires IndexOk(nodes, idx) && Fits(id)
      ensures DhKey(id) in Found(idx) <==> id in idx && IsState(idx[id].status, EXECUTED)
    {
      hide DhKey, Fits;
      if DhKey(id) in Found(idx) {
        var x :| x in idx && IsState(idx[x].status, EXECUTED) && DhKey(x) == DhKey(id);
        DhKeyInjective(x, id);
      }
    }

    /** The two loops over the members and their slots. */
    method ScanReady(p: nat, idx: Index, ghost rows: seq<seq<Vertex>>, ghost c: Committed) returns (ok: bool)
      requires Keyed() && TableIs(rows) && Waiting() && IndexOk(nodes, idx) && Matches(nodes, c)
      requires p < |rows| && p < sccs.Length0 && |rows[p]| <= sccs.Length1
      requires forall v :: v in rows[p] ==> v in vertices
      ensures ok <==> Ready(c, rows[p], Found(idx))
    {
      hide TableIs, Keyed, IndexOk, Fits, DhKey, Found, SlotKeys, Numbered;
      var i := 0;
      while i < sccs.Length1
        invariant 0 <= i <= sccs.Length1
        invariant forall m :: 0 <= m < i && m < |rows[p]| ==> MemberReady(c, rows[p], rows[p][m], Found(idx))
      {
        CellNode(p, i, rows);
        var v := sccs[p, i];
        if v != null {
          ghost var comp: seq<Vertex> := rows[p];
          var j := 0;
          while j < MAX_DEPS
            invariant 0 <= j <= MAX_DEPS
            invariant forall m :: 0 <= m < j ==> SlotFine(v.inst.deps[m], comp, Found(idx))
          {
            ok := SlotReady(p, v.inst.deps[j], idx, rows);
            SlotMeans(v.inst.deps[j], idx, comp);
            if !ok {
              SlotBlocks(c, v, j, comp, Found(idx));
              return false;
            }
            j := j + 1;
          }
          SlotsReady(c, v, comp, Found(idx));
        }
        i := i + 1;
      }
      return true;
    }

    /** Whether every dependency of every member lies in the component or is executed. */
    method IsReady(p: nat, idx: Index, ghost rows: seq<seq<Vertex>>, ghost c: Committed) returns (ok: bool)
      requires Keyed() && TableIs(rows) && Waiting() && IndexOk(nodes, idx) && Matches(nodes, c)
      requires p < |rows| && p < sccs.Length0 && |rows[p]| <= sccs.Length1
      requires forall v :: v in rows[p] ==> v in vertices
      ensures ok <==> Ready(c, rows[p], Found(idx))
      ensures ok <==> SlotsFine(rows[p], idx)
    {
      ReadySlots(c, rows[p], idx);
      hide TableIs, Keyed, IndexOk, Fits, DhKey, Found, Numbered, SlotsFine, Ready, Matches;
      ok := ScanReady(p, idx, rows, c);
    }

    lemma SlotMeans(d: Dependency, idx: Index, comp: seq<Vertex>)
      requires IndexOk(nodes, idx) && Fits(d.id)
      ensures SlotFine(d, comp, Found(idx)) <==> (d.id.instanceId != 0 ==>
        DhKey(d.id) in comp || (d.id in idx && IsState(idx[d.id].status, EXECUTED)))
    {
      FoundById(idx, d.id);
      hide DhKey, Fits, Found, IndexOk;
      if d.id.instanceId != 0 {
        assert DhKey(d.id) in SlotKeys(d);
      }
    }

    ghost predicate SlotFine(d: Dependency, comp: seq<Vertex>, found: set<Vertex>) {
      forall k :: k in SlotKeys(d) ==> k in comp || k in found
    }

    ghost predicate MemberReady(c: Committed, comp: seq<Vertex>, v: Vertex, found: set<Vertex>) {
      forall d :: Edge(c.deps, v, d) ==> d in comp || d in found
    }

    /** Whatever fills a slot of a member is a member itself, or indexed as executed. */
    ghost predicate SlotsFine(comp: seq<Vertex>, idx: Index)
      reads this`nodes, idx.Values`status
    {
      forall v, j :: v in comp && v in nodes && 0 <= j < MAX_DEPS && nodes[v].inst.deps[j].id.instanceId != 0 ==>
        var id := nodes[v].inst.deps[j].id;
        DhKey(id) in comp || (id in idx && IsState(idx[id].status, EXECUTED))
    }

    lemma ReadySlots(c: Committed, comp: seq<Vertex>, idx: Index)
      requires Matches(nodes, c) && IndexOk(nodes, idx) && forall v :: v in comp ==> v in nodes
      ensures Ready(c, comp, Found(idx)) <==> SlotsFine(comp, idx)
    {
      hide DhKey, Fits, DepKeys, SlotKeys, Found, IndexOk;
      forall v, k | v in comp
        ensures var deps := nodes[v].inst.deps;
          Edge(c.deps, v, k) <==>
            exists j :: 0 <= j < MAX_DEPS && deps[j].id.instanceId != 0 && DhKey(deps[j].id) == k
      {
        DepKeysExact(nodes[v].inst.deps, k);
      }
      forall v, j | v in comp && 0 <= j < MAX_DEPS
        ensures var id := nodes[v].inst.deps[j].id;
          DhKey(id) in Found(idx) <==> id in idx && IsState(idx[id].status, EXECUTED)
      {
        FoundById(idx, nodes[v].inst.deps[j].id);
      }
      if Ready(c, comp, Found(idx)) {
        forall v, j | v in comp && 0 <= j < MAX_DEPS && nodes[v].inst.deps[j].id.instanceId != 0
          ensures DhKey(nodes[v].inst.deps[j].id) in comp || DhKey(nodes[v].inst.deps[j].id) in Found(idx)
        {
          assert Edge(c.deps, v, DhKey(nodes[v].inst.deps[j].id));
        }
      }
    }

    lemma SlotBlocks(c: Committed, v: TarjanNode, j: nat, comp: seq<Vertex>, found: set<Vertex>)
      requires Matches(nodes, c) && IsNode(v) && j < MAX_DEPS && !SlotFine(v.inst.deps[j], comp, found)
      ensures !MemberReady(c, comp, v.key, found)
    {
      hide Numbered, SlotKeys, Fits;
      var k :| k in SlotKeys(v.inst.deps[j]) && k !in comp && k !in found;
      assert k in DepKeys(v.inst.deps);
      assert Edge(c.deps, v.key, k);
    }

    lemma SlotsReady(c: Committed, v: TarjanNode, comp: seq<Vertex>, found: set<Vertex>)
      requires Matches(nodes, c) && IsNode(v)
      requires forall m :: 0 <= m < MAX_DEPS ==> SlotFine(v.inst.deps[m], comp, found)
      ensures MemberReady(c, comp, v.key, found)
    {
      hide Numbered, SlotKeys, Fits;
      forall d | Edge(c.deps, v.key, d) ensures d in comp || d in found {
        assert d in DepKeys(v.inst.deps);
        var m :| 0 <= m < MAX_DEPS && d in SlotKeys(v.inst.deps[m]);
        assert SlotFine(v.inst.deps[m], comp, found);
      }
    }

    /** insts are the instances of the nodes of the search. */
    ghost predicate InstsAre()
      reads this`nodes, this`insts
    {
      && (forall k :: k in nodes ==> nodes[k].inst in insts && DhKey(nodes[k].inst.key) == k)
      && (forall i :: i in insts ==> DhKey(i.key) in nodes && nodes[DhKey(i.key)].inst == i)
    }

    ghost predicate StatusIs(before: map<CommittedInstance, State>, comp: set<Vertex>)
      reads this`insts, insts`status
    {
      forall i :: i in insts ==> i in before && i.status == (if DhKey(i.key) in comp then EXECUTED else before[i])
    }

    /** Takes one instance off the table and marks it. */
    method MarkOne(n: TarjanNode, ghost before: map<CommittedInstance, State>, ghost comp: set<Vertex>)
      requires Keyed() && IsNode(n) && InstsAre() && StatusIs(before, comp)
      modifies this`vertices, n.inst`status
      ensures vertices == old(vertices) - {n.key}
      ensures StatusIs(before, comp + {n.key})
    {
      hide DhKey;
      var k := DhKey(n.inst.key);
      assert k == n.key && n.inst in insts;
      if k in vertices {
        vertices := vertices - {k};
      }
      n.inst.status := EXECUTED;
    }

    /** Every member of row p leaves the table as executed. */
    method MarkExecuted(p: nat, ghost rows: seq<seq<Vertex>>, ghost before: map<CommittedInstance, State>)
      requires Keyed() && TableIs(rows) && InstsAre() && StatusIs(before, {})
      requires p < |rows| && p < sccs.Length0 && |rows[p]| <= sccs.Length1
      requires forall v :: v in rows[p] ==> v in nodes
      modifies this`vertices, insts`status
      ensures vertices == old(vertices) - Elements(rows[p])
      ensures StatusIs(before, Elements(rows[p]))
    {
      hide TableIs, StatusIs;
      ghost var done: set<Vertex> := {};
      var i := 0;
      assert vertices == old(vertices) - {};
      while i < sccs.Length1
        invariant 0 <= i <= sccs.Length1
        invariant vertices == old(vertices) - done && StatusIs(before, done)
        invariant done <= Elements(rows[p])
        invariant forall m :: 0 <= m < i && m < |rows[p]| ==> rows[p][m] in done
      {
        CellNode(p, i, rows);
        var n := sccs[p, i];
        if n != null {
          assert n.inst in insts;
          MarkOne(n, before, done);
          done := done + {n.key};
        }
        i := i + 1;
      }
      assert done == Elements(rows[p]);
    }

    /** What the index shows as executed is what was executed and is still indexed. */
    ghost predicate FoundIs(idx: Index, indexed: set<Vertex>)
      reads this`blocks, idx.Values`status
    {
      Found(idx) == Done(blocks) * indexed
    }

    ghost function ExecutedIds(idx: Index): set<InstanceId>
      reads idx.Values`status
    {
      set id | id in idx && IsState(idx[id].status, EXECUTED)
    }

    /** Marking comp makes its indexed members found. */
    lemma FoundAfter(idx: Index, comp: set<Vertex>, before: set<InstanceId>)
      requires before <= idx.Keys
      requires forall id :: id in idx ==> (id in ExecutedIds(idx) <==> DhKey(id) in comp || id in before)
      ensures Found(idx) == (set id | id in before :: DhKey(id)) + IndexKeys(idx) * comp
    {
      hide DhKey;
    }

    /** MarkExecuted seen through the index. */
    method MarkFound(p: nat, idx: Index, ghost rows: seq<seq<Vertex>>)
      requires Keyed() && TableIs(rows) && InstsAre() && IndexOk(nodes, idx)
      requires p < |rows| && p < sccs.Length0 && |rows[p]| <= sccs.Length1
      requires forall v :: v in rows[p] ==> v in nodes
      modifies this`vertices, insts`status
      ensures vertices == old(vertices) - Elements(rows[p])
      ensures Found(idx) == old(Found(idx)) + IndexKeys(idx) * Elements(rows[p])
      ensures forall i :: i in insts ==> i.status == (if DhKey(i.key) in rows[p] then EXECUTED else old(i.status))
    {
      ghost var before := map i | i in insts :: i.status;
      ghost var ids := ExecutedIds(idx);
      ghost var comp := Elements(rows[p]);
      MarkExecuted(p, rows, before);
      hide TableIs, DhKey, Fits, Keyed;
      forall id | id in idx ensures id in ExecutedIds(idx) <==> DhKey(id) in comp || id in ids {
        MarkedEntry(idx, id, comp, before);
      }
      FoundAfter(idx, comp, ids);
    }

    lemma MarkedEntry(idx: Index, id: InstanceId, comp: set<Vertex>, before: map<CommittedInstance, State>)
      requires InstsAre() && IndexOk(nodes, idx) && id in idx && comp <= nodes.Keys && StatusIs(before, comp)
      ensures DhKey(id) in nodes ==> idx[id] in insts && idx[id] in before
      ensures DhKey(id) in nodes ==> idx[id].status == (if DhKey(id) in comp then EXECUTED else before[idx[id]])
      ensures DhKey(id) !in nodes ==> idx[id] !in insts && DhKey(id) !in comp
    {
      hide DhKey, Fits;
    }

    ghost function View(): EngineState
      reads this`vertices, this`blocks
    {
      EngineState(vertices.Keys, blocks)
    }

    /** Sorts row p and marks its members executed. */
    method SortAndMark(p: nat, idx: Index, ghost rows: seq<seq<Vertex>>, ghost c: Committed)
      requires Keyed() && TableIs(rows) && InstsAre() && IndexOk(nodes, idx) && Matches(nodes, c)
      requires p < |rows| && p < sccs.Length0 && |rows[p]| <= sccs.Length1
      requires forall v :: v in rows[p] ==> v in nodes
      modifies this`vertices, sccs, insts`status
      ensures TableIs(WithRow(rows, p, SortBySeq(c.seqNo, rows[p])))
      ensures vertices == old(vertices) - Elements(rows[p])
      ensures Found(idx) == old(Found(idx)) + IndexKeys(idx) * Elements(rows[p])
    {
      hide TableIs, DhKey, Fits, Keyed, Found, IndexOk, Matches, InstsAre, Numbered;
      Numbers(c);
      SortMembers(c.seqNo, rows[p]);
      ghost var row: seq<Vertex> := SortBySeq(c.seqNo, rows[p]);
      SortScc(p, rows, c.seqNo);
      MarkFound(p, idx, WithRow(rows, p, row));
      assert Elements(row) == Elements(rows[p]);
    }

    /** One component of the pass. */
    method ExecuteScc(p: nat, idx: Index, ghost rows: seq<seq<Vertex>>, ghost c: Committed, ghost indexed: set<Vertex>)
      returns (ghost after: seq<seq<Vertex>>)
      requires Keyed() && TableIs(rows) && InstsAre() && IndexOk(nodes, idx) && Matches(nodes, c) && Waiting()
      requires p < |rows| && p < sccs.Length0 && |rows[p]| <= sccs.Length1
      requires forall v :: v in rows[p] ==> v in vertices
      requires FoundIs(idx, indexed)
      requires forall v :: v in rows[p] ==> (v in indexed <==> v in IndexKeys(idx))
      requires Done(blocks) * Elements(rows[p]) == {}
      modifies this`vertices, this`blocks, sccs, insts`status
      ensures TableIs(after) && |after| == |rows| && forall q :: 0 <= q < |rows| && q != p ==> after[q] == rows[q]
      ensures View() == ExecuteOne(c, rows[p], indexed, old(View())) && Waiting()
      ensures FoundIs(idx, indexed)
    {
      hide TableIs, DhKey, Fits, Keyed, Found, IndexOk, Matches, InstsAre, Done, Ready, SortBySeq, IndexKeys;
      after := rows;
      var ok := IsReady(p, idx, rows, c);
      if ok {
        ghost var comp: seq<Vertex> := rows[p];
        SortAndMark(p, idx, rows, c);
        after := WithRow(rows, p, SortBySeq(c.seqNo, comp));
        SortMembers(c.seqNo, comp);
        DoneAdd(blocks, SortBySeq(c.seqNo, comp));
        assert Elements(SortBySeq(c.seqNo, comp)) == Elements(comp);
        blocks := blocks + [SortBySeq(c.seqNo, comp)];
      }
    }

    lemma Numbers(c: Committed)
      requires Matches(nodes, c)
      ensures Numbered(nodes, c.seqNo)
    {
      hide DhKey, Fits;
    }

    lemma SearchTable(s: TState, c: Committed)
      requires Tracks(s) && s.part == [] && SccOrder(GraphOf(nodes), s.sccs)
      requires Room(GraphOf(nodes), sccs.Length0)
      requires Matches(nodes, c)
      ensures TableIs(s.sccs) && sccCount == |s.sccs| <= sccs.Length0 == sccs.Length1
      ensures forall p :: 0 <= p < |s.sccs| ==> |s.sccs[p]| <= sccs.Length1
      ensures GraphOf(nodes) == Restrict(c.deps, nodes.Keys)
    {
      hide SccOrder, DhKey, Fits, DepKeys, Numbered, Room, Chain, NumbersAre, FlagsAre, GraphOf;
      RoomExact(GraphOf(nodes), s.sccs, sccs.Length0);
      GraphIs(c);
    }

    /** The graph that the search sees is the part of the committed graph that waits. */
    lemma GraphIs(c: Committed)
      requires Matches(nodes, c)
      ensures GraphOf(nodes) == Restrict(c.deps, nodes.Keys)
    {
      hide DhKey, Fits, DepKeys, Numbered;
    }

    /** Between passes: what is waiting belongs to c, and the index shows as executed only
        instances that this engine executed. */
    ghost predicate Idle(idx: Index, c: Committed)
      reads this`vertices, this`blocks, this`sccCount, this`stack, this`index, sccs, idx.Values`status
    {
      && Cleared()
      && Matches(vertices, c) && IndexOk(vertices, idx)
      && (forall id :: id in idx && IsState(idx[id].status, EXECUTED) ==> DhKey(id) in Done(blocks))
      && Inv(c, View())
    }

    lemma Setup(idx: Index, c: Committed)
      requires nodes == vertices && all == vertices.Values && insts == InstSet(vertices) && Idle(idx, c)
      ensures sccs.Length0 == sccs.Length1 && Cleared() && Matches(nodes, c) && IndexOk(nodes, idx) && Inv(c, View())
      ensures GraphOf(nodes) == Restrict(c.deps, vertices.Keys)
      ensures Keyed() && InstsAre() && FoundIs(idx, Indexed(vertices, idx))
      ensures forall v :: v in vertices ==> (v in Indexed(vertices, idx) <==> v in IndexKeys(idx))
    {
      hide DhKey, Fits, DepKeys, Numbered, BlocksOk, GraphOf, Restrict;
      GraphIs(c);
      assert Found(idx) <= IndexKeys(idx);
    }

    lemma IdleAgain(idx: Index, c: Committed, indexed: set<Vertex>)
      requires Matches(nodes, c) && IndexOk(nodes, idx) && Waiting() && Cleared() && FoundIs(idx, indexed)
      requires Inv(c, View())
      ensures Idle(idx, c) && Found(idx) == Done(blocks) * indexed
    {
      hide DhKey, Fits, DepKeys, Inv, Cleared;
      assert forall id :: id in idx && IsState(idx[id].status, EXECUTED) ==> DhKey(id) in Found(idx);
    }

    /** Executes, component by component, whatever the last arrival has made executable. */
    method Execute(idx: Index, ghost c: Committed)
      requires Idle(idx, c) && Room(Restrict(c.deps, vertices.Keys), sccs.Length0)
      modifies this, sccs, vertices.Values, InstSet(vertices)`status
      ensures Idle(idx, c) && Found(idx) == Done(blocks) * old(Indexed(vertices, idx))
      ensures Pass(c, old(Indexed(vertices, idx)), old(View()), View())
    {
      hide Tracks, TableIs, DhKey, Fits, Keyed, Found, IndexOk, Matches, InstsAre, Done, SccOrder, Inv, PassUpTo, Pass,
           InstSet, IndexKeys, Indexed, GraphOf, Cleared, Restrict, Room, Idle, FoundIs, Waiting;
      ghost var start, indexed := View(), Indexed(vertices, idx);
      nodes, all, insts := vertices, vertices.Values, InstSet(vertices);
      Setup(idx, c);
      ghost var s := StrongConnect();
      RunPass(idx, s, c, indexed);
      PassMade(c, s.sccs, indexed, start, View());
      Reset();
      IdleAgain(idx, c, indexed);
    }

    /** The i-th component of the pass that began in the state start. */
    method RunOne(i: nat, idx: Index, ghost rows: seq<seq<Vertex>>, ghost s: TState, ghost c: Committed,
                  ghost indexed: set<Vertex>, ghost start: EngineState)
      returns (ghost after: seq<seq<Vertex>>)
      requires Keyed() && TableIs(rows) && InstsAre() && IndexOk(nodes, idx) && Matches(nodes, c) && Waiting()
      requires i < |s.sccs| == |rows| <= sccs.Length0 && |s.sccs[i]| <= sccs.Length1
      requires forall q :: i <= q < |rows| ==> rows[q] == s.sccs[q]
      requires Inv(c, start) && SccOrder(Restrict(c.deps, start.waiting), s.sccs)
      requires View() == PassUpTo(c, s.sccs, i, indexed, start) && FoundIs(idx, indexed)
      requires forall v :: v in start.waiting ==> (v in indexed <==> v in IndexKeys(idx))
      modifies this`vertices, this`blocks, sccs, insts`status
      ensures TableIs(after) && |after| == |rows| && forall q :: i < q < |rows| ==> after[q] == s.sccs[q]
      ensures View() == PassUpTo(c, s.sccs, i + 1, indexed, start) && Waiting() && FoundIs(idx, indexed)
    {
      hide TableIs, DhKey, Fits, Keyed, IndexOk, Matches, InstsAre, SccOrder, Inv, ExecuteOne, PassUpTo,
           IndexKeys, Restrict, FoundIs;
      PassKeeps(c, s.sccs, i, indexed, start);
      PassNext(c, s.sccs, i, indexed, start);
      RowWaits(c, s.sccs[i]);
      RowStarts(c, start, s.sccs, i);
      after := ExecuteScc(i, idx, rows, c, indexed);
    }

    lemma RowStarts(c: Committed, s: EngineState, sccs: seq<seq<Vertex>>, i: nat)
      requires SccOrder(Restrict(c.deps, s.waiting), sccs) && i < |sccs|
      ensures forall v :: v in sccs[i] ==> v in s.waiting
    {
      hide SameScc;
    }

    method RunPass(idx: Index, ghost s: TState, ghost c: Committed, ghost indexed: set<Vertex>)
      requires Keyed() && nodes == vertices && InstsAre() && Matches(nodes, c) && IndexOk(nodes, idx)
      requires Tracks(s) && s.part == [] && SccOrder(GraphOf(nodes), s.sccs)
      requires Room(GraphOf(nodes), sccs.Length0)
      requires Inv(c, View()) && FoundIs(idx, indexed)
      requires forall v :: v in vertices ==> (v in indexed <==> v in IndexKeys(idx))
      modifies this`vertices, this`blocks, sccs, insts`status
      ensures View() == PassUpTo(c, s.sccs, |s.sccs|, indexed, old(View())) && Waiting() && FoundIs(idx, indexed)
      ensures SccOrder(Restrict(c.deps, old(View()).waiting), s.sccs)
    {
      hide Tracks, TableIs, DhKey, Fits, Keyed, IndexOk, Matches, InstsAre, SccOrder, Inv, ExecuteOne, PassUpTo,
           IndexKeys, GraphOf, Restrict, FoundIs;
      SearchTable(s, c);
      ghost var start := View();
      ghost var rows := s.sccs;
      PassStart(c, s.sccs, indexed, start);
      var i := 0;
      while i < sccCount
        invariant 0 <= i <= sccCount == |s.sccs| == |rows|
        invariant TableIs(rows) && forall q :: i <= q < |rows| ==> rows[q] == s.sccs[q]
        invariant View() == PassUpTo(c, s.sccs, i, indexed, start) && Waiting() && FoundIs(idx, indexed)
      {
        rows := RunOne(i, idx, rows, s, c, indexed, start);
        i := i + 1;
      }
    }

    lemma RowWaits(c: Committed, comp: seq<Vertex>)
      requires Inv(c, View()) && Elements(comp) <= View().waiting
      ensures Done(blocks) * Elements(comp) == {} && forall v :: v in comp ==> v in vertices
    {
      hide BlocksOk;
      assert forall v :: v in comp ==> v in Elements(comp);
    }

    // ---------- arrivals ----------

    /** An engine with nothing to execute and room for capacity waiting instances. */
    constructor (capacity: nat)
      ensures Cleared() && sccs.Length0 == capacity && fresh(sccs)
      ensures View() == EMPTY
    {
      vertices, blocks := map[], [];
      sccs := new TarjanNode?[capacity, capacity]((p, i) => null);
      sccCount, stack, index := 0, null, 0;
      nodes, all, insts := map[], {}, {};
    }

    /** Puts an instance into the table; a copy of a waiting one replaces it. */
    method AddNode(i: CommittedInstance) returns (added: bool, ghost n: TarjanNode)
      modifies this`vertices
      ensures added <==> DhKey(i.key) !in old(vertices)
      ensures fresh(n) && n.inst == i && n.key == DhKey(i.key)
      ensures vertices == old(vertices)[DhKey(i.key) := n]
    {
      hide DhKey;
      var node := new TarjanNode(i);
      var k := DhKey(i.key);
      added := k !in vertices;
      vertices := vertices[k := node];
      n := node;
    }

    /** i is one of the committed instances of c. */
    ghost predicate Committed?(i: CommittedInstance, c: Committed) {
      && DhKey(i.key) in c.deps && c.deps[DhKey(i.key)] == DepKeys(i.deps) && Num(c.seqNo, DhKey(i.key)) == i.seqNo
      && forall j :: 0 <= j < MAX_DEPS ==> Fits(i.deps[j].id)
    }

    /** On what an instance depends: exactly on the instances in the filled slots of its array. */
    lemma SlotEdges(i: CommittedInstance, c: Committed, k: Vertex)
      requires Committed?(i, c)
      ensures Edge(c.deps, DhKey(i.key), k) <==>
        exists j :: 0 <= j < MAX_DEPS && i.deps[j].id.instanceId != 0 && DhKey(i.deps[j].id) == k
    {
      DepKeysExact(i.deps, k);
    }

    /** Whatever fills a slot of an executed instance is executed, and earlier in the log unless
        the two are on one cycle; whether the slot is flagged committed makes no difference. */
    lemma SlotFirst(s: EngineState, i: CommittedInstance, c: Committed, j: nat)
      requires Inv(c, s) && Committed?(i, c) && DhKey(i.key) in Done(s.blocks)
      requires j < MAX_DEPS && i.deps[j].id.instanceId != 0
      ensures var k, d := DhKey(i.key), DhKey(i.deps[j].id);
        && d in Done(s.blocks)
        && (SameScc(c.deps, k, d) || (LogBefore(Log(s.blocks), d, k) && !LogBefore(Log(s.blocks), k, d)))
    {
      var k, d := DhKey(i.key), DhKey(i.deps[j].id);
      SlotEdges(i, c, d);
      hide DhKey, Committed?, BlocksOk, LogBefore, Log, SameScc;
      ReachEdge(c.deps, k, d);
      if SameScc(c.deps, k, d) {
        CycleDone(c, s, k, d);
      } else {
        DependencyFirst(c, s, k, d);
      }
    }

    /** So it is at every point of every run, */
    lemma RunSlotFirst(c: Committed, ks: seq<Vertex>, found: seq<set<Vertex>>, ss: seq<EngineState>, n: nat,
        i: CommittedInstance, j: nat)
      requires Run(c, ks, found, ss) && n <= |ks| && Committed?(i, c) && DhKey(i.key) in Done(ss[n].blocks)
      requires j < MAX_DEPS && i.deps[j].id.instanceId != 0
      ensures var k, d := DhKey(i.key), DhKey(i.deps[j].id);
        && d in Done(ss[n].blocks)
        && (SameScc(c.deps, k, d) || (LogBefore(Log(ss[n].blocks), d, k) && !LogBefore(Log(ss[n].blocks), k, d)))
    {
      hide DhKey, Committed?, Inv, LogBefore, Log, SameScc, Arrival;
      RunSafe(c, ks, found, ss, n);
      SlotFirst(ss[n], i, c, j);
    }

    /** and of the engine itself after every turn of its loop. */
    lemma IdleSlotFirst(idx: Index, c: Committed, i: CommittedInstance, j: nat)
      requires Idle(idx, c) && Committed?(i, c) && DhKey(i.key) in Done(blocks)
      requires j < MAX_DEPS && i.deps[j].id.instanceId != 0
      ensures var k, d := DhKey(i.key), DhKey(i.deps[j].id);
        && d in Done(blocks)
        && (SameScc(c.deps, k, d) || (LogBefore(Log(blocks), d, k) && !LogBefore(Log(blocks), k, d)))
    {
      hide DhKey, Committed?, Inv, LogBefore, Log, SameScc, Matches, IndexOk, Cleared;
      SlotFirst(View(), i, c, j);
    }

    lemma Added(before: Nodes, i: CommittedInstance, n: TarjanNode, idx: Index, c: Committed)
      requires Matches(before, c) && Committed?(i, c) && n.inst == i && n.key == DhKey(i.key)
      requires IndexOk(before, idx) && forall id :: id in idx && DhKey(id) == DhKey(i.key) ==> idx[id] == i
      ensures Matches(before[DhKey(i.key) := n], c) && IndexOk(before[DhKey(i.key) := n], idx)
    {
      hide DhKey, Fits, DepKeys;
    }

    lemma AddedInv(c: Committed, s: EngineState, k: Vertex)
      requires Inv(c, s) && k in c.deps && k !in Done(s.blocks)
      ensures Inv(c, s.(waiting := s.waiting + {k}))
    {
      hide BlocksOk;
    }

    /** The loop of the engine: one received instance is added and, if it is new, a pass follows. */
    method Arrive(i: CommittedInstance, idx: Index, ghost c: Committed)
      requires Idle(idx, c) && Room(Restrict(c.deps, vertices.Keys + {DhKey(i.key)}), sccs.Length0)
      requires Committed?(i, c) && DhKey(i.key) !in Done(blocks)
      requires forall id :: id in idx && DhKey(id) == DhKey(i.key) ==> idx[id] == i
      modifies this, sccs, vertices.Values, InstSet(vertices)`status, i`status
      ensures Idle(idx, c)
      ensures Arrival(c, DhKey(i.key), old(Found(idx) + IndexKeys(idx) * (vertices.Keys + {DhKey(i.key)})),
                      old(View()), View())
    {
      hide DhKey, Fits, DepKeys, Found, Done, Inv, Pass, InstSet, IndexKeys, Numbered, Idle;
      var added := AddIdle(i, idx, c);
      if added {
        Execute(idx, c);
      }
    }

    method AddIdle(i: CommittedInstance, idx: Index, ghost c: Committed) returns (added: bool)
      requires Idle(idx, c) && Committed?(i, c) && DhKey(i.key) !in Done(blocks)
      requires forall id :: id in idx && DhKey(id) == DhKey(i.key) ==> idx[id] == i
      modifies this`vertices
      ensures Idle(idx, c) && DhKey(i.key) in c.deps
      ensures View() == old(View()).(waiting := old(View()).waiting + {DhKey(i.key)})
      ensures added <==> DhKey(i.key) !in old(vertices)
      ensures vertices.Keys == old(vertices).Keys + {DhKey(i.key)}
      ensures forall k :: k in vertices ==> vertices[k] in old(vertices).Values || fresh(vertices[k])
      ensures InstSet(vertices) <= old(InstSet(vertices)) + {i}
    {
      hide DhKey, Fits, DepKeys, Found, Done, Inv, IndexKeys, Numbered, Matches, IndexOk, InstSet, Cleared;
      ghost var before, s := vertices, View();
      ghost var n;
      added, n := AddNode(i);
      Added(before, i, n, idx, c);
      AddedInv(c, s, DhKey(i.key));
      InstSetAdd(before, DhKey(i.key), n);
      assert vertices.Keys == before.Keys + {DhKey(i.key)};
      assert View() == s.(waiting := s.waiting + {DhKey(i.key)});
    }

    lemma InstSetAdd(before: Nodes, k: Vertex, n: TarjanNode)
      ensures InstSet(before[k := n]) <= InstSet(before) + {n.inst}
      ensures before[k := n].Values <= before.Values + {n}
    {
    }
  }
}
