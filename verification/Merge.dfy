/** Merging a span into the group of spans it was found to meet: one pass over a linked list
    that grows the span in place and unlinks what it absorbs. */
module Merging {
  import opened Commands

  // ---------- growing a span ----------

  /** The smallest span around both. */
  function Hull(t: Span, c: Span): Span {
    Span(if StrCmp(t.start, c.start) > 0 then c.start else t.start,
         if StrCmp(t.end, c.end) < 0 then c.end else t.end)
  }

  function Grow(t: Span, c: Span): Span {
    if Overlaps(t, c) then Hull(t, c) else t
  }

  /** t after it has met ss in order. */
  function GrowAll(t: Span, ss: seq<Span>): Span {
    if ss == [] then t else Grow(GrowAll(t, ss[..|ss| - 1]), ss[|ss| - 1])
  }

  /** Two overlapping spans have no gap: their hull covers just what they cover. */
  lemma HullCovers(t: Span, c: Span, k: Key)
    requires Proper(t) && Proper(c) && Overlaps(t, c)
    ensures Proper(Hull(t, c))
    ensures Covers(Hull(t, c), k) <==> Covers(t, k) || Covers(c, k)
  {
    var h := Hull(t, c);
    LeTotal(t.start, c.start);
    LeTotal(t.end, c.end);
    LeTotal(t.end, c.start);
    LeTotal(c.end, t.start);
    HullBounds(t, c);
    if Covers(t, k) || Covers(c, k) {
      var s := if Covers(t, k) then t else c;
      LeTrans(h.start, s.start, k);
      LeTrans(k, s.end, h.end);
    }
    if Covers(h, k) {
      LeTotal(k, t.start);
      LeTotal(k, t.end);
      LeTotal(k, c.start);
      LeTotal(k, c.end);
      Inside(t, c, k);
    }
    LeTrans(h.start, t.start, t.end);
    LeTrans(h.start, t.end, h.end);
  }

  lemma HullBounds(t: Span, c: Span)
    ensures var h := Hull(t, c);
      Le(h.start, t.start) && Le(h.start, c.start) && Le(t.end, h.end) && Le(c.end, h.end)
  {
    LeTotal(t.start, c.start);
    LeTotal(t.end, c.end);
    LeSelf(t.start);
    LeSelf(c.start);
    LeSelf(t.end);
    LeSelf(c.end);
  }

  /** A key of the hull that missed both spans would lie in a gap between them. */
  lemma Inside(t: Span, c: Span, k: Key)
    requires Proper(t) && Proper(c) && Overlaps(t, c) && Covers(Hull(t, c), k)
    ensures Covers(t, k) || Covers(c, k)
  {
    hide Le, StrCmp;
    LeTotal(t.start, c.start);
    LeTotal(t.end, c.end);
    LeTotal(k, t.start);
    LeTotal(k, t.end);
    LeTotal(k, c.start);
    LeTotal(k, c.end);
    LeTotal(t.end, c.start);
    LeTotal(c.end, t.start);
    LeTotal(t.start, c.end);
    if !Covers(t, k) && !Covers(c, k) {
      if Le(k, t.end) && !Le(t.start, k) {
        LeTrans(c.end, k, t.start);
      } else {
        LeTrans(t.end, k, c.start);
      }
    }
  }

  /** Growing by c brings no new meeting with a span that c does not meet. */
  lemma HullMeets(t: Span, c: Span, s: Span)
    requires Proper(t) && Proper(c) && Proper(s) && Overlaps(t, c) && !Overlaps(c, s)
    ensures Overlaps(Hull(t, c), s) <==> Overlaps(t, s)
  {
    hide Overlaps, Hull, Proper;
    forall k ensures Proper(Hull(t, c)) && (Covers(Hull(t, c), k) <==> Covers(t, k) || Covers(c, k)) {
      HullCovers(t, c, k);
    }
    HullCovers(t, c, "");
    OverlapShared(Hull(t, c), s);
    OverlapShared(t, s);
    OverlapShared(c, s);
  }

  // ---------- growing over a list ----------

  /** Proper spans, no two of which overlap. */
  ghost predicate Apart(ss: seq<Span>) {
    && (forall i :: 0 <= i < |ss| ==> Proper(ss[i]))
    && (forall i, j :: 0 <= i < j < |ss| ==> !Overlaps(ss[i], ss[j]))
  }

  /** Which spans the merged one absorbs is settled from the start: growing over spans that
      lie apart from s never makes a meeting with s. */
  lemma {:induction false} GrowAllMeets(t: Span, ss: seq<Span>, s: Span)
    requires Proper(t) && Proper(s) && Apart(ss) && forall i :: 0 <= i < |ss| ==> !Overlaps(ss[i], s)
    ensures Proper(GrowAll(t, ss))
    ensures Overlaps(GrowAll(t, ss), s) <==> Overlaps(t, s)
  {
    hide Overlaps, Proper, Hull;
    if ss != [] {
      var front, c := ss[..|ss| - 1], ss[|ss| - 1];
      GrowAllMeets(t, front, s);
      if Overlaps(GrowAll(t, front), c) {
        HullMeets(GrowAll(t, front), c, s);
        HullCovers(GrowAll(t, front), c, "");
      }
    }
  }

  /** The grown span covers what it started with and all that it met, and nothing else. */
  lemma {:induction false} GrowAllCovers(t: Span, ss: seq<Span>, k: Key)
    requires Proper(t) && Apart(ss)
    ensures Proper(GrowAll(t, ss))
    ensures Covers(GrowAll(t, ss), k) <==>
      Covers(t, k) || exists i :: 0 <= i < |ss| && Overlaps(t, ss[i]) && Covers(ss[i], k)
  {
    hide Overlaps, Proper, Hull, Covers;
    if ss != [] {
      var front, c := ss[..|ss| - 1], ss[|ss| - 1];
      GrowAllCovers(t, front, k);
      GrowAllMeets(t, front, c);
      if Overlaps(t, c) {
        HullCovers(GrowAll(t, front), c, k);
      }
      CoveredSplit(t, ss, k);
    }
  }

  lemma CoveredSplit(t: Span, ss: seq<Span>, k: Key)
    requires ss != []
    ensures var n := |ss| - 1;
      (exists i :: 0 <= i < |ss| && Overlaps(t, ss[i]) && Covers(ss[i], k)) <==>
      || (exists i :: 0 <= i < n && Overlaps(t, ss[..n][i]) && Covers(ss[..n][i], k))
      || (Overlaps(t, ss[n]) && Covers(ss[n], k))
  {
    hide Overlaps, Covers;
    var n := |ss| - 1;
    assert forall i :: 0 <= i < n ==> ss[..n][i] == ss[i];
  }

  /** The entries of xs whose span the merged one does not meet, in their order. */
  function Keep<T>(xs: seq<T>, ss: seq<Span>, t: Span): seq<T>
    requires |xs| == |ss|
  {
    if xs == [] then []
    else
      var n := |xs| - 1;
      Keep(xs[..n], ss[..n], t) + (if Overlaps(t, ss[n]) then [] else [xs[n]])
  }

  lemma {:induction false} KeepIn(ss: seq<Span>, t: Span, s: Span)
    ensures s in Keep(ss, ss, t) <==> s in ss && !Overlaps(t, s)
  {
    hide Overlaps;
    if ss != [] {
      var n := |ss| - 1;
      KeepIn(ss[..n], t, s);
      assert ss == ss[..n] + [ss[n]];
    }
  }

  lemma {:induction false} KeepApart(ss: seq<Span>, t: Span)
    requires Apart(ss)
    ensures Apart(Keep(ss, ss, t))
  {
    hide Overlaps, Proper;
    if ss != [] {
      var n := |ss| - 1;
      KeepApart(ss[..n], t);
      var front := Keep(ss[..n], ss[..n], t);
      forall i | 0 <= i < |front| ensures !Overlaps(front[i], ss[n]) {
        KeepIn(ss[..n], t, front[i]);
        assert front[i] in front;
        var j :| 0 <= j < n && ss[..n][j] == front[i];
        assert ss[j] == front[i];
      }
    }
  }

  /** The group after the merge covers the same keys as before with the new span, and its
      spans, the grown one in front, lie apart. */
  lemma MergeSound(t: Span, ss: seq<Span>, k: Key)
    requires Proper(t) && Apart(ss)
    ensures var g, kept := GrowAll(t, ss), Keep(ss, ss, t);
      && (Covers(g, k) || (exists s :: s in kept && Covers(s, k)) <==>
          Covers(t, k) || exists s :: s in ss && Covers(s, k))
      && Apart([g] + kept)
  {
    hide Overlaps, Proper, Covers;
    var g, kept := GrowAll(t, ss), Keep(ss, ss, t);
    GrowAllCovers(t, ss, k);
    KeepApart(ss, t);
    forall s ensures s in kept <==> s in ss && !Overlaps(t, s) {
      KeepIn(ss, t, s);
    }
    forall j | 0 <= j < |kept| ensures !Overlaps(g, kept[j]) {
      assert kept[j] in kept;
      SurvivorApart(t, ss, kept[j]);
    }
    if s :| s in ss && Covers(s, k) {
      var i :| 0 <= i < |ss| && ss[i] == s;
      assert Overlaps(t, s) || s in kept;
    }
  }

  lemma {:induction false} SurvivorApart(t: Span, ss: seq<Span>, s: Span)
    requires Proper(t) && Apart(ss) && s in ss && !Overlaps(t, s)
    ensures !Overlaps(GrowAll(t, ss), s)
  {
    hide Overlaps, Proper, Hull;
    var n := |ss| - 1;
    var front, c := ss[..n], ss[n];
    GrowAllMeets(t, front, c);
    if s == c {
      GrowAllCovers(t, front, "");
    } else {
      assert s in front by { assert ss == front + [c]; }
      SurvivorApart(t, front, s);
      if Overlaps(GrowAll(t, front), c) {
        var i :| 0 <= i < n && front[i] == s;
        assert ss[i] == s;
        OverlapSym(s, c);
        HullMeets(GrowAll(t, front), c, s);
      }
    }
  }

  lemma OverlapSym(s: Span, t: Span)
    ensures Overlaps(s, t) <==> Overlaps(t, s)
  {
    LeTotal(s.start, t.end);
    LeTotal(t.end, s.start);
    LeTotal(t.start, s.end);
    LeTotal(s.end, t.start);
  }

  // ---------- the code ----------

  class SpanNode {
    var start: Key
    var end: Key
    var next: SpanNode?

    constructor (s: Span)
      ensures View() == s && next == null
    {
      start, end, next := s.start, s.end, null;
    }

    function View(): Span
      reads `start, `end
    {
      Span(start, end)
    }
  }

  /** The head of a singly linked list of spans. */
  class SpanGroup {
    var head: SpanNode?

    constructor ()
      ensures head == null
    {
      head := null;
    }
  }

  /** The span tree, ordered by start key. */
  class SpanTree {
    var spans: map<Key, SpanNode>

    constructor ()
      ensures spans == map[]
    {
      spans := map[];
    }
  }

  function At(nodes: seq<SpanNode>, i: nat): SpanNode? {
    if i < |nodes| then nodes[i] else null
  }

  /** From position i on, each node points to the one after it, and the last to nothing. */
  ghost predicate LinkedFrom(nodes: seq<SpanNode>, i: nat)
    reads nodes`next
  {
    forall j :: i <= j < |nodes| ==> nodes[j].next == At(nodes, j + 1)
  }

  ghost predicate Distinct(nodes: seq<SpanNode>) {
    forall i, j :: 0 <= i < j < |nodes| ==> nodes[i] != nodes[j]
  }

  ghost function Views(nodes: seq<SpanNode>): (ss: seq<Span>)
    reads nodes
    ensures |ss| == |nodes|
  {
    seq(|nodes|, i requires 0 <= i < |nodes| reads nodes => nodes[i].View())
  }

  /** The start keys of the spans that t absorbs. */
  ghost function Absorbed(t: Span, ss: seq<Span>): set<Key> {
    if ss == [] then {}
    else Absorbed(t, ss[..|ss| - 1]) + (if Overlaps(t, ss[|ss| - 1]) then {ss[|ss| - 1].start} else {})
  }

  lemma {:induction false} AbsorbedIn(t: Span, ss: seq<Span>, k: Key)
    ensures k in Absorbed(t, ss) <==> exists i :: 0 <= i < |ss| && Overlaps(t, ss[i]) && ss[i].start == k
  {
    hide Overlaps;
    if ss != [] {
      var n := |ss| - 1;
      AbsorbedIn(t, ss[..n], k);
      assert forall i :: 0 <= i < n ==> ss[..n][i] == ss[i];
    }
  }

  /** Spans that lie apart have different start keys, so the tree loses the spans of the group
      that t met and no other span of the group. */
  lemma LostExactly(t: Span, ss: seq<Span>, i: nat)
    requires Apart(ss) && i < |ss|
    ensures ss[i].start in Absorbed(t, ss) <==> Overlaps(t, ss[i])
  {
    AbsorbedIn(t, ss, ss[i].start);
    hide Overlaps, Proper;
    forall j | 0 <= j < |ss| && ss[j].start == ss[i].start ensures j == i {
      SameStartMeet(ss[i], ss[j]);
    }
  }

  lemma SameStartMeet(s: Span, t: Span)
    requires Proper(s) && Proper(t) && s.start == t.start
    ensures Overlaps(s, t) && Overlaps(t, s)
  {
    OverlapSym(s, t);
    LeTotal(s.start, t.end);
    LeTotal(s.end, t.start);
    hide Le, StrCmp;
  }

  /** The tree after t has met c. */
  ghost function Less(m: map<Key, SpanNode>, t: Span, c: Span): map<Key, SpanNode> {
    if Overlaps(t, c) then m - {c.start} else m
  }

  /** The list [t] + kept runs into position i of nodes. */
  ghost predicate Joined(t: SpanNode, kept: seq<SpanNode>, nodes: seq<SpanNode>, i: nat)
    reads t`next, kept`next
  {
    && t.next == (if kept != [] then kept[0] else At(nodes, i))
    && (forall j :: 0 <= j < |kept| - 1 ==> kept[j].next == kept[j + 1])
    && (kept != [] ==> kept[|kept| - 1].next == At(nodes, i))
  }

  /** The last node of the list [t] + kept. */
  function Last(t: SpanNode, kept: seq<SpanNode>): SpanNode {
    if kept == [] then t else kept[|kept| - 1]
  }

  /** No node is in two of: t, the kept ones, those still to come. */
  ghost predicate Disjoint(t: SpanNode, kept: seq<SpanNode>, nodes: seq<SpanNode>, i: nat) {
    && Distinct(kept) && Distinct(nodes)
    && (forall j :: 0 <= j < |nodes| ==> nodes[j] != t)
    && (forall j :: 0 <= j < |kept| ==> kept[j] != t)
    && (forall j, m :: 0 <= j < |kept| && i <= m < |nodes| ==> kept[j] != nodes[m])
  }

  lemma PrefixSteps(t: Span, nodes: seq<SpanNode>, ss: seq<Span>, i: nat)
    requires |nodes| == |ss| && i < |ss|
    ensures GrowAll(t, ss[..i + 1]) == Grow(GrowAll(t, ss[..i]), ss[i])
    ensures Keep(nodes[..i + 1], ss[..i + 1], t)
      == Keep(nodes[..i], ss[..i], t) + (if Overlaps(t, ss[i]) then [] else [nodes[i]])
    ensures Absorbed(t, ss[..i + 1]) == Absorbed(t, ss[..i]) + (if Overlaps(t, ss[i]) then {ss[i].start} else {})
  {
    assert ss[..i + 1][..i] == ss[..i] && nodes[..i + 1][..i] == nodes[..i];
  }

  /** At position i the code's test of the grown span decides as the original span would. */
  lemma MeetsAt(t: Span, ss: seq<Span>, i: nat)
    requires Proper(t) && Apart(ss) && i < |ss|
    ensures Overlaps(GrowAll(t, ss[..i]), ss[i]) <==> Overlaps(t, ss[i])
  {
    hide Overlaps, Proper;
    GrowAllMeets(t, ss[..i], ss[i]);
  }

  /** Grows t by c as the code does, one end at a time. */
  method GrowInPlace(t: SpanNode, c: SpanNode)
    requires t != c
    modifies t`start, t`end
    ensures t.View() == Hull(old(t.View()), c.View())
  {
    if StrCmp(t.start, c.start) > 0 {
      t.start := c.start;
    }
    if StrCmp(t.end, c.end) < 0 {
      t.end := c.end;
    }
  }

  /** Takes the node after prev out of the list. */
  method Unlink(prev: SpanNode, t: SpanNode, ghost kept: seq<SpanNode>, ghost nodes: seq<SpanNode>, ghost i: nat)
    requires i < |nodes| && prev == Last(t, kept) && Disjoint(t, kept, nodes, i)
    requires Joined(t, kept, nodes, i) && LinkedFrom(nodes, i)
    modifies prev`next
    ensures Joined(t, kept, nodes, i + 1) && LinkedFrom(nodes, i + 1)
  {
    assert prev.next == nodes[i] && nodes[i].next == At(nodes, i + 1);
    prev.next := prev.next.next;
  }

  lemma Append(t: SpanNode, kept: seq<SpanNode>, nodes: seq<SpanNode>, i: nat)
    requires i < |nodes| && Disjoint(t, kept, nodes, i) && Joined(t, kept, nodes, i) && LinkedFrom(nodes, i)
    ensures var more := kept + [nodes[i]];
      Disjoint(t, more, nodes, i + 1) && Joined(t, more, nodes, i + 1) && Last(t, more) == nodes[i]
  {
  }

  /** What the pass has kept, grown and left in the tree once t0 has met the first i of ss. */
  ghost predicate Passed(t0: Span, nodes: seq<SpanNode>, ss: seq<Span>, tree: map<Key, SpanNode>, i: nat,
    kept: seq<SpanNode>, t: Span, left: map<Key, SpanNode>)
    requires i <= |nodes| == |ss|
  {
    && kept == Keep(nodes[..i], ss[..i], t0)
    && t == GrowAll(t0, ss[..i])
    && left == tree - Absorbed(t0, ss[..i])
  }

  lemma PassNext(t0: Span, nodes: seq<SpanNode>, ss: seq<Span>, tree: map<Key, SpanNode>, i: nat,
    kept: seq<SpanNode>, t: Span, left: map<Key, SpanNode>)
    requires Proper(t0) && Apart(ss) && i < |nodes| == |ss| && Passed(t0, nodes, ss, tree, i, kept, t, left)
    ensures Passed(t0, nodes, ss, tree, i + 1, if Overlaps(t, ss[i]) then kept else kept + [nodes[i]],
      Grow(t, ss[i]), Less(left, t, ss[i]))
  {
    hide Overlaps, Proper, Apart;
    PrefixSteps(t0, nodes, ss, i);
    MeetsAt(t0, ss, i);
  }

  /** The pass stands at position i: everything about the list, the span and the tree. */
  ghost predicate Passing(t0: Span, nodes: seq<SpanNode>, ss: seq<Span>, tree: map<Key, SpanNode>, i: nat,
    kept: seq<SpanNode>, t: SpanNode, prev: SpanNode, left: map<Key, SpanNode>)
    reads t, nodes, kept`next
  {
    && i <= |nodes| == |ss| && Views(nodes) == ss
    && Passed(t0, nodes, ss, tree, i, kept, t.View(), left)
    && Disjoint(t, kept, nodes, i) && Joined(t, kept, nodes, i) && LinkedFrom(nodes, i)
    && prev == Last(t, kept) && (prev == t || prev in nodes)
  }

  /** One turn of the loop when c is absorbed. */
  method Absorb(rt: SpanTree, t: SpanNode, c: SpanNode, prev: SpanNode, ghost t0: Span, ghost kept: seq<SpanNode>,
    ghost nodes: seq<SpanNode>, ghost ss: seq<Span>, ghost tree: map<Key, SpanNode>, ghost i: nat)
    requires Proper(t0) && Apart(ss) && Passing(t0, nodes, ss, tree, i, kept, t, prev, rt.spans)
    requires i < |nodes| && c == nodes[i] && Overlaps(t.View(), c.View())
    modifies rt, t, nodes`next
    ensures Passing(t0, nodes, ss, tree, i + 1, kept, t, prev, rt.spans)
  {
    hide Overlaps, Hull, Proper, Apart, Passed, Distinct, Joined, LinkedFrom;
    PassNext(t0, nodes, ss, tree, i, kept, t.View(), rt.spans);
    GrowInPlace(t, c);
    Unlink(prev, t, kept, nodes, i);
    rt.spans := rt.spans - {c.start};
  }

  /** One turn of the loop when c is left where it is. */
  lemma Leave(t0: Span, nodes: seq<SpanNode>, ss: seq<Span>, tree: map<Key, SpanNode>, i: nat,
    kept: seq<SpanNode>, t: SpanNode, prev: SpanNode, left: map<Key, SpanNode>)
    requires Proper(t0) && Apart(ss) && Passing(t0, nodes, ss, tree, i, kept, t, prev, left)
    requires i < |nodes| && !Overlaps(t.View(), nodes[i].View())
    ensures Passing(t0, nodes, ss, tree, i + 1, kept + [nodes[i]], t, nodes[i], left)
  {
    hide Overlaps, Hull, Proper, Apart, Passed, Distinct;
    PassNext(t0, nodes, ss, tree, i, kept, t.View(), left);
    Append(t, kept, nodes, i);
  }

  /** One turn of the loop: c is absorbed, or becomes the node after which to unlink. */
  method Turn(rt: SpanTree, t: SpanNode, c: SpanNode, prev: SpanNode, ghost t0: Span, ghost kept: seq<SpanNode>,
    ghost nodes: seq<SpanNode>, ghost ss: seq<Span>, ghost tree: map<Key, SpanNode>, ghost i: nat)
    returns (prev': SpanNode, ghost kept': seq<SpanNode>)
    requires Proper(t0) && Apart(ss) && Passing(t0, nodes, ss, tree, i, kept, t, prev, rt.spans)
    requires i < |nodes| && c == nodes[i]
    modifies rt, t, nodes`next
    ensures Passing(t0, nodes, ss, tree, i + 1, kept', t, prev', rt.spans)
  {
    hide Overlaps, Proper, Apart, Passing;
    if Overlaps(t.View(), c.View()) {
      Absorb(rt, t, c, prev, t0, kept, nodes, ss, tree, i);
      prev', kept' := prev, kept;
    } else {
      Leave(t0, nodes, ss, tree, i, kept, t, prev, rt.spans);
      prev', kept' := c, kept + [c];
    }
  }

  /** Puts t in front of the list. */
  method InsertHead(t: SpanNode, sll: SpanGroup, ghost nodes: seq<SpanNode>, ghost tree: map<Key, SpanNode>)
    requires Disjoint(t, [], nodes, 0) && LinkedFrom(nodes, 0) && sll.head == At(nodes, 0)
    modifies sll, t`next
    ensures sll.head == t && Passing(old(t.View()), nodes, old(Views(nodes)), tree, 0, [], t, t, tree)
  {
    t.next := sll.head;
    sll.head := t;
  }

  lemma NextAt(t0: Span, nodes: seq<SpanNode>, ss: seq<Span>, tree: map<Key, SpanNode>, i: nat,
    kept: seq<SpanNode>, t: SpanNode, prev: SpanNode, left: map<Key, SpanNode>)
    requires Passing(t0, nodes, ss, tree, i, kept, t, prev, left)
    ensures i <= |nodes| && (i < |nodes| ==> nodes[i].next == At(nodes, i + 1))
  {
    hide Passed;
  }

  lemma Finished(t0: Span, nodes: seq<SpanNode>, ss: seq<Span>, tree: map<Key, SpanNode>,
    kept: seq<SpanNode>, t: SpanNode, prev: SpanNode, left: map<Key, SpanNode>)
    requires Passing(t0, nodes, ss, tree, |nodes|, kept, t, prev, left)
    ensures Joined(t, kept, [], 0) && Views(nodes) == ss
    ensures kept == Keep(nodes, ss, t0) && t.View() == GrowAll(t0, ss) && left == tree - Absorbed(t0, ss)
  {
    assert ss[..|ss|] == ss && nodes[..|nodes|] == nodes;
  }

  /** One pass over the group: the new span becomes its head, grown over every span it met;
      the others follow in their order; the tree lost exactly the absorbed ones. */
  method Merge(rt: SpanTree, t: SpanNode, sll: SpanGroup, ghost nodes: seq<SpanNode>)
    returns (ghost kept: seq<SpanNode>)
    requires Disjoint(t, [], nodes, 0) && LinkedFrom(nodes, 0) && sll.head == At(nodes, 0)
    requires Proper(t.View()) && Apart(Views(nodes))
    modifies rt, sll, t, nodes`next
    ensures kept == Keep(nodes, old(Views(nodes)), old(t.View()))
    ensures sll.head == t && Joined(t, kept, [], 0)
    ensures t.View() == GrowAll(old(t.View()), old(Views(nodes))) && Views(nodes) == old(Views(nodes))
    ensures rt.spans == old(rt.spans) - Absorbed(old(t.View()), old(Views(nodes)))
  {
    ghost var t0, ss, tree := t.View(), Views(nodes), rt.spans;
    hide Overlaps, Proper, Apart, Keep, GrowAll, Absorbed, Joined, Disjoint, LinkedFrom, Views, Passing;
    kept := [];
    var next := sll.head;
    InsertHead(t, sll, nodes, tree);
    var prev: SpanNode := t;
    if next == null {
      Finished(t0, nodes, ss, tree, kept, t, prev, tree);
      return;
    }
    ghost var i: nat := 0;
    while next != null
      invariant next == At(nodes, i) && sll.head == t
      invariant Passing(t0, nodes, ss, tree, i, kept, t, prev, rt.spans)
      decreases |nodes| - i
    {
      var c: SpanNode := next;
      NextAt(t0, nodes, ss, tree, i, kept, t, prev, rt.spans);
      next := next.next;
      prev, kept := Turn(rt, t, c, prev, t0, kept, nodes, ss, tree, i);
      i := i + 1;
    }
    NextAt(t0, nodes, ss, tree, i, kept, t, prev, rt.spans);
    Finished(t0, nodes, ss, tree, kept, t, prev, rt.spans);
  }
}
