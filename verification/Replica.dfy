/** A replica's index over time: how instances are registered, found and pruned, and which
    instance numbers the replica gives to its own proposals. */
module Replicas {
  import opened Commands
  import opened Ids
  import opened Indexes
  import opened Instances
  import opened Options
  import Protocol

  // ---------- rows ----------

  /** The position of the first entry whose number is not below id, or the row's length. */
  function Place(row: seq<Entry>, id: nat): (k: nat)
    ensures k <= |row|
    ensures forall i :: 0 <= i < k ==> row[i].key.instanceId < id
    ensures k < |row| ==> row[k].key.instanceId >= id
  {
    if row == [] || row[0].key.instanceId >= id then 0 else 1 + Place(row[1..], id)
  }

  predicate Has(row: seq<Entry>, id: nat) {
    var k := Place(row, id);
    k < |row| && row[k].key.instanceId == id
  }

  function InsertRow(row: seq<Entry>, e: Entry): seq<Entry> {
    var k := Place(row, e.key.instanceId);
    if Has(row, e.key.instanceId) then row else row[..k] + [e] + row[k..]
  }

  /** A registration adds the new entry, if its number is free, and leaves all others. */
  lemma InsertExact(row: seq<Entry>, e: Entry, x: Entry)
    ensures x in InsertRow(row, e) <==> x in row || (x == e && !Has(row, e.key.instanceId))
  {
    var k := Place(row, e.key.instanceId);
    assert row == row[..k] + row[k..];
  }

  lemma InsertAll(row: seq<Entry>, e: Entry)
    ensures forall x :: x in InsertRow(row, e) <==> x in row || (x == e && !Has(row, e.key.instanceId))
  {
    hide InsertRow, Has;
    forall x ensures x in InsertRow(row, e) <==> x in row || (x == e && !Has(row, e.key.instanceId)) {
      InsertExact(row, e, x);
    }
  }

  lemma EntryKey(i: Instance)
    ensures EntryOf(i).key == i.key
  {
  }

  /** after holds the entries of row and, if it was accepted, e. */
  ghost predicate Grown(row: seq<Entry>, e: Entry, after: seq<Entry>, accepted: bool) {
    forall x :: x in after <==> x in row || (accepted && x == e)
  }

  lemma RowGrown(row: seq<Entry>, e: Entry, after: seq<Entry>, accepted: bool)
    requires after == InsertRow(row, e) && accepted == !Has(row, e.key.instanceId)
    ensures Grown(row, e, after, accepted)
  {
    InsertAll(row, e);
    hide InsertRow, Has;
  }

  /** In an ordered row a number is found exactly if some entry has it. */
  lemma HasExact(row: seq<Entry>, r: nat, id: nat)
    requires RowOk(row, r)
    ensures Has(row, id) <==> exists x :: x in row && x.key == InstanceId(r, id)
  {
    var k := Place(row, id);
    if Has(row, id) {
      assert row[k] in row;
    }
    if x :| x in row && x.key == InstanceId(r, id) {
      var i :| 0 <= i < |row| && row[i] == x;
      assert i >= k;
      assert row[k].key.instanceId <= id;
    }
  }

  /** The largest number of the row; zero for an empty row. */
  function LargestId(row: seq<Entry>): nat {
    if row == [] then 0 else row[|row| - 1].key.instanceId
  }

  function NewEntry(key: InstanceId): Entry {
    Entry(key, NONE, None, 0)
  }

  /** The number of the next own instance, in 64 bits. */
  function NextId(row: seq<Entry>): nat {
    (LargestId(row) + 1) % TWO64
  }

  // ---------- the run ----------

  /** A message about an instance is handled, an own instance is opened (by propose or by
      checkpoint), an instance changes as its handlers and the executor see fit, the index is
      pruned. */
  datatype Event =
    | Heard(key: InstanceId)
    | Opened
    | Changed(r: nat, i: nat, status: State, command: Option<Command>, seqNo: nat)
    | Pruned

  /** The rows; every id ever registered; the numbers of the own instances opened, in order. */
  datatype World = World(rows: seq<seq<Entry>>, ever: set<InstanceId>, own: seq<nat>)

  ghost predicate Enabled(w: World, self: nat, ev: Event) {
    match ev
    case Heard(key) => key.replicaId < |w.rows| && key.instanceId < TWO64
    case Opened => self < |w.rows|
    case Changed(r, i, _, _, _) => r < |w.rows| && i < |w.rows[r]|
    case Pruned => true
  }

  function PutRow(rows: seq<seq<Entry>>, key: InstanceId): seq<seq<Entry>>
    requires key.replicaId < |rows|
  {
    rows[key.replicaId := InsertRow(rows[key.replicaId], NewEntry(key))]
  }

  function Next(w: World, self: nat, ev: Event): World
    requires Enabled(w, self, ev)
  {
    match ev
    case Heard(key) =>
      if key.instanceId == 0 then w else World(PutRow(w.rows, key), w.ever + {key}, w.own)
    case Opened =>
      var key := InstanceId(self, NextId(w.rows[self]));
      if Has(w.rows[self], key.instanceId) then w
      else World(PutRow(w.rows, key), w.ever + {key}, w.own + [key.instanceId])
    case Changed(r, i, status, command, seqNo) =>
      var e := Entry(w.rows[r][i].key, status, command, seqNo);
      w.(rows := w.rows[r := w.rows[r][i := e]])
    case Pruned =>
      w.(rows := ClearAll(w.rows))
  }

  function ClearAll(rows: seq<seq<Entry>>): seq<seq<Entry>> {
    seq(|rows|, r requires 0 <= r < |rows| => ClearRow(rows[r]))
  }

  ghost predicate IdsBound(row: seq<Entry>) {
    forall i :: 0 <= i < |row| ==> row[i].key.instanceId < TWO64
  }

  /** Everything ever registered lies at or below the largest number of its row, which itself
      was registered. */
  ghost predicate Inv(w: World) {
    && (forall r :: 0 <= r < |w.rows| ==> RowInv(w.rows[r], r, w.ever))
    && (forall k :: k in w.ever ==> k.replicaId < |w.rows|)
  }

  ghost predicate RowInv(row: seq<Entry>, r: nat, ever: set<InstanceId>) {
    && RowOk(row, r) && IdsBound(row)
    && (forall k :: k in ever && k.replicaId == r ==> row != [] && k.instanceId <= LargestId(row))
    && (row != [] ==> InstanceId(r, LargestId(row)) in ever)
  }

  lemma InsertOrdered(row: seq<Entry>, r: nat, e: Entry)
    requires RowOk(row, r) && IdsBound(row) && e.key.replicaId == r && e.key.instanceId < TWO64
    ensures var after := InsertRow(row, e);
      && RowOk(after, r) && IdsBound(after) && after != []
      && LargestId(after) == (if row == [] then e.key.instanceId else Max(LargestId(row), e.key.instanceId))
  {
    var k := Place(row, e.key.instanceId);
    if k < |row| {
      assert row[k].key.instanceId <= LargestId(row);
    }
    if !Has(row, e.key.instanceId) {
      Spliced(row, r, e, k);
    }
  }

  lemma Spliced(row: seq<Entry>, r: nat, e: Entry, k: nat)
    requires RowOk(row, r) && IdsBound(row) && k <= |row| && e.key.replicaId == r && e.key.instanceId < TWO64
    requires forall i :: 0 <= i < k ==> row[i].key.instanceId < e.key.instanceId
    requires k < |row| ==> row[k].key.instanceId > e.key.instanceId
    ensures RowOk(row[..k] + [e] + row[k..], r) && IdsBound(row[..k] + [e] + row[k..])
  {
    var after := row[..k] + [e] + row[k..];
    forall i | 0 <= i < |after| ensures after[i] == (if i < k then row[i] else if i == k then e else row[i - 1]) {
    }
  }

  lemma InsertKeeps(row: seq<Entry>, r: nat, ever: set<InstanceId>, key: InstanceId)
    requires RowInv(row, r, ever) && key.replicaId == r && key.instanceId < TWO64
    ensures var after := InsertRow(row, NewEntry(key));
      RowInv(after, r, ever + {key}) && LargestId(after) >= LargestId(row)
  {
    hide InsertRow;
    InsertOrdered(row, r, NewEntry(key));
  }

  lemma OtherRow(row: seq<Entry>, r: nat, ever: set<InstanceId>, key: InstanceId)
    requires RowInv(row, r, ever) && key.replicaId != r
    ensures RowInv(row, r, ever + {key})
  {
  }

  /** Pruning leaves the largest of a row in place. */
  lemma ClearKeeps(row: seq<Entry>, r: nat, ever: set<InstanceId>)
    requires RowInv(row, r, ever)
    ensures RowInv(ClearRow(row), r, ever) && LargestId(ClearRow(row)) == LargestId(row)
  {
    hide ClearRow, Dropped;
    ClearedAt(row);
  }

  lemma PutKeeps(w: World, key: InstanceId, own: seq<nat>)
    requires Inv(w) && key.replicaId < |w.rows| && key.instanceId < TWO64
    ensures var v := World(PutRow(w.rows, key), w.ever + {key}, own);
      Inv(v) && |v.rows| == |w.rows| && forall r :: 0 <= r < |w.rows| ==> LargestId(v.rows[r]) >= LargestId(w.rows[r])
  {
    hide RowInv, InsertRow;
    var v := World(PutRow(w.rows, key), w.ever + {key}, own);
    forall r | 0 <= r < |w.rows| ensures RowInv(v.rows[r], r, v.ever) && LargestId(v.rows[r]) >= LargestId(w.rows[r]) {
      if r == key.replicaId {
        InsertKeeps(w.rows[r], r, w.ever, key);
      } else {
        OtherRow(w.rows[r], r, w.ever, key);
      }
    }
  }

  lemma ChangedKeeps(row: seq<Entry>, r: nat, ever: set<InstanceId>, i: nat, e: Entry)
    requires RowInv(row, r, ever) && i < |row| && e.key == row[i].key
    ensures RowInv(row[i := e], r, ever) && LargestId(row[i := e]) == LargestId(row)
  {
  }

  /** No event lowers the largest number of a row. */
  lemma NextKeeps(w: World, self: nat, ev: Event)
    requires Inv(w) && Enabled(w, self, ev)
    ensures var v := Next(w, self, ev);
      && Inv(v) && |v.rows| == |w.rows|
      && forall r :: 0 <= r < |w.rows| ==> LargestId(v.rows[r]) >= LargestId(w.rows[r])
  {
    hide InsertRow, ClearRow, Has, PutRow, RowInv;
    match ev
    case Heard(key) =>
      PutKeeps(w, key, w.own);
    case Opened =>
      var id := NextId(w.rows[self]);
      PutKeeps(w, InstanceId(self, id), w.own + [id]);
    case Changed(r, i, status, command, seqNo) =>
      ChangedKeeps(w.rows[r], r, w.ever, i, Entry(w.rows[r][i].key, status, command, seqNo));
    case Pruned =>
      forall r | 0 <= r < |w.rows| ensures RowInv(ClearAll(w.rows)[r], r, w.ever)
        && LargestId(ClearAll(w.rows)[r]) == LargestId(w.rows[r])
      {
        ClearKeeps(w.rows[r], r, w.ever);
      }
  }

  /** ws are the worlds that the events evs lead through, from n empty rows. */
  ghost predicate Trace(n: nat, self: nat, ws: seq<World>, evs: seq<Event>) {
    && |ws| == |evs| + 1 && self < n
    && ws[0] == World(seq(n, _ => []), {}, [])
    && forall i :: 0 <= i < |evs| ==> StepAt(self, ws, evs, i)
  }

  ghost predicate StepAt(self: nat, ws: seq<World>, evs: seq<Event>, i: nat)
    requires i < |evs| && |ws| == |evs| + 1
  {
    Enabled(ws[i], self, evs[i]) && ws[i + 1] == Next(ws[i], self, evs[i])
  }

  lemma {:induction false} TraceInv(n: nat, self: nat, ws: seq<World>, evs: seq<Event>, i: nat)
    requires Trace(n, self, ws, evs) && i < |ws|
    ensures Inv(ws[i]) && |ws[i].rows| == n
  {
    hide Next, Enabled;
    if i > 0 {
      TraceInv(n, self, ws, evs, i - 1);
      hide Inv;
      assert StepAt(self, ws, evs, i - 1);
      NextKeeps(ws[i - 1], self, evs[i - 1]);
    }
  }

  /** Over a run, the largest number of a row never drops. */
  lemma {:induction false} LargestNeverDrops(n: nat, self: nat, ws: seq<World>, evs: seq<Event>, r: nat, i: nat, j: nat)
    requires Trace(n, self, ws, evs) && r < n && i <= j < |ws|
    ensures |ws[i].rows| == |ws[j].rows| == n && LargestId(ws[i].rows[r]) <= LargestId(ws[j].rows[r])
  {
    hide Next, Enabled, Inv;
    TraceInv(n, self, ws, evs, i);
    TraceInv(n, self, ws, evs, j);
    if i < j {
      LargestNeverDrops(n, self, ws, evs, r, i, j - 1);
      TraceInv(n, self, ws, evs, j - 1);
      assert StepAt(self, ws, evs, j - 1);
      NextKeeps(ws[j - 1], self, evs[j - 1]);
    }
  }

  /** The next own number is above every number ever registered in the own row, pruned ones
      included, exactly as long as the row has not reached the last 64-bit number. */
  lemma NextIdFresh(n: nat, self: nat, ws: seq<World>, evs: seq<Event>, i: nat)
    requires Trace(n, self, ws, evs) && i < |ws| && self < |ws[i].rows|
    ensures (forall k :: k in ws[i].ever && k.replicaId == self ==> k.instanceId < NextId(ws[i].rows[self]))
      <==> LargestId(ws[i].rows[self]) < TWO64 - 1
  {
    TraceInv(n, self, ws, evs, i);
    var w := ws[i];
    assert RowInv(w.rows[self], self, w.ever);
    if LargestId(w.rows[self]) >= TWO64 - 1 {
      assert InstanceId(self, LargestId(w.rows[self])) in w.ever;
    }
  }

  /** The numbers opened so far were registered, and ascend until the row is full. */
  ghost predicate OpenedInv(w: World, self: nat)
    requires self < |w.rows|
  {
    && (forall i :: 0 <= i < |w.own| ==> InstanceId(self, w.own[i]) in w.ever)
    && (LargestId(w.rows[self]) < TWO64 - 1 ==> forall i, j :: 0 <= i < j < |w.own| ==> w.own[i] < w.own[j])
  }

  lemma OpenedKeeps(w: World, self: nat, ev: Event)
    requires Inv(w) && Enabled(w, self, ev) && self < |w.rows| && OpenedInv(w, self)
    ensures |Next(w, self, ev).rows| == |w.rows| && OpenedInv(Next(w, self, ev), self)
  {
    hide InsertRow, ClearRow, Has, PutRow;
    NextKeeps(w, self, ev);
    if ev.Opened? && LargestId(w.rows[self]) < TWO64 - 1 {
      assert RowInv(w.rows[self], self, w.ever);
      assert forall i :: 0 <= i < |w.own| ==> w.own[i] <= LargestId(w.rows[self]);
    }
  }

  /** As long as the own row has not reached the last 64-bit number, no two own instances of a
      run share a number: they ascend, however much was pruned in between. */
  lemma {:induction false} OpenedAscend(n: nat, self: nat, ws: seq<World>, evs: seq<Event>, m: nat)
    requires Trace(n, self, ws, evs) && m < |ws|
    ensures self < |ws[m].rows| && OpenedInv(ws[m], self)
  {
    hide Next, Enabled;
    TraceInv(n, self, ws, evs, m);
    if m > 0 {
      OpenedAscend(n, self, ws, evs, m - 1);
      TraceInv(n, self, ws, evs, m - 1);
      hide OpenedInv, Inv;
      assert StepAt(self, ws, evs, m - 1);
      OpenedKeeps(ws[m - 1], self, evs[m - 1]);
    }
  }

  /** After pruning a replica finds exactly the instances from the last of the executed prefix
      on; a message about an older one registers it afresh. */
  lemma FoundAfterClear(row: seq<Entry>, r: nat, i: nat)
    requires RowOk(row, r) && i < |row|
    ensures Has(ClearRow(row), row[i].key.instanceId) <==> i + 1 >= ExecutedPrefix(row)
  {
    hide ClearRow, Place;
    ClearedAt(row);
  }

  /** The event makes the replica register k. */
  ghost predicate Registers(w: World, self: nat, ev: Event, k: InstanceId) {
    || (ev.Heard? && ev.key == k && k.instanceId != 0)
    || (ev.Opened? && self < |w.rows| && k == InstanceId(self, NextId(w.rows[self])))
  }

  /** Pruning finds k in the executed prefix of its row, and not at its end. */
  ghost predicate Drops(w: World, ev: Event, k: InstanceId) {
    ev.Pruned? && k.replicaId < |w.rows| &&
    exists i :: 0 <= i < |w.rows[k.replicaId]| && w.rows[k.replicaId][i].key == k
      && i + 1 < ExecutedPrefix(w.rows[k.replicaId])
  }

  lemma PrunedFound(row: seq<Entry>, r: nat, k: InstanceId)
    requires RowOk(row, r) && k.replicaId == r
    ensures Has(ClearRow(row), k.instanceId) <==>
      exists i :: 0 <= i < |row| && row[i].key == k && i + 1 >= ExecutedPrefix(row)
  {
    hide ClearRow, ExecutedPrefix, Place;
    if Has(row, k.instanceId) {
      HasExact(row, r, k.instanceId);
      var x :| x in row && x.key == k;
      var i :| 0 <= i < |row| && row[i] == x;
      FoundAfterClear(row, r, i);
      assert forall j :: 0 <= j < |row| && row[j].key == k ==> j == i;
    } else {
      HasExact(row, r, k.instanceId);
      ClearedOk(row, r);
      HasExact(ClearRow(row), r, k.instanceId);
      ClearedAt(row);
    }
  }

  lemma ClearedOk(row: seq<Entry>, r: nat)
    requires RowOk(row, r)
    ensures RowOk(ClearRow(row), r)
  {
    hide ClearRow, Dropped;
    ClearedAt(row);
  }

  lemma InsertFound(row: seq<Entry>, r: nat, e: Entry, id: nat)
    requires RowOk(row, r) && IdsBound(row) && e.key.replicaId == r && e.key.instanceId < TWO64
    ensures Has(InsertRow(row, e), id) <==> Has(row, id) || id == e.key.instanceId
  {
    hide Has, InsertRow;
    InsertOrdered(row, r, e);
    HasExact(row, r, id);
    HasExact(row, r, e.key.instanceId);
    HasExact(InsertRow(row, e), r, id);
    InsertAll(row, e);
    if id == e.key.instanceId && !Has(row, id) {
      assert e in InsertRow(row, e) && e.key == InstanceId(r, id);
    }
  }

  lemma ChangedFound(row: seq<Entry>, r: nat, i: nat, e: Entry, id: nat)
    requires RowOk(row, r) && i < |row| && e.key == row[i].key
    ensures Has(row[i := e], id) <==> Has(row, id)
  {
    hide Place, Has;
    HasExact(row, r, id);
    HasExact(row[i := e], r, id);
    if x :| x in row && x.key == InstanceId(r, id) {
      var j :| 0 <= j < |row| && row[j] == x;
      assert row[i := e][j] in row[i := e] && row[i := e][j].key == x.key;
    }
    if x :| x in row[i := e] && x.key == InstanceId(r, id) {
      var j :| 0 <= j < |row| && row[i := e][j] == x;
      assert row[j] in row && row[j].key == x.key;
    }
  }

  /** What is found after an event: what was found before and is not dropped, and what the event
      registers. */
  lemma StepFound(w: World, self: nat, ev: Event, k: InstanceId)
    requires Inv(w) && Enabled(w, self, ev) && k.replicaId < |w.rows|
    ensures |Next(w, self, ev).rows| == |w.rows|
    ensures Has(Next(w, self, ev).rows[k.replicaId], k.instanceId) <==>
      (Has(w.rows[k.replicaId], k.instanceId) && !Drops(w, ev, k)) || Registers(w, self, ev, k)
  {
    hide InsertRow, ClearRow, Has, Place, ExecutedPrefix;
    var r := k.replicaId;
    assert RowInv(w.rows[r], r, w.ever);
    match ev
    case Heard(key) =>
      if key.replicaId == r && key.instanceId != 0 {
        InsertFound(w.rows[r], r, NewEntry(key), k.instanceId);
      }
    case Opened =>
      if r == self {
        InsertFound(w.rows[r], r, NewEntry(InstanceId(self, NextId(w.rows[self]))), k.instanceId);
      }
    case Changed(q, i, status, command, seqNo) =>
      if q == r {
        ChangedFound(w.rows[r], r, i, Entry(w.rows[r][i].key, status, command, seqNo), k.instanceId);
      }
    case Pruned =>
      PrunedFound(w.rows[r], r, k);
      HasExact(w.rows[r], r, k.instanceId);
      PrunedSplit(w.rows[r], r, k);
  }

  /** Either the one entry of k lies in the part that pruning drops, or it does not. */
  lemma PrunedSplit(row: seq<Entry>, r: nat, k: InstanceId)
    requires RowOk(row, r) && k.replicaId == r
    ensures (exists i :: 0 <= i < |row| && row[i].key == k && i + 1 >= ExecutedPrefix(row)) <==>
      (exists x :: x in row && x.key == k) &&
      !exists i :: 0 <= i < |row| && row[i].key == k && i + 1 < ExecutedPrefix(row)
  {
    hide ExecutedPrefix;
    if x :| x in row && x.key == k {
      var i :| 0 <= i < |row| && row[i] == x;
      assert forall j :: 0 <= j < |row| && row[j].key == k ==> j == i;
    }
  }

  /** Whatever was ever registered is found at every later moment, unless pruning dropped it. */
  lemma {:induction false} FoundUnlessDropped(n: nat, self: nat, ws: seq<World>, evs: seq<Event>, m: nat, k: InstanceId)
    requires Trace(n, self, ws, evs) && m < |ws| && k in ws[m].ever
    ensures k.replicaId < |ws[m].rows|
    ensures Has(ws[m].rows[k.replicaId], k.instanceId) || exists u :: 0 <= u < m && Drops(ws[u], evs[u], k)
  {
    hide Has, Drops, Enabled, Next;
    TraceInv(n, self, ws, evs, m);
    KnownRow(ws[m], k);
    if m > 0 {
      TraceInv(n, self, ws, evs, m - 1);
      assert StepAt(self, ws, evs, m - 1);
      var w, ev := ws[m - 1], evs[m - 1];
      EverGrows(w, self, ev, k);
      hide Inv;
      StepFound(w, self, ev, k);
      if k in w.ever {
        FoundUnlessDropped(n, self, ws, evs, m - 1, k);
      }
    }
  }

  lemma KnownRow(w: World, k: InstanceId)
    requires Inv(w) && k in w.ever
    ensures k.replicaId < |w.rows|
  {
  }

  lemma EverGrows(w: World, self: nat, ev: Event, k: InstanceId)
    requires Enabled(w, self, ev) && k in Next(w, self, ev).ever
    ensures k in w.ever || Registers(w, self, ev, k)
  {
    hide Has, InsertRow, ClearRow;
  }

  // ---------- the code ----------

  /** The instances of each tree. */
  ghost function Trees(index: seq<InstanceIndex>): (ts: seq<seq<Instance>>)
    reads index
    ensures |ts| == |index| && forall q :: 0 <= q < |index| ==> ts[q] == index[q].nodes
  {
    if index == [] then [] else Trees(index[..|index| - 1]) + [index[|index| - 1].nodes]
  }

  ghost function Members(ts: seq<seq<Instance>>): set<Instance> {
    if ts == [] then {} else Members(ts[..|ts| - 1]) + NodesOf(ts[|ts| - 1])
  }

  ghost function NodesOf(nodes: seq<Instance>): set<Instance> {
    set n | n in nodes
  }

  ghost function RowsOf(ts: seq<seq<Instance>>): (rows: seq<seq<Entry>>)
    reads Members(ts)
    ensures |rows| == |ts| && forall r :: 0 <= r < |ts| ==> rows[r] == Entries(ts[r])
  {
    if ts == [] then [] else RowsOf(ts[..|ts| - 1]) + [Entries(ts[|ts| - 1])]
  }

  class Replica {
    const id: nat
    const index: seq<InstanceIndex>

    constructor (id: nat, index: seq<InstanceIndex>)
      requires id < |index| && forall r :: 0 <= r < |index| ==> index[r].nodes == []
      requires forall r, q :: 0 <= r < q < |index| ==> index[r] != index[q]
      ensures this.id == id && this.index == index && Valid()
      ensures forall r :: 0 <= r < |index| ==> Rows()[r] == []
    {
      this.id, this.index := id, index;
    }

    ghost predicate Valid() {
      id < |index| && forall r, q :: 0 <= r < q < |index| ==> index[r] != index[q]
    }

    ghost function Rows(): (rows: seq<seq<Entry>>)
      reads index, Members(Trees(index))
      ensures |rows| == |index| && forall r :: 0 <= r < |index| ==> rows[r] == Entries(index[r].nodes)
    {
      RowsOf(Trees(index))
    }

    /** One walk a row. The program ends at a missing command; there is no result then. */
    method SdForCommand(u: Query, p: SeqDepsProbe) returns (mseq: Option<nat>)
      requires p.deps.Length == MAX_DEPS
      modifies p, p.deps
      ensures var w := WalkAll(old(Rows()), u, Probe(0, old(p.updated), old(p.deps[..])));
        if mseq.None? then w == None else w == Some(Probe(mseq.value, p.updated, p.deps[..]))
    {
      hide WalkRow, Replica.Rows, Entries;
      var max := 0;
      ghost var rows := Rows();
      ghost var p0 := Probe(0, p.updated, p.deps[..]);
      var rc := 0;
      assert rows[..0] == [];
      while rc < |index|
        invariant 0 <= rc <= |index| && Rows() == rows
        invariant WalkAll(rows[..rc], u, p0) == Some(Probe(max, p.updated, p.deps[..]))
      {
        assert rows[..rc + 1][..rc] == rows[..rc];
        var s := SeqDepsForCommand(index[rc], u, p);
        if s.None? {
          BrokenRow(rows, rc, u, p0);
          return None;
        }
        max := Max(max, s.value);
        rc := rc + 1;
      }
      assert rows[..|rows|] == rows;
      return Some(max);
    }

    method MaxLocal() returns (m: nat)
      requires Valid()
      ensures m == LargestId(Rows()[id])
    {
      var nodes := index[id].nodes;
      if nodes == [] {
        return 0;
      }
      return nodes[|nodes| - 1].key.instanceId;
    }

    method FindInstance(key: InstanceId) returns (i: Instance?)
      requires key.replicaId < |index|
      ensures i == null <==> !Has(Rows()[key.replicaId], key.instanceId)
      ensures i != null ==> i in index[key.replicaId].nodes && i.key.instanceId == key.instanceId
    {
      var nodes := index[key.replicaId].nodes;
      var k := PlaceIn(nodes, key.instanceId);
      if k < |nodes| && nodes[k].key.instanceId == key.instanceId {
        return nodes[k];
      }
      return null;
    }

    method RegisterInstance(i: Instance) returns (rc: int)
      requires Valid() && i.key.replicaId < |index|
      modifies index[i.key.replicaId]
      ensures var r := i.key.replicaId;
        && Rows() == old(Rows())[r := InsertRow(old(Rows())[r], EntryOf(i))]
        && rc == if Has(old(Rows())[r], i.key.instanceId) then -1 else 0
      ensures var r := i.key.replicaId;
        Grown(old(Rows())[r], EntryOf(i), Rows()[r], rc == 0)
    {
      hide InsertRow, Has, EntryOf, Rows, Grown;
      EntryKey(i);
      ghost var rows, r, e := Rows(), i.key.replicaId, EntryOf(i);
      rc := InsertNode(index[i.key.replicaId], i);
      assert forall q :: 0 <= q < |index| && q != r ==> Entries(index[q].nodes) == rows[q];
      assert Rows()[r] == InsertRow(rows[r], e);
      RowGrown(rows[r], e, Rows()[r], rc == 0);
    }

    /** A new instance under the key, unless there is one. */
    method RegisterNew(key: InstanceId) returns (rc: int)
      requires Valid() && key.replicaId < |index|
      modifies index
      ensures Rows() == PutRow(old(Rows()), key)
      ensures rc == if Has(old(Rows())[key.replicaId], key.instanceId) then -1 else 0
    {
      hide InsertRow, Has, Rows;
      ghost var rows := Rows();
      var i := new Instance(key);
      assert EntryOf(i) == NewEntry(key);
      assert Rows() == rows by {
        hide EntryOf;
        assert forall q :: 0 <= q < |index| ==> Entries(index[q].nodes) == rows[q];
      }
      rc := RegisterInstance(i);
    }

    /** What propose and checkpoint have in common: the next own number is registered. */
    method OpenOwn() returns (rc: int)
      requires Valid()
      modifies index
      ensures Rows() == Next(World(old(Rows()), {}, []), id, Opened).rows
      ensures rc == if Has(old(Rows())[id], NextId(old(Rows())[id])) then -1 else 0
    {
      hide Rows, Has, Place, ClearRow;
      var m := MaxLocal();
      rc := RegisterNew(InstanceId(id, (m + 1) % TWO64));
    }

    /** The lookup of step: an instance not found is registered anew. */
    method Open(key: InstanceId) returns (rc: int)
      requires Valid() && key.replicaId < |index| && key.instanceId < TWO64
      modifies index
      ensures Rows() == Next(World(old(Rows()), {}, []), id, Heard(key)).rows
      ensures rc == if key.instanceId == 0 then -1 else 0
    {
      hide Rows, Has, Place, ClearRow;
      if key.instanceId == 0 {
        return -1;
      }
      var i := FindInstance(key);
      if i == null {
        rc := RegisterNew(key);
        return;
      }
      return 0;
    }

    method Clear()
      requires Valid()
      modifies index
      ensures Rows() == ClearAll(old(Rows()))
    {
      hide ClearRow, EntryOf, Rows;
      ghost var rows := Rows();
      var r := 0;
      while r < |index|
        invariant 0 <= r <= |index|
        invariant forall q :: 0 <= q < |index| ==>
          Entries(index[q].nodes) == if q < r then ClearRow(rows[q]) else rows[q]
      {
        ClearIndex(index[r]);
        r := r + 1;
      }
    }
  }

  /** The position in the tree of the first node whose number is not below id. */
  function PlaceIn(nodes: seq<Instance>, id: nat): (k: nat)
    reads nodes
    ensures k == Place(Entries(nodes), id)
  {
    if nodes == [] || nodes[0].key.instanceId >= id then 0
    else
      assert Entries(nodes)[1..] == Entries(nodes[1..]);
      1 + PlaceIn(nodes[1..], id)
  }

  lemma EntriesInsert(nodes: seq<Instance>, k: nat, i: Instance)
    requires k <= |nodes|
    ensures Entries(nodes[..k] + [i] + nodes[k..]) == Entries(nodes)[..k] + [EntryOf(i)] + Entries(nodes)[k..]
  {
    hide EntryOf;
  }

  /** Puts i into the tree unless its number is there. */
  method InsertNode(x: InstanceIndex, i: Instance) returns (rc: int)
    modifies x
    ensures Entries(x.nodes) == InsertRow(old(Entries(x.nodes)), EntryOf(i))
    ensures rc == if Has(old(Entries(x.nodes)), i.key.instanceId) then -1 else 0
  {
    ghost var row := Entries(x.nodes);
    hide Place;
    var k := PlaceIn(x.nodes, i.key.instanceId);
    assert k < |row| ==> row[k].key == x.nodes[k].key;
    if k < |x.nodes| && x.nodes[k].key.instanceId == i.key.instanceId {
      assert Has(row, i.key.instanceId);
      return -1;
    }
    EntriesInsert(x.nodes, k, i);
    x.nodes := x.nodes[..k] + [i] + x.nodes[k..];
    return 0;
  }

  /** A walk without a result leaves all the rows without one. */
  lemma {:induction false} BrokenRow(rows: seq<seq<Entry>>, r: nat, u: Query, p: Probe)
    requires r < |rows| && WalkAll(rows[..r + 1], u, p) == None
    ensures WalkAll(rows, u, p) == None
    decreases |rows|
  {
    hide WalkRow;
    if r + 1 == |rows| {
      assert rows[..r + 1] == rows;
    } else {
      assert rows[..|rows| - 1][..r + 1] == rows[..r + 1];
      BrokenRow(rows[..|rows| - 1], r, u, p);
    }
  }

  /** phase1 from the walk over the index to the message sent. It is not done when the walk
      ends the program. */
  method RunPhase1(r: Replica, i: Instance, m: Message, ask: InstanceId -> Answer)
    returns (done: bool, sent: Option<Message>)
    requires i.lt != null
    modifies i, i.lt
    ensures var w := FreshProbe(old(r.Rows()), Query(m.command, Some(i.key), ask));
      && done == w.Some? && i.lt == old(i.lt)
      && (done ==> Protocol.Out(i.View(), sent, false) == Protocol.OnPhase1(old(i.View()), m, i.key, w.value))
  {
    hide WalkAll, EntryOf, Replica.Rows;
    ghost var rows := r.Rows();
    var p := new SeqDepsProbe();
    assert r.Rows() == rows by {
      assert forall q :: 0 <= q < |r.index| ==> Entries(r.index[q].nodes) == rows[q];
    }
    var mseq := r.SdForCommand(Query(m.command, Some(i.key), ask), p);
    if mseq.None? {
      return false, None;
    }
    done := true;
    sent := Protocol.Phase1(i, m, Probe(mseq.value, p.updated, p.deps[..]));
  }

  predicate TakesAccept(i: Rec, m: Message) {
    !IsState(i.status, COMMITTED | EXECUTED) && m.ballot >= i.ballot
  }

  /** pre_accept from the walk, which starts from the dependencies the instance has, to the
      answer. A message without a command, when taken, prunes every row. */
  method RunPreAccept(r: Replica, i: Instance, m: Message, ask: InstanceId -> Answer)
    returns (done: bool, sent: Option<Message>)
    requires r.Valid()
    modifies i, r.index
    ensures var p := Probe(0, 0, old(i.deps));
      var takes := !IsState(old(i.status), COMMITTED | ACCEPTED) && IsState(old(i.status), PRE_ACCEPTED | NONE)
        && m.ballot >= old(i.ballot);
      var w := if takes then WalkAll(old(r.Rows()), Query(m.command, Some(i.key), ask), p) else Some(p);
      && done == w.Some? && i.lt == old(i.lt)
      && (done ==> Protocol.Out(i.View(), sent, false) == Protocol.OnPreAccept(old(i.View()), m, w.value))
      && var rows := RowsOf(old(Trees(r.index)));
         (done ==> r.Rows() == if takes && m.command.None? then ClearAll(rows) else rows)
  {
    hide WalkAll, EntryOf, IsState, RowsOf, Trees, ClearAll;
    done := true;
    var probe := Some(Probe(0, 0, i.deps));
    var takes := Protocol.TakesPreAccept(i.View(), m);
    if takes {
      probe := WalkFrom(r, i, Query(m.command, Some(i.key), ask));
      if probe.None? {
        return false, None;
      }
    }
    sent := Protocol.HandlePreAccept(i, m, probe.value);
    PruneIf(r, takes && m.command.None?);
  }

  method WalkFrom(r: Replica, i: Instance, u: Query) returns (probe: Option<Probe>)
    ensures probe == WalkAll(old(r.Rows()), u, Probe(0, 0, i.deps))
  {
    hide WalkAll, EntryOf, Replica.Rows;
    ghost var rows := r.Rows();
    var p := new SeqDepsProbe();
    forall j | 0 <= j < MAX_DEPS {
      p.deps[j] := i.deps[j];
    }
    assert p.deps[..] == i.deps;
    assert r.Rows() == rows by {
      assert forall q :: 0 <= q < |r.index| ==> Entries(r.index[q].nodes) == rows[q];
    }
    var mseq := r.SdForCommand(u, p);
    if mseq.None? {
      return None;
    }
    return Some(Probe(mseq.value, p.updated, p.deps[..]));
  }

  method PruneIf(r: Replica, c: bool)
    requires r.Valid()
    modifies r.index
    ensures r.Rows() == if c then ClearAll(RowsOf(old(Trees(r.index)))) else RowsOf(old(Trees(r.index)))
  {
    hide ClearRow, Entries, Trees, EntryOf, Replica.Rows;
    ghost var trees, rows := Trees(r.index), r.Rows();
    RowsFrom(r);
    if c {
      r.Clear();
    }
    assert RowsOf(trees) == rows;
  }

  lemma RowsFrom(r: Replica)
    ensures RowsOf(Trees(r.index)) == r.Rows()
  {
  }

  /** accept, with the pruning that a message without a command brings about. */
  method RunAccept(r: Replica, i: Instance, m: Message) returns (sent: Option<Message>)
    requires r.Valid()
    modifies i, r.index
    ensures i.lt == old(i.lt) && Protocol.Out(i.View(), sent, false) == Protocol.OnAccept(old(i.View()), m)
    ensures r.Rows() ==
      if !IsState(old(i.status), COMMITTED | EXECUTED) && m.ballot >= old(i.ballot) && m.command.None?
      then ClearAll(RowsOf(old(Trees(r.index)))) else RowsOf(old(Trees(r.index)))
  {
    hide EntryOf, IsState, RowsOf, Trees, ClearAll;
    var takes := TakesAccept(i.View(), m);
    sent := Protocol.HandleAccept(i, m);
    PruneIf(r, takes && m.command.None?);
  }
}
