/** The instance index: one row of instances per replica, ordered by instance number. The
    walk that collects a command's sequence number and dependencies, and the pruning. */
module Indexes {
  import opened Commands
  import opened DepArrays
  import opened Ids
  import opened Instances
  import opened Options
  import Protocol

  /** What the walk and the pruning read of an indexed instance. */
  datatype Entry = Entry(key: InstanceId, status: State, command: Option<Command>, seqNo: nat)

  /** What the range tree of one walk answers about an instance: whether a span of a writer
      was new to it, whether it then covered the whole command, and whether a reader lies
      outside of it. */
  datatype Answer = Answer(added: bool, covered: bool, outside: bool)

  /** What a walk is asked: for which command, leaving out which instance, with which answers
      of the range tree. */
  datatype Query = Query(cmd: Option<Command>, ignore: Option<InstanceId>, ask: InstanceId -> Answer)

  predicate IsCommitted(status: State) {
    status >= COMMITTED
  }

  predicate IsExecuted(e: Entry) {
    IsState(e.status, EXECUTED)
  }

  function DepOf(e: Entry): Dependency {
    Dependency(e.key, if IsCommitted(e.status) then 1 else 0)
  }

  function AddDep(p: Probe, e: Entry): Probe {
    var (deps, changed) := UpdateDeps(p.deps, DepOf(e));
    p.(deps := deps, updated := p.updated + if changed then 1 else 0)
  }

  /** Whether two commands interfere; none where the code would read a command that is missing.
      A writer without spans is never compared with the other one. */
  function Tested(c: Option<Command>, d: Option<Command>): Option<bool> {
    if c.None? then None
    else if d.None? then if c.value.writing && c.value.spans == [] then Some(false) else None
    else Some(Interferes(c.value, d.value))
  }

  /** The walk passes over e without a look at its command. */
  predicate Skipped(e: Entry, u: Query) {
    Some(e.key) == u.ignore
  }

  /** The range tree lets the interfering instance be recorded. */
  predicate Admitted(e: Entry, a: Answer)
    requires e.command.Some?
  {
    if e.command.value.writing then a.added else a.outside
  }

  /** The interfering instance leaves nothing of the command uncovered. */
  predicate Covering(e: Entry, a: Answer)
    requires e.command.Some?
  {
    e.command.value.writing && a.added && a.covered
  }

  /** What an interfering instance does to the probe. */
  function Meet(e: Entry, a: Answer, p: Probe): Probe
    requires e.command.Some?
  {
    var q := p.(maxSeq := Max(p.maxSeq, e.seqNo));
    if Admitted(e, a) then AddDep(q, e) else q
  }

  /** The walk from the largest instance number down to the first executed instance, or to the
      writer that leaves nothing of the command uncovered. It has no result when it comes to a
      missing command. */
  function WalkRow(row: seq<Entry>, u: Query, p: Probe): Option<Probe> {
    if row == [] then Some(p)
    else
      var e, rest := row[|row| - 1], row[..|row| - 1];
      if Skipped(e, u) then WalkRow(rest, u, p)
      else if IsExecuted(e) then Some(p)
      else
        var t := Tested(e.command, u.cmd);
        if t.None? then None
        else if !t.value then WalkRow(rest, u, p)
        else
          var q := Meet(e, u.ask(e.key), p);
          if Covering(e, u.ask(e.key)) then Some(q) else WalkRow(rest, u, q)
  }

  /** One walk a row; the sequence number starts over in each and the largest is kept. */
  function WalkAll(rows: seq<seq<Entry>>, u: Query, p: Probe): Option<Probe> {
    if rows == [] then Some(p)
    else
      var q := WalkAll(rows[..|rows| - 1], u, p);
      if q.None? then None
      else
        var s := WalkRow(rows[|rows| - 1], u, q.value.(maxSeq := 0));
        if s.None? then None else Some(s.value.(maxSeq := Max(q.value.maxSeq, s.value.maxSeq)))
  }

  // ---------- what a walk gets to ----------

  /** e is another instance that is not executed. */
  ghost predicate Live(e: Entry, u: Query) {
    Some(e.key) != u.ignore && !IsState(e.status, EXECUTED)
  }

  /** e is a different, unexecuted instance that interferes with the command. */
  ghost predicate Candidate(e: Entry, u: Query) {
    Live(e, u) && e.command.Some? && u.cmd.Some? && Interferes(e.command.value, u.cmd.value)
  }

  /** e is a different, unexecuted instance that cannot be compared, for want of a command: its
      own, or the one walked for unless it is a writer without spans. */
  ghost predicate Broken(e: Entry, u: Query) {
    Live(e, u) && (e.command.None? ||
      (u.cmd.None? && !(e.command.value.writing && e.command.value.spans == [])))
  }

  /** e is a writer that is new to the range tree, which then covers the whole command. */
  ghost predicate CoversAll(e: Entry, a: Answer)
    requires e.command.Some?
  {
    e.command.value.writing && a.added && a.covered
  }

  /** The walk of the row ends at e: at an executed instance, or at a writer that leaves nothing
      of the command uncovered. */
  ghost predicate Stops(e: Entry, u: Query) {
    Some(e.key) != u.ignore &&
    (IsState(e.status, EXECUTED) || (Candidate(e, u) && CoversAll(e, u.ask(e.key))))
  }

  /** Nothing above position i ends the walk. */
  ghost predicate Met(row: seq<Entry>, i: nat, u: Query) {
    i < |row| && forall j :: i < j < |row| ==> !Stops(row[j], u)
  }

  /** The four things the walk can do with the top of a row. */
  lemma WalkTop(row: seq<Entry>, u: Query, p: Probe)
    requires row != []
    ensures var e, rest := row[|row| - 1], row[..|row| - 1];
      && (Broken(e, u) ==> WalkRow(row, u, p) == None)
      && (Candidate(e, u) ==> e.command.Some?)
      && (Candidate(e, u) && Covering(e, u.ask(e.key)) ==> WalkRow(row, u, p) == Some(Meet(e, u.ask(e.key), p)))
      && (Candidate(e, u) && !Covering(e, u.ask(e.key)) ==>
            WalkRow(row, u, p) == WalkRow(rest, u, Meet(e, u.ask(e.key), p)))
      && (!Skipped(e, u) && IsExecuted(e) ==> WalkRow(row, u, p) == Some(p))
      && (!Broken(e, u) && !Candidate(e, u) && !Stops(e, u) ==> WalkRow(row, u, p) == WalkRow(rest, u, p))
  {
    hide Interferes, IsState, Meet;
  }

  lemma MetBelow(row: seq<Entry>, i: nat, u: Query)
    requires row != [] && i < |row| - 1
    ensures Met(row, i, u) <==> !Stops(row[|row| - 1], u) && Met(row[..|row| - 1], i, u)
  {
    hide Stops;
    var n := |row| - 1;
    assert forall j :: 0 <= j < n ==> row[..n][j] == row[j];
  }

  ghost predicate BreaksAt(row: seq<Entry>, i: nat, u: Query) {
    Met(row, i, u) && Broken(row[i], u)
  }

  ghost predicate Breaks(row: seq<Entry>, u: Query) {
    exists i :: BreaksAt(row, i, u)
  }

  /** A walk has no result exactly when it gets down to an unexecuted instance without a
      command, or, for want of a command of its own, to one it would have to compare with. */
  lemma {:induction false} RowBreaks(row: seq<Entry>, u: Query, p: Probe)
    ensures WalkRow(row, u, p) == None <==> Breaks(row, u)
  {
    hide WalkRow, Broken, Stops, Candidate, Covering, Meet, Met;
    if row == [] {
      RowEmpty(u, p);
    } else {
      var n := |row| - 1;
      var e, rest := row[n], row[..n];
      WalkTop(row, u, p);
      TopMet(row, u);
      RowBreaks(rest, u, p);
      if Candidate(e, u) {
        RowBreaks(rest, u, Meet(e, u.ask(e.key), p));
      }
      forall i | 0 <= i < n ensures BreaksAt(row, i, u) <==> !Stops(e, u) && BreaksAt(rest, i, u) {
        MetBelow(row, i, u);
      }
      Kinds(e, u);
      BreaksBelow(row, u);
    }
  }

  lemma RowEmpty(u: Query, p: Probe)
    ensures WalkRow([], u, p) == Some(p) && !Breaks([], u)
  {
  }

  lemma TopMet(row: seq<Entry>, u: Query)
    requires row != []
    ensures Met(row, |row| - 1, u)
  {
  }

  /** An entry that breaks the walk does not also end it. */
  lemma Kinds(e: Entry, u: Query)
    ensures Broken(e, u) ==> !Candidate(e, u) && !Stops(e, u)
    ensures Stops(e, u) ==> !Skipped(e, u) && (IsExecuted(e) || (Candidate(e, u) && Covering(e, u.ask(e.key))))
    ensures Candidate(e, u) ==> e.command.Some? && (Stops(e, u) <==> Covering(e, u.ask(e.key)))
  {
  }

  lemma BreaksBelow(row: seq<Entry>, u: Query)
    requires row != []
    requires forall i :: 0 <= i < |row| - 1 ==>
      (BreaksAt(row, i, u) <==> !Stops(row[|row| - 1], u) && BreaksAt(row[..|row| - 1], i, u))
    ensures Breaks(row, u) <==>
      Broken(row[|row| - 1], u) || (!Stops(row[|row| - 1], u) && Breaks(row[..|row| - 1], u))
  {
    var n := |row| - 1;
    hide Stops, Broken;
    if Broken(row[n], u) {
      assert BreaksAt(row, n, u);
    }
    if !Stops(row[n], u) {
      if i :| BreaksAt(row[..n], i, u) {
        assert BreaksAt(row, i, u);
      }
    }
  }

  /** So does sd_for_command: in some row. */
  lemma {:induction false} WalkBreaks(rows: seq<seq<Entry>>, u: Query, p: Probe)
    ensures WalkAll(rows, u, p) == None <==> exists r :: 0 <= r < |rows| && Breaks(rows[r], u)
  {
    hide WalkRow, Breaks;
    if rows != [] {
      var n := |rows| - 1;
      WalkBreaks(rows[..n], u, p);
      assert forall r :: 0 <= r < n ==> rows[..n][r] == rows[r];
      var q := WalkAll(rows[..n], u, p);
      if q.Some? {
        RowBreaks(rows[n], u, q.value.(maxSeq := 0));
      }
    }
  }

  // ---------- what the walk records ----------

  /** d names the instance and is flagged exactly if that is committed. */
  ghost predicate StandsFor(d: Dependency, e: Entry) {
    d.id == e.key && d.committed == if e.status >= COMMITTED then 1 else 0
  }

  /** Every filled slot stands for a candidate, with its committed flag as the candidate's
      status has it and a sequence number up to bound. */
  ghost predicate Recorded(all: set<Entry>, u: Query, deps: DepArray, bound: nat) {
    forall j :: 0 <= j < MAX_DEPS && deps[j].id.instanceId != 0 ==>
      exists e :: e in all && Candidate(e, u) && StandsFor(deps[j], e) && e.seqNo <= bound
  }

  /** bound is the sequence number of a candidate, or zero. */
  ghost predicate Reached(all: set<Entry>, u: Query, bound: nat) {
    bound == 0 || exists e :: e in all && Candidate(e, u) && e.seqNo == bound
  }

  lemma AddRecorded(all: set<Entry>, u: Query, p: Probe, e: Entry, bound: nat)
    requires Recorded(all, u, p.deps, bound) && e in all && Candidate(e, u) && e.seqNo <= bound
    ensures Recorded(all, u, AddDep(p, e).deps, bound)
  {
    hide Candidate, UpdateDeps;
    forall j | 0 <= j < MAX_DEPS && AddDep(p, e).deps[j].id.instanceId != 0
      ensures exists x :: x in all && Candidate(x, u) && StandsFor(AddDep(p, e).deps[j], x) && x.seqNo <= bound
    {
      UpdateFrom(p.deps, DepOf(e), j);
    }
  }

  lemma MeetRecorded(e: Entry, all: set<Entry>, u: Query, a: Answer, p: Probe, bound: nat)
    requires e in all && Candidate(e, u) && e.command.Some?
    requires Recorded(all, u, p.deps, Max(bound, p.maxSeq)) && Reached(all, u, p.maxSeq)
    ensures var q := Meet(e, a, p); Recorded(all, u, q.deps, Max(bound, q.maxSeq)) && Reached(all, u, q.maxSeq)
  {
    var q := p.(maxSeq := Max(p.maxSeq, e.seqNo));
    hide Candidate, UpdateDeps;
    assert Recorded(all, u, q.deps, Max(bound, q.maxSeq));
    AddRecorded(all, u, q, e, Max(bound, q.maxSeq));
  }

  lemma {:induction false} RowRecorded(row: seq<Entry>, all: set<Entry>, u: Query, p: Probe, bound: nat)
    requires forall i :: 0 <= i < |row| ==> row[i] in all
    requires Recorded(all, u, p.deps, Max(bound, p.maxSeq)) && Reached(all, u, p.maxSeq) && WalkRow(row, u, p).Some?
    ensures var q := WalkRow(row, u, p).value;
      Recorded(all, u, q.deps, Max(bound, q.maxSeq)) && Reached(all, u, q.maxSeq)
  {
    if row != [] {
      hide WalkRow, Recorded, Reached, Candidate, Broken, Covering, Meet;
      var e, rest := row[|row| - 1], row[..|row| - 1];
      WalkTop(row, u, p);
      if Candidate(e, u) {
        MeetRecorded(e, all, u, u.ask(e.key), p, bound);
        if !Covering(e, u.ask(e.key)) {
          RowRecorded(rest, all, u, Meet(e, u.ask(e.key), p), bound);
        }
      } else if !Stops(e, u) {
        RowRecorded(rest, all, u, p, bound);
      }
    }
  }

  /** The indexed entries. */
  ghost function Indexed(rows: seq<seq<Entry>>): set<Entry> {
    set r, i | 0 <= r < |rows| && 0 <= i < |rows[r]| :: rows[r][i]
  }

  /** Whatever the range tree answers: a walk that has a result recorded only candidates, as
      they are, and its number is the largest of some candidate's. */
  lemma {:induction false} WalkRecorded(rows: seq<seq<Entry>>, all: set<Entry>, u: Query, p: Probe)
    requires Indexed(rows) <= all && p.maxSeq == 0 && Recorded(all, u, p.deps, 0) && WalkAll(rows, u, p).Some?
    ensures var q := WalkAll(rows, u, p).value; Recorded(all, u, q.deps, q.maxSeq) && Reached(all, u, q.maxSeq)
  {
    hide Recorded, Candidate, WalkRow;
    if rows != [] {
      var n := |rows| - 1;
      assert Indexed(rows[..n]) <= Indexed(rows) by {
        assert forall r :: 0 <= r < n ==> rows[..n][r] == rows[r];
      }
      WalkRecorded(rows[..n], all, u, p);
      var q := WalkAll(rows[..n], u, p).value;
      assert forall i :: 0 <= i < |rows[n]| ==> rows[n][i] in Indexed(rows);
      RowRecorded(rows[n], all, u, q.(maxSeq := 0), q.maxSeq);
    }
  }

  /** Ascending instance numbers, all of replica r. */
  ghost predicate RowOk(row: seq<Entry>, r: nat) {
    && (forall i, j :: 0 <= i < j < |row| ==> row[i].key.instanceId < row[j].key.instanceId)
    && (forall i :: 0 <= i < |row| ==> row[i].key.replicaId == r)
  }

  ghost predicate RowsOk(rows: seq<seq<Entry>>) {
    forall r :: 0 <= r < |rows| ==> RowOk(rows[r], r)
  }

  lemma KeyUnique(rows: seq<seq<Entry>>, e: Entry, f: Entry)
    requires RowsOk(rows) && e in Indexed(rows) && f in Indexed(rows) && e.key == f.key
    ensures e == f
  {
    var r, i :| 0 <= r < |rows| && 0 <= i < |rows[r]| && rows[r][i] == e;
    var q, j :| 0 <= q < |rows| && 0 <= j < |rows[q]| && rows[q][j] == f;
    assert RowOk(rows[r], r) && RowOk(rows[q], q);
  }

  /** Every filled slot names an indexed instance, and that instance is a candidate, flagged
      committed exactly when it is. */
  ghost predicate Names(all: set<Entry>, u: Query, deps: DepArray) {
    forall j :: 0 <= j < MAX_DEPS && deps[j].id.instanceId != 0 ==>
      && (exists e :: e in all && e.key == deps[j].id)
      && (forall e :: e in all && e.key == deps[j].id ==> Candidate(e, u) && StandsFor(deps[j], e))
  }

  /** The instances named have sequence numbers below s. */
  ghost predicate Below(all: set<Entry>, deps: DepArray, s: nat) {
    forall j, e :: 0 <= j < MAX_DEPS && deps[j].id.instanceId != 0 && e in all && e.key == deps[j].id ==> e.seqNo < s
  }

  ghost predicate Follows(all: set<Entry>, u: Query, deps: DepArray, s: nat) {
    Names(all, u, deps) && Below(all, deps, s)
  }

  lemma RecordedFollows(rows: seq<seq<Entry>>, u: Query, deps: DepArray, bound: nat)
    requires RowsOk(rows) && Recorded(Indexed(rows), u, deps, bound)
    ensures Follows(Indexed(rows), u, deps, bound + 1)
  {
    hide Candidate, RowsOk, Indexed;
    var all := Indexed(rows);
    forall j, e | 0 <= j < MAX_DEPS && deps[j].id.instanceId != 0 && e in all && e.key == deps[j].id
      ensures Candidate(e, u) && StandsFor(deps[j], e) && e.seqNo < bound + 1
    {
      var x :| x in all && Candidate(x, u) && StandsFor(deps[j], x) && x.seqNo <= bound;
      KeyUnique(rows, e, x);
    }
  }

  const NEW_PROBE := Probe(0, 0, EMPTY_DEPS)

  /** What sd_for_command reports when it starts from no dependencies. */
  ghost function FreshProbe(rows: seq<seq<Entry>>, u: Query): Option<Probe> {
    WalkAll(rows, u, NEW_PROBE)
  }

  lemma FreshRecorded(rows: seq<seq<Entry>>, u: Query)
    requires RowsOk(rows) && FreshProbe(rows, u).Some?
    ensures var q := FreshProbe(rows, u).value;
      Follows(Indexed(rows), u, q.deps, q.maxSeq + 1) && Reached(Indexed(rows), u, q.maxSeq)
  {
    hide RowsOk, Follows;
    WalkRecorded(rows, Indexed(rows), u, NEW_PROBE);
    RecordedFollows(rows, u, FreshProbe(rows, u).value.deps, FreshProbe(rows, u).value.maxSeq);
  }

  /** The states before COMMITTED. */
  const EARLIER: set<State> := {NONE, PRE_ACCEPTED, PRE_ACCEPTED_EQ, ACCEPTED, PREPARING, TRY_PRE_ACCEPTING}

  /** A walk that starts from no dependencies flags what it records as committed exactly if it
      is COMMITTED; a state before that is flagged zero, whichever it is. */
  lemma WalkFlags(rows: seq<seq<Entry>>, u: Query, j: nat, e: Entry)
    requires RowsOk(rows) && FreshProbe(rows, u).Some? && j < MAX_DEPS && e in Indexed(rows)
    requires FreshProbe(rows, u).value.deps[j].id == e.key && e.key.instanceId != 0
    requires e.status in EARLIER + {COMMITTED, EXECUTED}
    ensures var d := FreshProbe(rows, u).value.deps[j];
      && (d.committed == 1 <==> e.status == COMMITTED)
      && (d.committed == 0 <==> e.status in EARLIER)
  {
    FreshRecorded(rows, u);
    hide FreshProbe, RowsOk, Interferes, Indexed;
    assert Candidate(e, u) && StandsFor(FreshProbe(rows, u).value.deps[j], e);
  }

  /** The sequence numbers of the indexed instances fit into 64 bits. */
  ghost predicate SeqsFit(rows: seq<seq<Entry>>) {
    forall e :: e in Indexed(rows) ==> e.seqNo < TWO64
  }

  /** After phase1 the leader's sequence number is above that of every dependency it recorded,
      exactly as long as the largest number met leaves room in 64 bits. */
  lemma Phase1Follows(r: Rec, m: Message, key: InstanceId, rows: seq<seq<Entry>>, ask: InstanceId -> Answer)
    requires r.lt.Some? && RowsOk(rows) && SeqsFit(rows)
    requires FreshProbe(rows, Query(m.command, Some(key), ask)).Some?
    ensures var u := Query(m.command, Some(key), ask);
      var p := FreshProbe(rows, u).value;
      var i := Protocol.OnPhase1(r, m, key, p).rec;
      && (i.seqNo > p.maxSeq <==> p.maxSeq < TWO64 - 1)
      && Names(Indexed(rows), u, i.deps)
      && (Below(Indexed(rows), i.deps, i.seqNo) <==>
          p.maxSeq < TWO64 - 1 || forall j :: 0 <= j < MAX_DEPS ==> i.deps[j].id.instanceId == 0)
  {
    var u := Query(m.command, Some(key), ask);
    hide Candidate, RowsOk, WalkAll;
    FreshRecorded(rows, u);
    assert FreshProbe(rows, u).value.maxSeq < TWO64;
  }

  /** The same for a replica that first hears of the instance by a PRE_ACCEPT: there the
      message's number can still be above all recorded ones when the own one wraps. */
  lemma FirstPreAcceptFollows(m: Message, rows: seq<seq<Entry>>, ask: InstanceId -> Answer)
    requires m.seqNo < TWO64 && RowsOk(rows) && SeqsFit(rows)
    requires FreshProbe(rows, Query(m.command, Some(m.id), ask)).Some?
    ensures var u := Query(m.command, Some(m.id), ask);
      var p := FreshProbe(rows, u).value;
      var i := Protocol.OnPreAccept(NEW_REC, m, p).rec;
      && (i.seqNo > p.maxSeq <==> p.maxSeq < TWO64 - 1)
      && i.deps == p.deps && Names(Indexed(rows), u, i.deps)
      && (Below(Indexed(rows), i.deps, i.seqNo) <==> p.maxSeq < TWO64 - 1 || Below(Indexed(rows), i.deps, m.seqNo))
  {
    var u := Query(m.command, Some(m.id), ask);
    hide Candidate, RowsOk, WalkAll;
    FreshRecorded(rows, u);
    assert FreshProbe(rows, u).value.maxSeq < TWO64;
    NoneIsOpen();
  }

  lemma NoneIsOpen()
    ensures !IsState(NONE, COMMITTED | ACCEPTED) && IsState(NONE, PRE_ACCEPTED | NONE)
  {
  }

  // ---------- when a new replica agrees ----------

  /** The count of changes is zero exactly when nothing was recorded. */
  ghost predicate Counted(p: Probe) {
    DepsOk(p.deps) && (p.updated == 0 <==> p.deps == EMPTY_DEPS)
  }

  lemma EmptyHead(deps: DepArray)
    requires DepsOk(deps)
    ensures deps == EMPTY_DEPS <==> deps[0].id.instanceId == 0
  {
  }

  lemma AddCounted(p: Probe, e: Entry)
    requires Counted(p)
    ensures Counted(AddDep(p, e))
  {
    var q := AddDep(p, e);
    UpdateKeeps(p.deps, DepOf(e));
    EmptyHead(p.deps);
    EmptyHead(q.deps);
    if e.key.instanceId != 0 && p.deps == EMPTY_DEPS {
      assert SlotOf(p.deps, e.key) == MAX_DEPS && PlaceOf(p.deps, e.key.instanceId) == 0;
      assert q.deps[0] == DepOf(e);
    }
  }

  lemma MeetCounted(e: Entry, a: Answer, p: Probe)
    requires e.command.Some? && Counted(p)
    ensures Counted(Meet(e, a, p))
  {
    AddCounted(p.(maxSeq := Max(p.maxSeq, e.seqNo)), e);
  }

  lemma {:induction false} RowCounted(row: seq<Entry>, u: Query, p: Probe)
    requires Counted(p) && WalkRow(row, u, p).Some?
    ensures Counted(WalkRow(row, u, p).value)
  {
    if row != [] {
      hide WalkRow, Counted, Candidate, Broken, Covering, Meet;
      var e, rest := row[|row| - 1], row[..|row| - 1];
      WalkTop(row, u, p);
      if Candidate(e, u) {
        MeetCounted(e, u.ask(e.key), p);
        if !Covering(e, u.ask(e.key)) {
          RowCounted(rest, u, Meet(e, u.ask(e.key), p));
        }
      } else if !Stops(e, u) {
        RowCounted(rest, u, p);
      }
    }
  }

  lemma {:induction false} WalkCounted(rows: seq<seq<Entry>>, u: Query, p: Probe)
    requires Counted(p) && WalkAll(rows, u, p).Some?
    ensures Counted(WalkAll(rows, u, p).value)
  {
    hide WalkRow, DepsOk;
    if rows != [] {
      var n := |rows| - 1;
      WalkCounted(rows[..n], u, p);
      RowCounted(rows[n], u, WalkAll(rows[..n], u, p).value.(maxSeq := 0));
    }
  }

  /** A replica new to the instance answers PRE_ACCEPT_OK exactly when its own walk recorded
      nothing at all and the leader's number is above all it met: the leader's dependencies
      play no part. */
  lemma FirstOkExact(m: Message, rows: seq<seq<Entry>>, ask: InstanceId -> Answer)
    requires m.seqNo < TWO64 && IsInitialBallot(m.ballot) && RowsOk(rows) && SeqsFit(rows)
    requires FreshProbe(rows, Query(m.command, Some(m.id), ask)).Some?
    ensures var p := FreshProbe(rows, Query(m.command, Some(m.id), ask)).value;
      Protocol.OnPreAccept(NEW_REC, m, p).sent == Some(m.(kind := PreAcceptOk)) <==>
      p.deps == EMPTY_DEPS && (m.seqNo > p.maxSeq || p.maxSeq == TWO64 - 1)
  {
    var u := Query(m.command, Some(m.id), ask);
    hide Candidate, RowsOk, WalkAll, Follows;
    FreshRecorded(rows, u);
    assert FreshProbe(rows, u).value.maxSeq < TWO64;
    WalkCounted(rows, u, NEW_PROBE);
    NoneIsOpen();
  }

  // ---------- what the walk does not miss ----------

  /** The probe accounts for e: its number is counted and, if admitted, its id is not above
      the first one recorded. */
  ghost predicate Accounts(q: Probe, e: Entry, a: Answer)
    requires e.command.Some?
  {
    && e.seqNo <= q.maxSeq
    && ((if e.command.value.writing then a.added else a.outside) ==> e.key.instanceId <= q.deps[0].id.instanceId)
  }

  /** q counts no less than p. */
  ghost predicate Beyond(p: Probe, q: Probe) {
    DepsOk(q.deps) && p.maxSeq <= q.maxSeq && p.deps[0].id.instanceId <= q.deps[0].id.instanceId
  }

  lemma MeetBeyond(e: Entry, a: Answer, p: Probe)
    requires e.command.Some? && DepsOk(p.deps)
    ensures Beyond(p, Meet(e, a, p)) && Accounts(Meet(e, a, p), e, a)
  {
    UpdateKeeps(p.deps, DepOf(e));
    hide UpdateDeps, DepsOk;
  }

  lemma {:induction false} RowBeyond(row: seq<Entry>, u: Query, p: Probe)
    requires DepsOk(p.deps) && WalkRow(row, u, p).Some?
    ensures Beyond(p, WalkRow(row, u, p).value)
  {
    if row != [] {
      hide WalkRow, Candidate, Broken, Covering, Meet, DepsOk;
      var e, rest := row[|row| - 1], row[..|row| - 1];
      WalkTop(row, u, p);
      if Candidate(e, u) {
        MeetBeyond(e, u.ask(e.key), p);
        if !Covering(e, u.ask(e.key)) {
          RowBeyond(rest, u, Meet(e, u.ask(e.key), p));
        }
      } else if !Stops(e, u) {
        RowBeyond(rest, u, p);
      }
    }
  }

  lemma {:induction false} RowAccounts(row: seq<Entry>, i: nat, u: Query, p: Probe)
    requires DepsOk(p.deps) && WalkRow(row, u, p).Some? && i < |row| && Met(row, i, u) && Candidate(row[i], u)
    ensures row[i].command.Some? && Accounts(WalkRow(row, u, p).value, row[i], u.ask(row[i].key))
  {
    hide WalkRow, Candidate, Broken, Covering, Meet, DepsOk, Met;
    var n := |row| - 1;
    var e, rest := row[n], row[..n];
    WalkTop(row, u, p);
    Kinds(e, u);
    if i == n {
      MeetBeyond(e, u.ask(e.key), p);
      if !Covering(e, u.ask(e.key)) {
        RowBeyond(rest, u, Meet(e, u.ask(e.key), p));
      }
    } else {
      MetBelow(row, i, u);
      if Candidate(e, u) {
        MeetBeyond(e, u.ask(e.key), p);
        RowAccounts(rest, i, u, Meet(e, u.ask(e.key), p));
      } else {
        RowAccounts(rest, i, u, p);
      }
    }
  }

  lemma {:induction false} WalkBeyond(rows: seq<seq<Entry>>, u: Query, p: Probe)
    requires DepsOk(p.deps) && WalkAll(rows, u, p).Some?
    ensures Beyond(p, WalkAll(rows, u, p).value)
  {
    hide WalkRow, DepsOk;
    if rows != [] {
      var n := |rows| - 1;
      WalkBeyond(rows[..n], u, p);
      RowBeyond(rows[n], u, WalkAll(rows[..n], u, p).value.(maxSeq := 0));
    }
  }

  /** No interfering instance that a walk gets down to is missed: the result's number is at
      least its own, and if the range tree admits it, the first dependency recorded is at
      least as late. */
  lemma {:induction false} WalkAccounts(rows: seq<seq<Entry>>, r: nat, i: nat, u: Query, p: Probe)
    requires DepsOk(p.deps) && WalkAll(rows, u, p).Some?
    requires r < |rows| && i < |rows[r]| && Met(rows[r], i, u) && Candidate(rows[r][i], u)
    ensures rows[r][i].command.Some? && Accounts(WalkAll(rows, u, p).value, rows[r][i], u.ask(rows[r][i].key))
  {
    hide Candidate, Met, WalkRow, DepsOk;
    var n := |rows| - 1;
    var q := WalkAll(rows[..n], u, p).value;
    WalkBeyond(rows[..n], u, p);
    RowBeyond(rows[n], u, q.(maxSeq := 0));
    if r == n {
      RowAccounts(rows[n], i, u, q.(maxSeq := 0));
    } else {
      WalkAccounts(rows[..n], r, i, u, p);
    }
  }

  /** n is the sequence number of an interfering instance that the walk of the row gets down to. */
  ghost predicate MeetsNumber(row: seq<Entry>, u: Query, n: nat) {
    exists i: nat :: MeetsAt(row, i, u, n)
  }

  ghost predicate MeetsAt(row: seq<Entry>, i: nat, u: Query, n: nat) {
    Met(row, i, u) && Candidate(row[i], u) && row[i].seqNo == n
  }

  lemma MeetsBelow(row: seq<Entry>, u: Query, n: nat)
    requires row != [] && !Stops(row[|row| - 1], u) && MeetsNumber(row[..|row| - 1], u, n)
    ensures MeetsNumber(row, u, n)
  {
    hide Stops, Candidate;
    var i: nat :| MeetsAt(row[..|row| - 1], i, u, n);
    MetBelow(row, i, u);
    assert MeetsAt(row, i, u, n);
  }

  lemma {:induction false} RowNumber(row: seq<Entry>, u: Query, p: Probe)
    requires WalkRow(row, u, p).Some?
    ensures var q := WalkRow(row, u, p).value; q.maxSeq == p.maxSeq || MeetsNumber(row, u, q.maxSeq)
  {
    if row != [] {
      hide WalkRow, Candidate, Broken, Covering, Stops, MeetsNumber, AddDep, Met;
      var n := |row| - 1;
      var e, rest := row[n], row[..n];
      WalkTop(row, u, p);
      TopMet(row, u);
      Kinds(e, u);
      if Candidate(e, u) {
        var q := Meet(e, u.ask(e.key), p);
        assert MeetsAt(row, n, u, e.seqNo);
        assert MeetsNumber(row, u, e.seqNo) by { TopNumber(row, u); }
        if !Stops(e, u) {
          RowNumber(rest, u, q);
          if MeetsNumber(rest, u, WalkRow(rest, u, q).value.maxSeq) {
            MeetsBelow(row, u, WalkRow(rest, u, q).value.maxSeq);
          }
        }
      } else if !Stops(e, u) {
        RowNumber(rest, u, p);
        if MeetsNumber(rest, u, WalkRow(rest, u, p).value.maxSeq) {
          MeetsBelow(row, u, WalkRow(rest, u, p).value.maxSeq);
        }
      }
    }
  }

  lemma TopNumber(row: seq<Entry>, u: Query)
    requires row != [] && MeetsAt(row, |row| - 1, u, row[|row| - 1].seqNo)
    ensures MeetsNumber(row, u, row[|row| - 1].seqNo)
  {
  }

  /** The number that a walk reports is that of an interfering instance it got down to, or, if
      there is none, the one it began with; by WalkAccounts it is the largest of them. */
  lemma {:induction false} WalkNumber(rows: seq<seq<Entry>>, u: Query, p: Probe)
    requires WalkAll(rows, u, p).Some?
    ensures var q := WalkAll(rows, u, p).value;
      q.maxSeq == p.maxSeq || exists r :: 0 <= r < |rows| && MeetsNumber(rows[r], u, q.maxSeq)
  {
    hide WalkRow, MeetsNumber;
    if rows != [] {
      var n := |rows| - 1;
      WalkNumber(rows[..n], u, p);
      assert forall r :: 0 <= r < n ==> rows[..n][r] == rows[r];
      RowNumber(rows[n], u, WalkAll(rows[..n], u, p).value.(maxSeq := 0));
    }
  }

  // ---------- what stays recorded ----------

  /** What the walk of a row offers to the array, in the order of the walk. */
  ghost function RowOffers(row: seq<Entry>, u: Query): seq<Dependency> {
    if row == [] then []
    else
      var e, rest := row[|row| - 1], row[..|row| - 1];
      (if Candidate(e, u) && Admitted(e, u.ask(e.key)) then [DepOf(e)] else []) +
      (if Stops(e, u) then [] else RowOffers(rest, u))
  }

  /** Row after row. */
  ghost function AllOffers(rows: seq<seq<Entry>>, u: Query): seq<Dependency> {
    if rows == [] then [] else AllOffers(rows[..|rows| - 1], u) + RowOffers(rows[|rows| - 1], u)
  }

  /** The walk gets down to entry i, which interferes and is let through by the range tree: a
      writer that was new to it, or a reader outside of it. */
  ghost predicate OfferedAt(row: seq<Entry>, i: nat, u: Query) {
    && Met(row, i, u) && Candidate(row[i], u)
    && if row[i].command.value.writing then u.ask(row[i].key).added else u.ask(row[i].key).outside
  }

  lemma MeetOffers(e: Entry, a: Answer, p: Probe)
    requires e.command.Some?
    ensures Meet(e, a, p).deps == OfferAll(p.deps, if Admitted(e, a) then [DepOf(e)] else [])
  {
    hide UpdateDeps;
    if Admitted(e, a) {
      var d := DepOf(e);
      assert [d][..0] == [];
      assert OfferAll(p.deps, []) == p.deps;
    }
  }

  lemma {:induction false} RowOffered(row: seq<Entry>, u: Query, p: Probe)
    requires WalkRow(row, u, p).Some?
    ensures WalkRow(row, u, p).value.deps == OfferAll(p.deps, RowOffers(row, u))
  {
    if row != [] {
      hide WalkRow, Candidate, Broken, Covering, Meet, Stops, Admitted;
      var e, rest := row[|row| - 1], row[..|row| - 1];
      WalkTop(row, u, p);
      Kinds(e, u);
      if Candidate(e, u) {
        var q, here := Meet(e, u.ask(e.key), p), if Admitted(e, u.ask(e.key)) then [DepOf(e)] else [];
        MeetOffers(e, u.ask(e.key), p);
        if Stops(e, u) {
          assert RowOffers(row, u) == here;
        } else {
          RowOffered(rest, u, q);
          OffersJoin(p.deps, here, RowOffers(rest, u));
        }
      } else if !Stops(e, u) {
        RowOffered(rest, u, p);
        assert RowOffers(row, u) == RowOffers(rest, u);
      } else {
        assert RowOffers(row, u) == [];
      }
    }
  }

  /** The array after a walk is the one before it after these offers. */
  lemma {:induction false} WalkOffered(rows: seq<seq<Entry>>, u: Query, p: Probe)
    requires WalkAll(rows, u, p).Some?
    ensures WalkAll(rows, u, p).value.deps == OfferAll(p.deps, AllOffers(rows, u))
  {
    hide WalkRow, RowOffers;
    if rows != [] {
      var n := |rows| - 1;
      WalkOffered(rows[..n], u, p);
      var q := WalkAll(rows[..n], u, p).value.(maxSeq := 0);
      RowOffered(rows[n], u, q);
      OffersJoin(p.deps, AllOffers(rows[..n], u), RowOffers(rows[n], u));
    }
  }

  /** Entry i makes the walk offer d, flagged exactly if the entry is committed. */
  ghost predicate Offers(row: seq<Entry>, i: nat, u: Query, d: Dependency) {
    OfferedAt(row, i, u) && StandsFor(d, row[i])
  }

  ghost predicate SomeOffers(row: seq<Entry>, u: Query, d: Dependency) {
    exists i: nat :: Offers(row, i, u, d)
  }

  lemma {:induction false} RowOffersExact(row: seq<Entry>, u: Query, d: Dependency)
    ensures d in RowOffers(row, u) <==> SomeOffers(row, u, d)
  {
    if row == [] {
      assert forall i: nat :: !Met([], i, u);
    } else {
      hide Candidate, Stops, Admitted, Met, SomeOffers;
      var n := |row| - 1;
      RowOffersExact(row[..n], u, d);
      TopMet(row, u);
      OfferedBelow(row, u, d);
    }
  }

  lemma OfferedBelow(row: seq<Entry>, u: Query, d: Dependency)
    requires row != []
    ensures var n := |row| - 1;
      SomeOffers(row, u, d) <==> Offers(row, n, u, d) || (!Stops(row[n], u) && SomeOffers(row[..n], u, d))
  {
    var n := |row| - 1;
    forall i: nat ensures Offers(row, i, u, d) ==> i <= n
      ensures Offers(row[..n], i, u, d) ==> i < n
    {
    }
    hide Stops, Candidate, Admitted, Met;
    forall i: nat | i < n ensures Offers(row, i, u, d) <==> !Stops(row[n], u) && Offers(row[..n], i, u, d) {
      MetBelow(row, i, u);
    }
    hide Offers;
    if i: nat :| Offers(row, i, u, d) {
      assert i < n ==> Offers(row[..n], i, u, d);
    }
    if i: nat :| Offers(row[..n], i, u, d) {
      assert !Stops(row[n], u) ==> Offers(row, i, u, d);
    }
  }

  /** Offered is exactly what a walk gets down to, interfering and let through. */
  lemma {:induction false} OffersExact(rows: seq<seq<Entry>>, u: Query, d: Dependency)
    ensures d in AllOffers(rows, u) <==> exists r :: 0 <= r < |rows| && SomeOffers(rows[r], u, d)
  {
    hide SomeOffers, RowOffers;
    if rows != [] {
      var n := |rows| - 1;
      OffersExact(rows[..n], u, d);
      RowOffersExact(rows[n], u, d);
      assert forall r :: 0 <= r < n ==> rows[..n][r] == rows[r];
    }
  }

  /** Which instances a walk leaves recorded: exactly those that are in the array to begin with,
      or are offered and find a place, and that no later offer of the walk pushes out. */
  lemma WalkHolds(rows: seq<seq<Entry>>, u: Query, p: Probe, id: InstanceId)
    requires DepsOk(p.deps) && WalkAll(rows, u, p).Some?
    ensures Holds(WalkAll(rows, u, p).value.deps, id) <==> Survives(p.deps, AllOffers(rows, u), id)
  {
    hide WalkAll, AllOffers, Survives, Holds, DepsOk;
    WalkOffered(rows, u, p);
    HeldExactly(p.deps, AllOffers(rows, u), id);
  }

  // ---------- when a walk changes nothing ----------

  lemma MeetChanges(e: Entry, a: Answer, p: Probe)
    requires e.command.Some? && DepsOk(p.deps)
    ensures var q, here := Meet(e, a, p), if Admitted(e, a) then [DepOf(e)] else [];
      && p.updated <= q.updated && (q.updated == p.updated <==> forall d :: d in here ==> Absorbs(p.deps, d))
      && (q.updated == p.updated ==> q.deps == p.deps) && DepsOk(q.deps)
  {
    hide Absorbs, DepsOk, UpdateDeps;
    UpdateAnswer(p.deps, DepOf(e));
    UpdateKeeps(p.deps, DepOf(e));
  }

  lemma {:induction false} RowChanges(row: seq<Entry>, u: Query, p: Probe)
    requires DepsOk(p.deps) && WalkRow(row, u, p).Some?
    ensures var q := WalkRow(row, u, p).value;
      && p.updated <= q.updated
      && (q.updated == p.updated <==> forall d :: d in RowOffers(row, u) ==> Absorbs(p.deps, d))
      && (q.updated == p.updated ==> q.deps == p.deps) && DepsOk(q.deps)
  {
    if row != [] {
      hide WalkRow, Candidate, Broken, Covering, Meet, Stops, Admitted, Absorbs, DepsOk;
      var e, rest := row[|row| - 1], row[..|row| - 1];
      WalkTop(row, u, p);
      Kinds(e, u);
      if Candidate(e, u) {
        var q, here := Meet(e, u.ask(e.key), p), if Admitted(e, u.ask(e.key)) then [DepOf(e)] else [];
        MeetChanges(e, u.ask(e.key), p);
        if Stops(e, u) {
          assert RowOffers(row, u) == here;
        } else {
          RowChanges(rest, u, q);
          assert RowOffers(row, u) == here + RowOffers(rest, u);
        }
      } else if !Stops(e, u) {
        RowChanges(rest, u, p);
        assert RowOffers(row, u) == RowOffers(rest, u);
      } else {
        assert RowOffers(row, u) == [];
      }
    }
  }

  /** A walk counts no change exactly if the array it began with absorbs all that it offers; then
      it leaves the array as it was. */
  lemma {:induction false} WalkChanges(rows: seq<seq<Entry>>, u: Query, p: Probe)
    requires DepsOk(p.deps) && WalkAll(rows, u, p).Some?
    ensures var q := WalkAll(rows, u, p).value;
      && p.updated <= q.updated
      && (q.updated == p.updated <==> forall d :: d in AllOffers(rows, u) ==> Absorbs(p.deps, d))
      && (q.updated == p.updated ==> q.deps == p.deps) && DepsOk(q.deps)
  {
    hide WalkRow, RowOffers, Absorbs, DepsOk;
    if rows != [] {
      var n := |rows| - 1;
      WalkChanges(rows[..n], u, p);
      RowChanges(rows[n], u, WalkAll(rows[..n], u, p).value.(maxSeq := 0));
    }
  }

  /** A replica that takes a PRE_ACCEPT agrees exactly if the array it has absorbs all that its
      walk offers and holds no uncommitted entry, the message's number is above all it met, and
      the ballot is of the first round. Else it replies with its walk's report. */
  lemma AgreesExactly(r: Rec, m: Message, rows: seq<seq<Entry>>, ask: InstanceId -> Answer)
    requires r.status in {NONE, PRE_ACCEPTED} && m.ballot >= r.ballot && DepsOk(r.deps)
    requires WalkAll(rows, Query(m.command, Some(m.id), ask), Probe(0, 0, r.deps)).Some?
    ensures var u := Query(m.command, Some(m.id), ask);
      var p := WalkAll(rows, u, Probe(0, 0, r.deps)).value;
      var sent := Protocol.OnPreAccept(r, m, p).sent;
      && sent.Some? && (sent.value.kind.PreAcceptOk? || sent.value.kind.PreAcceptReply?)
      && (sent.value.kind.PreAcceptOk? <==>
            && (forall d :: d in AllOffers(rows, u) ==> Absorbs(r.deps, d))
            && (forall j :: 0 <= j < MAX_DEPS && r.deps[j].id.instanceId != 0 ==> r.deps[j].committed != 0)
            && (p.maxSeq + 1) % TWO64 <= m.seqNo && m.ballot < 16)
      && (sent.value.kind.PreAcceptOk? ==> sent.value == m.(kind := PreAcceptOk))
      && (sent.value.kind.PreAcceptReply? ==>
            sent.value == m.(kind := PreAcceptReply, seqNo := Max(m.seqNo, (p.maxSeq + 1) % TWO64), deps := p.deps))
  {
    var u := Query(m.command, Some(m.id), ask);
    WalkChanges(rows, u, Probe(0, 0, r.deps));
    UncommittedExact(r.deps);
    hide Absorbs, AllOffers, DepsOk, WalkAll, HasUncommittedDeps;
  }

  // ---------- pruning ----------

  /** How many entries at the low end of the row are executed. */
  function ExecutedPrefix(row: seq<Entry>): (k: nat)
    ensures k <= |row|
    ensures forall i :: 0 <= i < k ==> IsState(row[i].status, EXECUTED)
    ensures k < |row| ==> !IsState(row[k].status, EXECUTED)
  {
    if row == [] || !IsExecuted(row[0]) then 0 else 1 + ExecutedPrefix(row[1..])
  }

  /** All but the last of the executed entries at the low end are dropped. */
  function ClearRow(row: seq<Entry>): seq<Entry> {
    row[Dropped(row)..]
  }

  /** How many entries pruning drops. */
  function Dropped(row: seq<Entry>): (d: nat)
    ensures d <= |row| && (row != [] ==> d < |row|)
  {
    var k := ExecutedPrefix(row);
    if k == 0 then 0 else k - 1
  }

  /** Pruning shifts what it leaves. */
  lemma ClearedAt(row: seq<Entry>)
    ensures |ClearRow(row)| == |row| - Dropped(row)
    ensures forall j :: 0 <= j < |row| - Dropped(row) ==> ClearRow(row)[j] == row[j + Dropped(row)]
    ensures forall i :: Dropped(row) <= i < |row| ==> ClearRow(row)[i - Dropped(row)] == row[i]
  {
    hide Dropped;
  }

  /** The code's two tests on a status are one: nothing ranks above executed. */
  lemma TopState(s: State)
    ensures s < EXECUTED <==> !IsState(s, EXECUTED)
  {
  }

  /** What lies below an executed entry with an executed one under it is out of reach: a walk
      stops at the one, or, if it is to be left out, at the other. */
  lemma {:induction false} WalkStops(row: seq<Entry>, k: nat, u: Query, p: Probe, r: nat)
    requires RowOk(row, r) && k < |row| && forall i :: 0 <= i <= k ==> IsExecuted(row[i])
    ensures WalkRow(row[k..], u, p) == WalkRow(row, u, p)
  {
    hide IsExecuted, Tested, Meet, Covering;
    var n := |row| - 1;
    var e := row[n];
    assert row[k..][..n - k] == row[..n][k..];
    if k == n {
      if Skipped(e, u) && n > 0 {
        assert !Skipped(row[..n][n - 1], u);
        assert WalkRow(row[..n], u, p) == Some(p);
      }
    } else {
      WalkStops(row[..n], k, u, p, r);
      if !Skipped(e, u) && Tested(e.command, u.cmd) == Some(true) {
        TestedKnown(e.command, u.cmd);
        WalkStops(row[..n], k, u, Meet(e, u.ask(e.key), p), r);
      }
    }
  }

  lemma TestedKnown(c: Option<Command>, d: Option<Command>)
    requires Tested(c, d).Some?
    ensures c.Some?
  {
  }

  /** No walk can tell a pruned row from the row it was: what pruning drops was out of reach. */
  lemma PruningUnseen(row: seq<Entry>, u: Query, p: Probe, r: nat)
    requires RowOk(row, r)
    ensures WalkRow(ClearRow(row), u, p) == WalkRow(row, u, p)
  {
    hide WalkRow;
    if ExecutedPrefix(row) > 0 {
      WalkStops(row, Dropped(row), u, p, r);
    } else {
      assert ClearRow(row) == row;
    }
  }

  // ---------- the code ----------

  class SeqDepsProbe {
    var updated: nat
    const deps: array<Dependency>

    constructor ()
      ensures updated == 0 && fresh(deps) && deps.Length == MAX_DEPS && deps[..] == EMPTY_DEPS
    {
      updated := 0;
      deps := new Dependency[MAX_DEPS](_ => NO_DEP);
    }
  }

  /** The instances of one replica, in the order of a tree keyed by instance number. */
  class InstanceIndex {
    var nodes: seq<Instance>

    constructor ()
      ensures nodes == []
    {
      nodes := [];
    }
  }

  function EntryOf(i: Instance): Entry
    reads i
  {
    Entry(i.key, i.status, i.command, i.seqNo)
  }

  ghost function Entries(nodes: seq<Instance>): (row: seq<Entry>)
    reads nodes
    ensures |row| == |nodes| && forall i :: 0 <= i < |nodes| ==> row[i] == EntryOf(nodes[i])
  {
    seq(|nodes|, i requires 0 <= i < |nodes| reads nodes => EntryOf(nodes[i]))
  }

  method AddDepTo(probe: SeqDepsProbe, i: Instance, ghost mseq: nat)
    requires probe.deps.Length == MAX_DEPS
    modifies probe, probe.deps
    ensures Probe(mseq, probe.updated, probe.deps[..])
      == AddDep(Probe(mseq, old(probe.updated), old(probe.deps[..])), EntryOf(i))
  {
    var changed := UpdateInPlace(probe.deps, Dependency(i.key, if IsCommitted(i.status) then 1 else 0));
    probe.updated := probe.updated + if changed then 1 else 0;
  }

  /** The part of the walk's loop body about an interfering instance. */
  method MeetInstance(ti: Instance, a: Answer, mseq: nat, probe: SeqDepsProbe) returns (mseq': nat, covered: bool)
    requires probe.deps.Length == MAX_DEPS && ti.command.Some?
    modifies probe, probe.deps
    ensures Probe(mseq', probe.updated, probe.deps[..])
      == Meet(EntryOf(ti), a, Probe(mseq, old(probe.updated), old(probe.deps[..])))
    ensures covered <==> Covering(EntryOf(ti), a)
  {
    hide UpdateDeps, AddDep;
    mseq', covered := Max(mseq, ti.seqNo), false;
    if ti.command.value.writing {
      covered := a.added && a.covered;
      if a.added {
        AddDepTo(probe, ti, mseq');
      }
    } else if a.outside {
      AddDepTo(probe, ti, mseq');
    }
  }

  /** The walk over one row. The program ends at a missing command; there is no result then. */
  method SeqDepsForCommand(index: InstanceIndex, u: Query, probe: SeqDepsProbe) returns (mseq: Option<nat>)
    requires probe.deps.Length == MAX_DEPS
    modifies probe, probe.deps
    ensures var w := WalkRow(Entries(index.nodes), u, Probe(0, old(probe.updated), old(probe.deps[..])));
      if mseq.None? then w == None else w == Some(Probe(mseq.value, probe.updated, probe.deps[..]))
  {
    hide Tested, IsState, UpdateDeps, AddDep, Meet, Covering;
    var max := 0;
    ghost var row := Entries(index.nodes);
    ghost var all := WalkRow(row, u, Probe(0, probe.updated, probe.deps[..]));
    var k := |index.nodes|;
    assert row[..k] == row;
    while k > 0
      invariant 0 <= k <= |index.nodes| && Entries(index.nodes) == row
      invariant all == WalkRow(row[..k], u, Probe(max, probe.updated, probe.deps[..]))
    {
      var ti := index.nodes[k - 1];
      assert row[..k][..k - 1] == row[..k - 1] && row[..k][k - 1] == EntryOf(ti);
      k := k - 1;
      if Some(ti.key) == u.ignore {
        continue;
      }
      if IsState(ti.status, EXECUTED) {
        break;
      }
      var t := Tested(ti.command, u.cmd);
      if t.None? {
        return None;
      }
      if t.value {
        TestedKnown(ti.command, u.cmd);
        var covered;
        max, covered := MeetInstance(ti, u.ask(ti.key), max, probe);
        if covered {
          break;
        }
      }
    }
    return Some(max);
  }

  /** What is left of the nodes once the first i were found executed. */
  ghost function Left(was: seq<Instance>, i: nat): seq<Instance>
    requires i <= |was|
  {
    if i == 0 then was else was[i - 1..]
  }

  lemma LeftAt(was: seq<Instance>, i: nat)
    requires i <= |was|
    ensures |Left(was, i)| == |was| - i + (if i == 0 then 0 else 1)
    ensures i < |was| ==> Left(was, i)[if i == 0 then 0 else 1] == was[i]
  {
  }

  lemma Cleared(was: seq<Instance>, i: nat)
    requires i <= |was| && forall j :: 0 <= j < i ==> IsExecuted(Entries(was)[j])
    requires i < |was| ==> !IsExecuted(Entries(was)[i])
    ensures Entries(Left(was, i)) == ClearRow(Entries(was))
  {
    hide EntryOf;
    assert ExecutedPrefix(Entries(was)) == i;
  }

  /** Takes the smallest node out of the tree. */
  method DeleteFirst(index: InstanceIndex, ghost was: seq<Instance>, ghost i: nat)
    requires 0 < i < |was| && index.nodes == Left(was, i)
    modifies index
    ensures index.nodes == Left(was, i + 1)
  {
    index.nodes := index.nodes[1..];
  }

  /** Walks up from the smallest instance; each executed one lets go of the one before it. */
  method ClearIndex(index: InstanceIndex)
    modifies index
    ensures Entries(index.nodes) == ClearRow(old(Entries(index.nodes)))
  {
    ghost var was := index.nodes;
    assert Left(was, 0) == was && (was != [] ==> Left(was, 1) == was);
    hide IsState, ExecutedPrefix, ClearRow, IsExecuted, Left, EntryOf;
    var executed: Instance? := null;
    var nxt := 0;
    ghost var i := 0;
    LeftAt(was, 0);
    while nxt < |index.nodes|
      invariant 0 <= i <= |was| && nxt == (if i == 0 then 0 else 1) && (executed == null <==> i == 0)
      invariant index.nodes == Left(was, i) && |index.nodes| - nxt == |was| - i
      invariant forall j :: 0 <= j < i ==> IsExecuted(Entries(was)[j])
      decreases |was| - i
    {
      LeftAt(was, i);
      var c := index.nodes[nxt];
      nxt := nxt + 1;
      StateOf(c);
      if c.status < EXECUTED {
        Cleared(was, i);
        return;
      }
      if executed != null {
        DeleteFirst(index, was, i);
        nxt := nxt - 1;
      }
      executed := c;
      i := i + 1;
      LeftAt(was, i);
    }
    Cleared(was, i);
  }

  lemma StateOf(c: Instance)
    ensures c.status < EXECUTED <==> !IsExecuted(EntryOf(c))
  {
    TopState(c.status);
  }
}
