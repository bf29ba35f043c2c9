/** Which replicas hold an instance without its command, and what their next walk makes of it. */
module MissingCommands {
  import opened CommitRuns
  import opened DepArrays
  import opened Ids
  import opened Indexes
  import opened Instances
  import opened Options
  import opened Protocol

  /** The first thing that happened to the replica's copy. */
  function FirstAt(g: Config, es: seq<CommitRuns.Event>, q: nat): Option<CommitRuns.Event> {
    if es == [] then None
    else
      var f := FirstAt(g, es[..|es| - 1], q);
      if f.Some? then f else if At(g, es[|es| - 1]) == q then Some(es[|es| - 1]) else None
  }

  /** It was a message that brings no command into the instance. */
  predicate Skips(e: CommitRuns.Event) {
    e.Deliver? && (e.m.kind.Accept? || e.m.kind.Commit?)
  }

  /** What an instance holds tells how it began. */
  ghost predicate Told(r: Rec, f: Option<CommitRuns.Event>) {
    && (r.status == NONE <==> f.None?)
    && (r.command.None? <==> f.None? || Skips(f.value))
    && (r.status == PRE_ACCEPTED || r.status == PRE_ACCEPTED_EQ ==> r.command.Some?)
  }

  lemma FirstStep(g: Config, s: Cluster, e: CommitRuns.Event, v: Value)
    requires Inv(g, s, v) && CommitRuns.Enabled(g, s, e) && s.recs[At(g, e)] == NEW_REC.(lt := s.recs[At(g, e)].lt)
    ensures Told(Do(g, s, e).rec, Some(e))
  {
    hide HasUncommittedDeps, MergeDeps;
  }

  lemma LaterStep(g: Config, s: Cluster, e: CommitRuns.Event, v: Value, f: CommitRuns.Event)
    requires Inv(g, s, v) && CommitRuns.Enabled(g, s, e) && Told(s.recs[At(g, e)], Some(f))
    ensures Told(Do(g, s, e).rec, Some(f))
  {
    hide HasUncommittedDeps, MergeDeps;
  }

  /** Until something happens to it, a copy is new. */
  ghost predicate Untouched(g: Config, s: Cluster, q: nat, f: Option<CommitRuns.Event>)
    requires q < |s.recs|
  {
    f.None? ==> s.recs[q] == NEW_REC.(lt := s.recs[q].lt)
  }

  lemma {:induction false} RunTold(g: Config, es: seq<CommitRuns.Event>, ss: seq<Cluster>, i: nat, q: nat)
    returns (v: Value)
    requires Run(g, es, ss) && i <= |es| && q < g.n
    ensures Inv(g, ss[i], v) && Told(ss[i].recs[q], FirstAt(g, es[..i], q))
    ensures Untouched(g, ss[i], q, FirstAt(g, es[..i], q))
  {
    hide Inv, Settles, Do, CommitRuns.Enabled, Told;
    v := RunSingle(g, es, ss, i);
    if i == 0 {
      StartTold(g, q);
    } else {
      var u := RunTold(g, es, ss, i - 1, q);
      var s, e, f := ss[i - 1], es[i - 1], FirstAt(g, es[..i - 1], q);
      assert ss[i - 1 + 1] == CommitRuns.Next(g, s, e);
      assert es[..i][..i - 1] == es[..i - 1];
      if At(g, e) == q {
        if f.Some? {
          LaterStep(g, s, e, u, f.value);
        } else {
          FirstStep(g, s, e, u);
        }
      }
    }
  }

  lemma StartTold(g: Config, q: nat)
    requires g.leader < g.n && q < g.n
    ensures Told(Start(g).recs[q], None) && Start(g).recs[q] == NEW_REC.(lt := Start(g).recs[q].lt)
  {
  }

  /** In every run: a replica that has heard of the instance lacks its command exactly when the
      first message it handled about it was an ACCEPT or a COMMIT. */
  lemma CommandMissing(g: Config, es: seq<CommitRuns.Event>, ss: seq<Cluster>, i: nat, q: nat)
    requires Run(g, es, ss) && i <= |es| && q < g.n
    ensures Shaped(g, ss[i])
    ensures var r, f := ss[i].recs[q], FirstAt(g, es[..i], q);
      r.status != NONE && r.command.None? <==> f.Some? && Skips(f.value)
  {
    var v := RunTold(g, es, ss, i, q);
  }

  /** The walk that comes to such an instance, unexecuted, has no result, whatever it is for:
      the code reads the command that is not there. */
  lemma MissingBreaks(g: Config, es: seq<CommitRuns.Event>, ss: seq<Cluster>, i: nat, q: nat,
    row: seq<Entry>, k: nat, u: Query, p: Probe)
    requires Run(g, es, ss) && i <= |es| && q < g.n
    requires var f := FirstAt(g, es[..i], q); f.Some? && Skips(f.value)
    requires var r := ss[i].recs[q];
      r.status != EXECUTED && k < |row| && row[k] == Entry(g.key, r.status, r.command, r.seqNo)
    requires Some(g.key) != u.ignore && Met(row, k, u)
    ensures WalkRow(row, u, p) == None
  {
    var v := RunTold(g, es, ss, i, q);
    hide HasUncommittedDeps, MergeDeps;
    UsualLive(g, ss[i], q, v);
    assert BreaksAt(row, k, u);
    RowBreaks(row, u, p);
  }

  lemma UsualLive(g: Config, s: Cluster, q: nat, v: Value)
    requires Inv(g, s, v) && q < g.n && s.recs[q].status != EXECUTED
    ensures !IsState(s.recs[q].status, EXECUTED)
  {
  }
}
