/** When a leader commits at once and when it asks for acceptance: what its one-bit memory of the
    answers stands for, over every run. */
module FastPaths {
  import opened Acceptances
  import opened CommitRuns
  import opened Decisions
  import opened DepArrays
  import opened Ids
  import opened Instances
  import opened Options
  import opened Protocol

  // ---------- one answer ----------

  /** Offering ds to the array changes nothing. */
  ghost predicate AbsorbsAll(deps: DepArray, ds: seq<Dependency>) {
    forall k :: 0 <= k < |ds| ==> Absorbs(deps, ds[k])
  }

  /** No filled slot is flagged uncommitted. */
  ghost predicate AllCommitted(deps: DepArray) {
    forall k :: 0 <= k < MAX_DEPS && deps[k].id.instanceId != 0 ==> deps[k].committed != 0
  }

  lemma {:induction false} MergeCount(deps: DepArray, ds: seq<Dependency>)
    requires DepsOk(deps)
    ensures MergeDeps(deps, ds).1 <= |ds|
    ensures MergeDeps(deps, ds).1 == 0 <==> AbsorbsAll(deps, ds)
    ensures MergeDeps(deps, ds).1 == 0 ==> MergeDeps(deps, ds).0 == deps
  {
    hide UpdateDeps, Absorbs, DepsOk;
    if ds != [] {
      var n := |ds| - 1;
      MergeCount(deps, ds[..n]);
      MergeOk(deps, ds[..n]);
      UpdateAnswer(MergeDeps(deps, ds[..n]).0, ds[n]);
      assert ds == ds[..n] + [ds[n]];
    }
  }

  /** What the leader's memory of equal answers becomes. */
  ghost predicate StillEqual(r: Rec, m: Message)
    requires r.lt.Some?
  {
    if m.kind.PreAcceptReply? then (m.seqNo > r.seqNo || r.lt.value.equal == 1) && AbsorbsAll(r.deps, m.deps)
    else r.lt.value.equal == 1
  }

  /** How a leader that waits for answers takes one: it counts it, and at half of the replicas
      it commits if all is equal and committed, and else asks for acceptance. */
  ghost predicate Answered(n: nat, r: Rec, m: Message, out: Out)
    requires r.lt.Some?
  {
    && out.rec.lt.Some? && out.rec.lt.value.preAcceptOks == (r.lt.value.preAcceptOks + 1) % BYTE
    && out.rec.lt.value.equal <= 1 && (out.rec.lt.value.equal == 1 <==> StillEqual(r, m))
    && (out.sent.Some? <==> out.rec.lt.value.preAcceptOks >= n / 2)
    && (out.sent.None? ==> out.rec.status == PRE_ACCEPTED)
    && (out.sent.Some? ==>
          if StillEqual(r, m) && AllCommitted(out.rec.deps)
          then out.sent.value.kind.Commit? && out.rec.status == COMMITTED
          else out.sent.value.kind.Accept? && out.rec.status == ACCEPTED)
  }

  /** What a decision needs and what it brings, at any ballot: later rounds never commit at once. */
  lemma DecideTaken(n: nat, r: Rec, m: Message)
    requires r.lt.Some? && r.lt.value.equal <= 1 && DepsOk(r.deps) && r.status == PRE_ACCEPTED
    ensures var out := Decide(n, r, m);
      && out.rec == r.(status := out.rec.status)
      && (out.sent.Some? <==> r.lt.value.preAcceptOks >= n / 2)
      && (out.sent.None? ==> out.rec == r)
      && (out.sent.Some? ==>
            if r.lt.value.equal == 1 && r.ballot < 16 && AllCommitted(r.deps)
            then out.sent.value.kind.Commit? && out.rec.status == COMMITTED
            else out.sent.value.kind.Accept? && out.rec.status == ACCEPTED)
  {
    UncommittedExact(r.deps);
    hide HasUncommittedDeps, DepsOk;
  }

  lemma AnswerTaken(g: Config, r: Rec, m: Message, p: Probe)
    requires r.status == PRE_ACCEPTED && r.lt.Some? && r.lt.value.equal <= 1 && r.ballot < 16
    requires m.ballot == r.ballot && !m.nack && (m.kind.PreAcceptOk? || m.kind.PreAcceptReply?)
    requires DepsOk(r.deps) && DepsOk(m.deps)
    ensures Answered(g.n, r, m, Handle(g, r, m, p))
  {
    hide MergeDeps, DepsOk, AbsorbsAll, AllCommitted, Decide;
    var oks := IncByte(r.lt.value.preAcceptOks);
    if m.kind.PreAcceptOk? {
      DecideTaken(g.n, r.(lt := Some(r.lt.value.(preAcceptOks := oks))), m);
    } else {
      MergeCount(r.deps, m.deps);
      MergeOk(r.deps, m.deps);
      var (deps, k) := MergeDeps(r.deps, m.deps);
      var equal := if m.seqNo > r.seqNo then 1 else r.lt.value.equal;
      EqualBit(equal, k);
      var t := r.lt.value.(preAcceptOks := oks, equal := if (equal - k) % BYTE == 1 then 1 else 0);
      DecideTaken(g.n, r.(seqNo := Max(r.seqNo, m.seqNo), deps := deps, lt := Some(t)), m);
    }
  }

  lemma EqualBit(equal: nat, k: nat)
    requires equal <= 1 && k <= MAX_DEPS
    ensures (equal - k) % BYTE == 1 <==> equal == 1 && k == 0
  {
  }

  // ---------- over a run ----------

  /** The leader counts this answer. */
  predicate TakesAnswer(g: Config, s: Cluster, e: Event) {
    && Shaped(g, s) && e.Deliver? && e.to == g.leader && s.recs[g.leader].status == PRE_ACCEPTED
    && (e.m.kind.PreAcceptOk? || e.m.kind.PreAcceptReply?)
  }

  /** How many answers the leader counted in the first i events. */
  function Answers(g: Config, es: seq<Event>, ss: seq<Cluster>, i: nat): nat
    requires i <= |es| && i <= |ss|
  {
    if i == 0 then 0 else Answers(g, es, ss, i - 1) + if TakesAnswer(g, ss[i - 1], es[i - 1]) then 1 else 0
  }

  /** The event begins a time of equal answers: the leader's own walk recorded nothing, or a
      reply raises its number. */
  ghost predicate Begins(g: Config, s: Cluster, e: Event) {
    || (e.Propose? && e.p.updated == 0)
    || (TakesAnswer(g, s, e) && e.m.kind.PreAcceptReply? && e.m.seqNo > s.recs[g.leader].seqNo)
  }

  /** The event ends it: a reply names what the leader does not have. */
  ghost predicate Ends(g: Config, s: Cluster, e: Event) {
    TakesAnswer(g, s, e) && e.m.kind.PreAcceptReply? && !AbsorbsAll(s.recs[g.leader].deps, e.m.deps)
  }

  /** After i events the answers are equal: such a time began with event t, and no reply since,
      nor that of t itself, changed the leader's dependencies. */
  ghost predicate EqualSince(g: Config, es: seq<Event>, ss: seq<Cluster>, i: nat, t: nat)
    requires i <= |es| && i <= |ss|
  {
    t < i && Begins(g, ss[t], es[t]) && forall u :: t <= u < i ==> !Ends(g, ss[u], es[u])
  }

  ghost predicate AllEqual(g: Config, es: seq<Event>, ss: seq<Cluster>, i: nat)
    requires i <= |es| && i <= |ss|
  {
    exists t: nat :: EqualSince(g, es, ss, i, t)
  }

  lemma EqualNext(g: Config, es: seq<Event>, ss: seq<Cluster>, i: nat)
    requires i < |es| && i < |ss|
    ensures AllEqual(g, es, ss, i + 1) <==>
      (AllEqual(g, es, ss, i) || Begins(g, ss[i], es[i])) && !Ends(g, ss[i], es[i])
  {
    hide Begins, Ends;
    var next := i + 1;
    if t: nat :| EqualSince(g, es, ss, next, t) {
      assert t < i ==> EqualSince(g, es, ss, i, t);
    }
    if !Ends(g, ss[i], es[i]) {
      if Begins(g, ss[i], es[i]) {
        assert EqualSince(g, es, ss, next, i);
      }
      if t: nat :| EqualSince(g, es, ss, i, t) {
        assert EqualSince(g, es, ss, next, t);
      }
    }
  }

  /** What the leader remembers while it waits for answers. */
  ghost predicate Remembers(g: Config, s: Cluster, answers: nat, equal: bool)
    requires Shaped(g, s)
  {
    var r := s.recs[g.leader];
    && (r.status == NONE ==> answers == 0 && !equal && r.lt.value.preAcceptOks == 0)
    && (r.status == PRE_ACCEPTED ==>
          && r.lt.value.preAcceptOks == answers % BYTE
          && r.lt.value.equal <= 1 && (r.lt.value.equal == 1 <==> equal)
          && (2 <= g.n && g.n / 2 < BYTE ==> answers < g.n / 2))
  }

  /** The leader is told nothing but answers until it decides. */
  lemma EarlyEvents(g: Config, s: Cluster, e: Event, v: Value)
    requires Inv(g, s, v) && Enabled(g, s, e) && Early(g, s)
    ensures e.Deliver? && e.to == g.leader ==>
      TakesAnswer(g, s, e) && !e.m.nack && e.m.ballot == s.recs[g.leader].ballot < 16
    ensures e.Execute? ==> e.at != g.leader
    ensures e.Propose? ==> s.recs[g.leader].status == NONE
  {
  }

  lemma RemembersStep(g: Config, s: Cluster, e: Event, v: Value, answers: nat, equal: bool)
    requires Inv(g, s, v) && DepsSound(g, s) && Enabled(g, s, e) && Remembers(g, s, answers, equal)
    ensures Shaped(g, Next(g, s, e))
    ensures Remembers(g, Next(g, s, e), answers + (if TakesAnswer(g, s, e) then 1 else 0),
      (equal || Begins(g, s, e)) && !Ends(g, s, e))
  {
    StepKeeps(g, s, e, v);
    LeaderCount(g, s, e, v);
    if Early(g, s) {
      EarlyEvents(g, s, e, v);
      if e.Deliver? && e.to == g.leader {
        AnswerTaken(g, s.recs[g.leader], e.m, e.p);
        hide Handle, AbsorbsAll, AllCommitted, DepsOk, Inv;
      } else {
        hide Handle, Inv, AbsorbsAll, DepsOk;
      }
    } else {
      hide Handle, Inv, Do, Enabled, Next;
    }
  }

  lemma {:induction false} RunRemembers(g: Config, es: seq<Event>, ss: seq<Cluster>, i: nat) returns (v: Value)
    requires Run(g, es, ss) && ProbesOk(es) && i <= |es|
    ensures Inv(g, ss[i], v) && DepsSound(g, ss[i])
    ensures Remembers(g, ss[i], Answers(g, es, ss, i), AllEqual(g, es, ss, i))
  {
    hide Inv, Settles, Do, Next, Enabled, DepsSound, Remembers, TakesAnswer, Begins, Ends, AllEqual, DepsOk;
    v := RunSound(g, es, ss, i);
    if i == 0 {
      StartRemembers(g, es, ss);
    } else {
      var u := RunRemembers(g, es, ss, i - 1);
      assert ss[i - 1 + 1] == Next(g, ss[i - 1], es[i - 1]);
      EqualNext(g, es, ss, i - 1);
      RemembersStep(g, ss[i - 1], es[i - 1], u, Answers(g, es, ss, i - 1), AllEqual(g, es, ss, i - 1));
    }
  }

  lemma StartRemembers(g: Config, es: seq<Event>, ss: seq<Cluster>)
    requires Run(g, es, ss)
    ensures Shaped(g, ss[0]) && Remembers(g, ss[0], Answers(g, es, ss, 0), AllEqual(g, es, ss, 0))
  {
  }

  lemma DecideStep(g: Config, s: Cluster, e: Event, v: Value, answers: nat, equal: bool)
    requires Inv(g, s, v) && DepsSound(g, s) && Enabled(g, s, e) && Remembers(g, s, answers, equal)
    ensures Decides(g, s, e) <==> TakesAnswer(g, s, e) && (answers + 1) % BYTE >= g.n / 2
    ensures TakesAnswer(g, s, e) && 2 <= g.n && g.n / 2 < BYTE ==>
      ((answers + 1) % BYTE >= g.n / 2 <==> answers + 1 == g.n / 2)
  {
    if e.Deliver? && e.to == g.leader && Early(g, s) {
      EarlyEvents(g, s, e, v);
      AnswerTaken(g, s.recs[g.leader], e.m, e.p);
    }
    hide Handle, AbsorbsAll, AllCommitted, DepsOk, Inv;
  }

  /** When the leader decides: with the answer that brings the count to half of the replicas. */
  lemma DecidesExactly(g: Config, es: seq<Event>, ss: seq<Cluster>, i: nat)
    requires Run(g, es, ss) && ProbesOk(es) && i < |es|
    ensures Shaped(g, ss[i]) && Enabled(g, ss[i], es[i])
    ensures Decides(g, ss[i], es[i]) <==>
      TakesAnswer(g, ss[i], es[i]) && Answers(g, es, ss, i + 1) % BYTE >= g.n / 2
    ensures 2 <= g.n && g.n / 2 < BYTE ==>
      (Decides(g, ss[i], es[i]) <==> TakesAnswer(g, ss[i], es[i]) && Answers(g, es, ss, i + 1) == g.n / 2)
  {
    hide Decides, Remembers, Inv, TakesAnswer, DepsSound, AllEqual, ProbesOk, Enabled, Shaped, Next;
    var v := RunRemembers(g, es, ss, i);
    DecideStep(g, ss[i], es[i], v, Answers(g, es, ss, i), AllEqual(g, es, ss, i));
  }

  /** When the leader commits at once: exactly if all answers since the last time of equal
      answers began changed nothing, and no dependency it has then is flagged uncommitted. */
  lemma FastPathExact(g: Config, es: seq<Event>, ss: seq<Cluster>, i: nat)
    requires Run(g, es, ss) && ProbesOk(es) && i < |es| && Decides(g, ss[i], es[i])
    ensures Shaped(g, ss[i + 1])
    ensures var sent, r := Do(g, ss[i], es[i]).sent.value, ss[i + 1].recs[g.leader];
      && (sent.kind.Commit? || sent.kind.Accept?)
      && (sent.kind.Commit? <==>
            && AllEqual(g, es, ss, i + 1)
            && forall k :: 0 <= k < MAX_DEPS && r.deps[k].id.instanceId != 0 ==> r.deps[k].committed != 0)
      && r.status == if sent.kind.Commit? then COMMITTED else ACCEPTED
  {
    var v := RunRemembers(g, es, ss, i);
    var s, e := ss[i], es[i];
    assert ss[i + 1] == Next(g, s, e);
    EarlyEvents(g, s, e, v);
    AnswerTaken(g, s.recs[g.leader], e.m, e.p);
    EqualNext(g, es, ss, i);
    StepKeeps(g, s, e, v);
    hide Handle, AbsorbsAll, DepsOk, Inv, AllEqual;
  }
}
