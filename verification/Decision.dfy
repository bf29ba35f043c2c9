/** Where a run without recovery decides, and how the copy that the leader keeps then compares
    with what everybody else settles. */
module Decisions {
  import opened CommitRuns
  import opened DepArrays
  import opened DepMerges
  import opened Ids
  import opened Instances
  import opened Protocol

  /** The event makes the leader settle a value. */
  predicate Decides(g: Config, s: Cluster, e: Event)
    requires Shaped(g, s) && Enabled(g, s, e)
  {
    e.Deliver? && e.to == g.leader && Early(g, s) && Do(g, s, e).sent.Some?
  }

  // ---------- sequence numbers ----------

  /** Until it decides, the leader's number is at least that of the question it asked. */
  ghost predicate LeaderAhead(g: Config, s: Cluster)
    requires Shaped(g, s)
  {
    s.recs[g.leader].status == PRE_ACCEPTED ==>
      forall m :: m in s.sent && (m.kind.PreAccept? || m.kind.PreAcceptOk?) ==> m.seqNo <= s.recs[g.leader].seqNo
  }

  lemma LeaderOnly(g: Config, r: Rec, m: Message, p: Probe)
    requires (ToLeader(m.kind) || m.kind.Commit?) && !m.nack && r.lt.Some?
    ensures var out := Handle(g, r, m, p);
      && (out.rec.status == PRE_ACCEPTED ==> r.status == PRE_ACCEPTED && out.rec.seqNo >= r.seqNo)
      && (out.sent.Some? ==> Settling(out.sent.value.kind))
  {
    hide HasUncommittedDeps, MergeDeps;
  }

  lemma AheadStep(g: Config, s: Cluster, e: Event, v: Value)
    requires Inv(g, s, v) && LeaderAhead(g, s) && Enabled(g, s, e)
    ensures Shaped(g, Next(g, s, e)) && LeaderAhead(g, Next(g, s, e))
  {
    StepKeeps(g, s, e, v);
    match e
    case Propose(m, p) =>
    case Deliver(to, m, p) =>
      hide Handle, Single, RecordsOk;
      if to == g.leader {
        LeaderOnly(g, s.recs[to], m, p);
      } else {
        OtherBallot(g, s, to, v);
        OtherSeq(g, s.recs[to], m, p);
      }
    case Execute(at) =>
  }

  lemma {:induction false} RunAhead(g: Config, es: seq<Event>, ss: seq<Cluster>, i: nat) returns (v: Value)
    requires Run(g, es, ss) && i <= |es|
    ensures Inv(g, ss[i], v) && LeaderAhead(g, ss[i])
  {
    hide Inv, Settles, Do, Next, Enabled, LeaderAhead;
    if i == 0 {
      v := (0, EMPTY_DEPS);
      StartInv(g, v);
      StartAhead(g);
    } else {
      v := RunAhead(g, es, ss, i - 1);
      assert ss[i - 1 + 1] == Next(g, ss[i - 1], es[i - 1]);
      StepKeeps(g, ss[i - 1], es[i - 1], v);
      AheadStep(g, ss[i - 1], es[i - 1], v);
      v := Settles(g, ss[i - 1], es[i - 1], v);
    }
  }

  lemma StartAhead(g: Config)
    requires g.leader < g.n
    ensures Shaped(g, Start(g)) && LeaderAhead(g, Start(g))
  {
  }

  /** For any number of replicas: when the leader decides, its own number is the settled one
      exactly when the deciding answer's number is at least its own. */
  lemma DecisionSeq(g: Config, es: seq<Event>, ss: seq<Cluster>, i: nat)
    requires Run(g, es, ss) && i < |es| && Decides(g, ss[i], es[i])
    ensures Shaped(g, ss[i + 1])
    ensures var sent := Do(g, ss[i], es[i]).sent.value;
      && Settling(sent.kind) && ValueOf(sent) == ValueOf(es[i].m)
      && (ss[i + 1].recs[g.leader].seqNo == sent.seqNo <==> es[i].m.seqNo >= ss[i].recs[g.leader].seqNo)
  {
    var v := RunAhead(g, es, ss, i);
    StepKeeps(g, ss[i], es[i], v);
    DecidingStep(g, ss[i], es[i], v);
    hide Handle;
    LeaderStep(g, ss[i].recs[g.leader], es[i].m, es[i].p);
  }

  /** The leader decides on an answer, in the state PRE_ACCEPTED. */
  lemma DecidingStep(g: Config, s: Cluster, e: Event, v: Value)
    requires Inv(g, s, v) && LeaderAhead(g, s) && Enabled(g, s, e) && Decides(g, s, e)
    ensures s.recs[g.leader].status == PRE_ACCEPTED && (e.m.kind.PreAcceptOk? || e.m.kind.PreAcceptReply?)
    ensures Do(g, s, e).rec.seqNo == e.m.seqNo <==> e.m.seqNo >= s.recs[g.leader].seqNo
  {
    hide HasUncommittedDeps, MergeDeps;
  }

  // ---------- dependencies ----------

  /** What the walks of the run report is ordered, as every walk's report is. */
  ghost predicate ProbesOk(es: seq<Event>) {
    forall i :: 0 <= i < |es| && !es[i].Execute? ==> DepsOk(es[i].p.deps)
  }

  ghost predicate DepsSound(g: Config, s: Cluster)
    requires Shaped(g, s)
  {
    (forall q :: 0 <= q < g.n ==> DepsOk(s.recs[q].deps)) && forall m :: m in s.sent ==> DepsOk(m.deps)
  }

  lemma {:induction false} MergeOk(deps: DepArray, ds: seq<Dependency>)
    requires DepsOk(deps)
    ensures DepsOk(MergeDeps(deps, ds).0)
  {
    hide UpdateDeps, DepsOk;
    if ds != [] {
      MergeOk(deps, ds[..|ds| - 1]);
      UpdateKeeps(MergeDeps(deps, ds[..|ds| - 1]).0, ds[|ds| - 1]);
    }
  }

  lemma HandleSound(g: Config, r: Rec, m: Message, p: Probe)
    requires DepsOk(r.deps) && DepsOk(m.deps) && DepsOk(p.deps) && (ToLeader(m.kind) ==> r.lt.Some?)
    ensures var out := Handle(g, r, m, p); DepsOk(out.rec.deps) && (out.sent.Some? ==> DepsOk(out.sent.value.deps))
  {
    MergeOk(r.deps, m.deps);
    hide HasUncommittedDeps, MergeDeps, DepsOk, IsState, IsInitialBallot, OnPreAccept, OnPreAcceptReply, OnPreAcceptOk;
    match m.kind
    case PreAccept => PreAcceptSound(r, m, p);
    case PreAcceptOk => OkSound(g, r, m);
    case PreAcceptReply => ReplySound(g, r, m);
    case _ =>
  }

  lemma PreAcceptSound(r: Rec, m: Message, p: Probe)
    requires DepsOk(r.deps) && DepsOk(m.deps) && DepsOk(p.deps)
    ensures var out := OnPreAccept(r, m, p); DepsOk(out.rec.deps) && (out.sent.Some? ==> DepsOk(out.sent.value.deps))
  {
    hide HasUncommittedDeps, DepsOk, IsState, IsInitialBallot;
  }

  lemma OkSound(g: Config, r: Rec, m: Message)
    requires DepsOk(r.deps) && DepsOk(m.deps) && r.lt.Some?
    ensures var out := OnPreAcceptOk(g.n, r, m);
      DepsOk(out.rec.deps) && (out.sent.Some? ==> DepsOk(out.sent.value.deps))
  {
    hide HasUncommittedDeps, DepsOk, IsState, IsInitialBallot;
  }

  lemma ReplySound(g: Config, r: Rec, m: Message)
    requires DepsOk(r.deps) && DepsOk(m.deps) && DepsOk(MergeDeps(r.deps, m.deps).0) && r.lt.Some?
    ensures var out := OnPreAcceptReply(g.n, r, m);
      DepsOk(out.rec.deps) && (out.sent.Some? ==> DepsOk(out.sent.value.deps))
  {
    hide HasUncommittedDeps, MergeDeps, DepsOk, IsState, IsInitialBallot;
  }

  lemma SoundStep(g: Config, s: Cluster, e: Event, v: Value)
    requires Inv(g, s, v) && DepsSound(g, s) && Enabled(g, s, e) && (e.Execute? || DepsOk(e.p.deps))
    ensures Shaped(g, Next(g, s, e)) && DepsSound(g, Next(g, s, e))
  {
    StepKeeps(g, s, e, v);
    hide Handle, DepsOk, Inv;
    match e
    case Propose(m, p) =>
    case Deliver(to, m, p) =>
      HandleSound(g, s.recs[to], m, p);
    case Execute(at) =>
  }

  lemma {:induction false} RunSound(g: Config, es: seq<Event>, ss: seq<Cluster>, i: nat) returns (v: Value)
    requires Run(g, es, ss) && ProbesOk(es) && i <= |es|
    ensures Inv(g, ss[i], v) && DepsSound(g, ss[i])
  {
    hide Inv, Settles, Do, Next, Enabled, DepsOk;
    if i == 0 {
      v := (0, EMPTY_DEPS);
      StartInv(g, v);
      EmptyOk();
    } else {
      v := RunSound(g, es, ss, i - 1);
      assert ss[i - 1 + 1] == Next(g, ss[i - 1], es[i - 1]);
      StepKeeps(g, ss[i - 1], es[i - 1], v);
      SoundStep(g, ss[i - 1], es[i - 1], v);
      v := Settles(g, ss[i - 1], es[i - 1], v);
    }
  }

  lemma EmptyOk()
    ensures DepsOk(EMPTY_DEPS)
  {
  }

  /** When the leader decides, its own dependencies are the settled ones exactly when, after a
      PRE_ACCEPT_OK, they were those of the message already, and after a reply, every entry it
      had is pushed out or has its place in the reply. */
  lemma DecisionDeps(g: Config, es: seq<Event>, ss: seq<Cluster>, i: nat)
    requires Run(g, es, ss) && ProbesOk(es) && i < |es| && Decides(g, ss[i], es[i])
    ensures Shaped(g, ss[i + 1])
    ensures var r, m := ss[i].recs[g.leader], es[i].m;
      ss[i + 1].recs[g.leader].deps == Do(g, ss[i], es[i]).sent.value.deps <==>
        if m.kind.PreAcceptOk? then m.deps == r.deps else Yields(Filled(r.deps), Filled(m.deps))
  {
    var v := RunSound(g, es, ss, i);
    var r, m := ss[i].recs[g.leader], es[i].m;
    v := RunAhead(g, es, ss, i);
    StepKeeps(g, ss[i], es[i], v);
    DecidingStep(g, ss[i], es[i], v);
    DecidingBallot(g, ss[i], es[i], v);
    hide OnPreAcceptReply, OnPreAcceptOk, Inv, Yields, DepsOk;
    if m.kind.PreAcceptOk? {
      DecidingOkSeq(g.n, r, m);
    } else {
      DecidingDeps(g.n, r, m);
    }
  }

  lemma DecidingBallot(g: Config, s: Cluster, e: Event, v: Value)
    requires Inv(g, s, v) && Enabled(g, s, e) && Decides(g, s, e)
    ensures !e.m.nack && e.m.ballot == s.recs[g.leader].ballot && s.recs[g.leader].lt.Some?
  {
  }

  // ---------- the proposal ----------

  /** Every question and every plain agreement carries w. */
  ghost predicate Proposed(s: Cluster, w: Value) {
    forall m :: m in s.sent && (m.kind.PreAccept? || m.kind.PreAcceptOk?) ==> ValueOf(m) == w
  }

  lemma ProposedStep(g: Config, s: Cluster, e: Event, v: Value, w: Value)
    requires Inv(g, s, v) && Proposed(s, w) && Enabled(g, s, e)
    ensures e.Propose? ==> Do(g, s, e).sent.Some? && Proposed(Next(g, s, e), ValueOf(Do(g, s, e).sent.value))
    ensures !e.Propose? ==> Proposed(Next(g, s, e), w)
  {
    if e.Deliver? {
      hide HasUncommittedDeps, MergeDeps;
      OtherBallot(g, s, e.to, v);
      if e.to == g.leader {
        LeaderOnly(g, s.recs[e.to], e.m, e.p);
      } else {
        OkSame(g, s.recs[e.to], e.m, e.p);
      }
      hide Handle;
    }
  }

  lemma OkSame(g: Config, r: Rec, m: Message, p: Probe)
    requires ToOthers(m.kind) || m.kind.Commit?
    ensures var out := Handle(g, r, m, p);
      && (out.sent.Some? ==> !out.sent.value.kind.PreAccept?)
      && (out.sent.Some? && out.sent.value.kind.PreAcceptOk? ==>
            m.kind.PreAccept? && ValueOf(out.sent.value) == ValueOf(m))
  {
    hide HasUncommittedDeps;
  }

  lemma {:induction false} RunProposed(g: Config, es: seq<Event>, ss: seq<Cluster>, i: nat) returns (w: Value)
    requires Run(g, es, ss) && i <= |es|
    ensures Proposed(ss[i], w)
  {
    hide Inv, Do, Next, Enabled;
    if i == 0 {
      w := (0, EMPTY_DEPS);
    } else {
      w := RunProposed(g, es, ss, i - 1);
      var v := RunSingle(g, es, ss, i - 1);
      assert ss[i - 1 + 1] == Next(g, ss[i - 1], es[i - 1]);
      ProposedStep(g, ss[i - 1], es[i - 1], v, w);
      if es[i - 1].Propose? {
        w := ValueOf(Do(g, ss[i - 1], es[i - 1]).sent.value);
      }
    }
  }

  // ---------- the walk behind a settled value ----------

  /** The event lets a replica walk its index: the leader proposes, or another replica takes the
      PRE_ACCEPT. */
  predicate Walks(s: Cluster, e: Event) {
    || e.Propose?
    || (e.Deliver? && e.m.kind.PreAccept? && e.to < |s.recs| && TakesPreAccept(s.recs[e.to], e.m))
  }

  /** What comes of the walk's report: its dependencies, and the number above all it met, or
      the question's if that is larger. */
  function Report(e: Event): Value
    requires !e.Execute?
  {
    var s := (e.p.maxSeq + 1) % TWO64;
    (if e.Propose? then s else Max(e.m.seqNo, s), e.p.deps)
  }

  /** Event number j is a walk of replica q, and w comes of it. */
  ghost predicate WalkedBy(g: Config, es: seq<Event>, ss: seq<Cluster>, j: nat, q: nat, w: Value) {
    j < |es| && j < |ss| && At(g, es[j]) == q && Walks(ss[j], es[j]) && Report(es[j]) == w
  }

  /** Whose walk the message reports: the replying replica's, else the leader's. */
  function Walker(g: Config, m: Message): nat {
    if m.kind.PreAcceptReply? then m.from else g.leader
  }

  predicate Preliminary(k: Kind) {
    k.PreAccept? || k.PreAcceptOk? || k.PreAcceptReply?
  }

  /** Before the decision every message carries the report of one walk. */
  ghost predicate Traced(g: Config, es: seq<Event>, ss: seq<Cluster>, i: nat)
    requires i < |ss|
  {
    forall m :: m in ss[i].sent && Preliminary(m.kind) ==>
      exists j :: 0 <= j < i && WalkedBy(g, es, ss, j, Walker(g, m), ValueOf(m))
  }

  /** A reply is the report of the walk that the replica just made. */
  lemma ReplyWalked(g: Config, r: Rec, m: Message, p: Probe)
    requires (ToOthers(m.kind) || m.kind.Commit?) && r.ballot <= m.ballot
    ensures var out := Handle(g, r, m, p);
      out.sent.Some? && out.sent.value.kind.PreAcceptReply? ==>
        && m.kind.PreAccept? && TakesPreAccept(r, m)
        && ValueOf(out.sent.value) == (Max(m.seqNo, (p.maxSeq + 1) % TWO64), p.deps)
  {
    hide HasUncommittedDeps;
  }

  /** What an event sends is the report of its own walk, or of one known before. */
  lemma SentTraced(g: Config, s: Cluster, e: Event, v: Value)
    requires Inv(g, s, v) && Enabled(g, s, e) && Do(g, s, e).sent.Some?
    ensures var m := Do(g, s, e).sent.value.(from := At(g, e));
      Preliminary(m.kind) ==>
        || (Walks(s, e) && At(g, e) == Walker(g, m) && Report(e) == ValueOf(m))
        || (e.Deliver? && e.m in s.sent && e.m.kind.PreAccept? && m.kind.PreAcceptOk? && ValueOf(m) == ValueOf(e.m))
  {
    if e.Deliver? {
      hide HasUncommittedDeps, MergeDeps;
      OtherBallot(g, s, e.to, v);
      if e.to == g.leader {
        LeaderOnly(g, s.recs[e.to], e.m, e.p);
      } else {
        OkSame(g, s.recs[e.to], e.m, e.p);
        ReplyWalked(g, s.recs[e.to], e.m, e.p);
        OtherStep(g, s.recs[e.to], e.m, e.p);
      }
      hide Handle;
    }
  }

  lemma {:induction false} RunTraced(g: Config, es: seq<Event>, ss: seq<Cluster>, i: nat)
    requires Run(g, es, ss) && i <= |es|
    ensures Traced(g, es, ss, i)
  {
    hide Inv, Do, Enabled, WalkedBy, Preliminary;
    if i > 0 {
      RunTraced(g, es, ss, i - 1);
      var v := RunSingle(g, es, ss, i - 1);
      var s, e := ss[i - 1], es[i - 1];
      assert ss[i - 1 + 1] == Next(g, s, e);
      if Do(g, s, e).sent.Some? {
        SentTraced(g, s, e, v);
        var m := Do(g, s, e).sent.value.(from := At(g, e));
        if Preliminary(m.kind) {
          NewTraced(g, es, ss, i - 1, m);
        }
      }
    }
  }

  lemma NewTraced(g: Config, es: seq<Event>, ss: seq<Cluster>, i: nat, m: Message)
    requires i < |es| && i < |ss| && Traced(g, es, ss, i) && Preliminary(m.kind)
    requires
      || (Walks(ss[i], es[i]) && At(g, es[i]) == Walker(g, m) && Report(es[i]) == ValueOf(m))
      || (es[i].Deliver? && es[i].m in ss[i].sent && es[i].m.kind.PreAccept? && m.kind.PreAcceptOk? &&
          ValueOf(m) == ValueOf(es[i].m))
    ensures exists j :: 0 <= j < i + 1 && WalkedBy(g, es, ss, j, Walker(g, m), ValueOf(m))
  {
    hide Preliminary, Report;
    if Walks(ss[i], es[i]) && At(g, es[i]) == Walker(g, m) && Report(es[i]) == ValueOf(m) {
      assert WalkedBy(g, es, ss, i, Walker(g, m), ValueOf(m));
    } else {
      var ask := es[i].m;
      assert ask.kind.PreAccept?;
      assert Preliminary(ask.kind) by { AskPreliminary(ask); }
      var j :| 0 <= j < i && WalkedBy(g, es, ss, j, Walker(g, ask), ValueOf(ask));
      assert Walker(g, ask) == Walker(g, m) && ValueOf(ask) == ValueOf(m);
    }
  }

  lemma AskPreliminary(m: Message)
    requires m.kind.PreAccept?
    ensures Preliminary(m.kind)
  {
  }

  /** In every run what is settled is the report of one walk: of the leader's, made to propose,
      if a PRE_ACCEPT_OK decides, and else of the one that the deciding replica made when it
      took the PRE_ACCEPT. In the first case it is the very value proposed; in the second, a
      proposed dependency is lost exactly when that walk did not record it. */
  lemma ProposalSettled(g: Config, es: seq<Event>, ss: seq<Cluster>, i: nat, ask: Message) returns (j: nat)
    requires Run(g, es, ss) && i < |es| && Decides(g, ss[i], es[i])
    requires ask in ss[i].sent && ask.kind.PreAccept?
    ensures var sent, ok := Do(g, ss[i], es[i]).sent.value, es[i].m.kind.PreAcceptOk?;
      && j < i && WalkedBy(g, es, ss, j, Walker(g, es[i].m), ValueOf(sent))
      && (ok ==> ValueOf(sent) == ValueOf(ask))
      && forall id :: Holds(ask.deps, id) ==> (Holds(sent.deps, id) <==> ok || Holds(es[j].p.deps, id))
  {
    var w := RunProposed(g, es, ss, i);
    var v := RunAhead(g, es, ss, i);
    DecidingStep(g, ss[i], es[i], v);
    hide Holds;
    DecisionSeq(g, es, ss, i);
    RunTraced(g, es, ss, i);
    var m := es[i].m;
    j :| 0 <= j < i && WalkedBy(g, es, ss, j, Walker(g, m), ValueOf(m));
  }

  // ---------- the decision behind a settled value ----------

  /** The leader leaves the early states only by deciding. */
  lemma LeavesEarly(g: Config, s: Cluster, e: Event, v: Value)
    requires Inv(g, s, v) && Enabled(g, s, e) && Early(g, s) && Shaped(g, Next(g, s, e)) && !Early(g, Next(g, s, e))
    ensures Decides(g, s, e)
  {
    if e.Deliver? && e.to == g.leader {
      hide Handle;
      LeaderStep(g, s.recs[g.leader], e.m, e.p);
    }
  }

  lemma {:induction false} FirstLate(g: Config, es: seq<Event>, ss: seq<Cluster>, i: nat) returns (k: nat)
    requires Run(g, es, ss) && i <= |es| && Shaped(g, ss[i]) && !Early(g, ss[i])
    ensures k < i && Decides(g, ss[k], es[k])
  {
    hide Decides, Next, Enabled;
    assert i > 0;
    var v := RunSingle(g, es, ss, i - 1);
    assert ss[i - 1 + 1] == Next(g, ss[i - 1], es[i - 1]);
    if Early(g, ss[i - 1]) {
      k := i - 1;
      LeavesEarly(g, ss[k], es[k], v);
    } else {
      k := FirstLate(g, es, ss, i - 1);
    }
  }

  /** Whatever is settled was settled by a decision, and is the report of the walk behind it:
      walk number j of the run, decision number k. */
  lemma SettledWalk(g: Config, es: seq<Event>, ss: seq<Cluster>, i: nat, m: Message) returns (j: nat, k: nat)
    requires Run(g, es, ss) && i <= |es| && m in ss[i].sent && Settling(m.kind)
    ensures j < k < i && Decides(g, ss[k], es[k])
    ensures WalkedBy(g, es, ss, j, Walker(g, es[k].m), ValueOf(m))
  {
    hide WalkedBy, Next, Do;
    var v := RunSingle(g, es, ss, i);
    k := FirstLate(g, es, ss, i);
    DecisionSent(g, es, ss, k);
    SentGrows(g, es, ss, k + 1, i);
    RunTraced(g, es, ss, k);
    var u := RunAhead(g, es, ss, k);
    DecidingStep(g, ss[k], es[k], u);
    j :| 0 <= j < k && WalkedBy(g, es, ss, j, Walker(g, es[k].m), ValueOf(es[k].m));
  }

  lemma DecisionSent(g: Config, es: seq<Event>, ss: seq<Cluster>, k: nat)
    requires Run(g, es, ss) && k < |es| && Decides(g, ss[k], es[k])
    ensures exists m :: m in ss[k + 1].sent && Settling(m.kind) && ValueOf(m) == ValueOf(es[k].m)
  {
    DecisionSeq(g, es, ss, k);
    assert ss[k + 1] == Next(g, ss[k], es[k]);
    hide Do;
    var m := Do(g, ss[k], es[k]).sent.value.(from := At(g, es[k]));
    assert m in ss[k + 1].sent;
  }
}
