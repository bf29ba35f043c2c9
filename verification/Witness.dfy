/** Runs that reach the states in which the code does not do what its design says. */
module Witnesses {
  import opened Commands
  import opened CommitRuns
  import opened DepArrays
  import opened Ids
  import opened Instances
  import opened Options
  import opened Protocol
  import opened Pairs
  import Acceptances
  import Indexes

  /** A command and the instance it is proposed in. */
  datatype Work = Work(key: InstanceId, cmd: Command)

  /** A replica whose index holds nothing. */
  const NOTHING := Probe(0, 0, EMPTY_DEPS)

  function Single(d: Dependency): DepArray {
    [d, NO_DEP, NO_DEP, NO_DEP, NO_DEP, NO_DEP, NO_DEP, NO_DEP]
  }

  const ONE: DepArray := Single(Dependency(InstanceId(1, 7), 1))

  function Asked(x: Work): Message {
    Message(PreAccept, 0, false, x.key, Some(x.cmd), 0, EMPTY_DEPS, 0, NONE, x.key, NONE)
  }

  /** What the leader sends: the command with the value it settled on. */
  function Sent(x: Work, kind: Kind, seqNo: nat, deps: DepArray, from: nat): Message {
    Asked(x).(kind := kind, seqNo := seqNo, deps := deps, from := from)
  }

  function Leading(status: State, x: Work, seqNo: nat, deps: DepArray, t: Tracker): Rec {
    Rec(0, status, Some(x.cmd), seqNo, deps, Some(t))
  }

  function Following(status: State, x: Work, seqNo: nat, deps: DepArray): Rec {
    Rec(0, status, Some(x.cmd), seqNo, deps, None)
  }

  // ---------- building runs ----------

  /** The run begins with the leader's proposal. */
  lemma Open(g: Config, x: Work, p: Probe) returns (es: seq<Event>, ss: seq<Cluster>)
    requires g.leader == 0 < g.n && g.key == x.key
    ensures Run(g, es, ss) && |es| == 1 && Shaped(g, ss[1])
    ensures var s, seqNo := ss[1], (p.maxSeq + 1) % TWO64;
      && s.recs == Start(g).recs[0 := Leading(PRE_ACCEPTED, x, seqNo, p.deps,
           NEW_TRACKER.(equal := if p.updated == 0 then 1 else 0))]
      && Sent(x, PreAccept, seqNo, p.deps, 0) in s.sent
  {
    es, ss := [], [Start(g)];
    Extend(g, es, ss, Propose(Asked(x), p));
    es, ss := [Propose(Asked(x), p)], [Start(g), Next(g, Start(g), Propose(Asked(x), p))];
  }

  /** It goes on with the delivery of a message, once more perhaps. */
  lemma Pass(g: Config, es: seq<Event>, ss: seq<Cluster>, to: nat, m: Message, p: Probe, out: Out)
    returns (es': seq<Event>, ss': seq<Cluster>)
    requires Run(g, es, ss) && Shaped(g, ss[|es|]) && g.leader == 0
    requires m in ss[|es|].sent && Routed(g, to, m.kind) && Handle(g, ss[|es|].recs[to], m, p) == out
    requires to == 0 ==> out.rec.lt.Some?
    ensures Run(g, es', ss') && |es'| == |es| + 1 && Shaped(g, ss'[|es'|]) && es' == es + [Deliver(to, m, p)]
    ensures ss'[|es'|].recs == ss[|es|].recs[to := out.rec] && ss' == ss + [ss'[|es'|]]
    ensures ss'[|es'|].sent == ss[|es|].sent + (if out.sent.Some? then {out.sent.value.(from := to)} else {})
  {
    hide Handle;
    var e := Deliver(to, m, p);
    Extend(g, es, ss, e);
    es', ss' := es + [e], ss + [Next(g, ss[|es|], e)];
  }

  // ---------- what the handlers answer ----------

  /** A replica that finds nothing agrees. */
  lemma Agrees(g: Config, x: Work, seqNo: nat, deps: DepArray)
    requires seqNo > 0
    ensures Handle(g, NEW_REC, Sent(x, PreAccept, seqNo, deps, 0), NOTHING)
      == Out(Following(PRE_ACCEPTED_EQ, x, seqNo, EMPTY_DEPS), Some(Sent(x, PreAcceptOk, seqNo, deps, 0)), false)
  {
  }

  /** A replica with such a report does not agree to the number seqNo. */
  predicate Objecting(seqNo: nat, p: Probe) {
    (p.maxSeq + 1) % TWO64 > seqNo || p.updated > 0 || HasUncommittedDeps(p.deps)
  }

  /** It answers with what it found. */
  lemma Objects(g: Config, x: Work, seqNo: nat, deps: DepArray, p: Probe)
    requires Objecting(seqNo, p)
    ensures var st, s := if p.updated == 0 then PRE_ACCEPTED_EQ else PRE_ACCEPTED, Max(seqNo, (p.maxSeq + 1) % TWO64);
      Handle(g, NEW_REC, Sent(x, PreAccept, seqNo, deps, 0), p)
        == Out(Following(st, x, s, p.deps), Some(Sent(x, PreAcceptReply, s, p.deps, 0)), false)
  {
    hide HasUncommittedDeps;
  }

  lemma Accepts(g: Config, x: Work, r: Rec, seqNo: nat, deps: DepArray)
    requires r.ballot == 0 && !IsState(r.status, COMMITTED | EXECUTED)
    ensures Handle(g, r, Sent(x, Accept, seqNo, deps, 0), NOTHING)
      == Out(r.(status := ACCEPTED, seqNo := seqNo, deps := deps), Some(Sent(x, AcceptReply, seqNo, deps, 0)), false)
  {
  }

  /** An agreement that decides, with everything equal and nothing open, commits. */
  lemma OkCommits(x: Work)
    ensures Handle(Config(3, 0, x.key), Leading(PRE_ACCEPTED, x, 1, EMPTY_DEPS, NEW_TRACKER.(equal := 1)),
        Sent(x, PreAcceptOk, 1, EMPTY_DEPS, 1), NOTHING)
      == Out(Leading(COMMITTED, x, 1, EMPTY_DEPS, NEW_TRACKER.(equal := 1, preAcceptOks := 1)),
        Some(Sent(x, Commit, 1, EMPTY_DEPS, 1)), false)
  {
  }

  /** The first agreement of two. */
  lemma OkCounts(x: Work, seqNo: nat, deps: DepArray, kept: nat, t: Tracker, from: nat)
    requires t.preAcceptOks == 0
    ensures Handle(Config(5, 0, x.key), Leading(PRE_ACCEPTED, x, kept, deps, t),
        Sent(x, PreAcceptOk, seqNo, deps, from), NOTHING)
      == Out(Leading(PRE_ACCEPTED, x, kept, deps, t.(preAcceptOks := 1)), None, false)
  {
  }

  /** The second one decides; where not all was equal, by asking for acceptance. */
  lemma OkAsks(x: Work, seqNo: nat, deps: DepArray, kept: DepArray, mine: nat, t: Tracker, from: nat)
    requires t.preAcceptOks == 1 && t.equal == 0
    ensures Handle(Config(5, 0, x.key), Leading(PRE_ACCEPTED, x, mine, kept, t),
        Sent(x, PreAcceptOk, seqNo, deps, from), NOTHING)
      == Out(Leading(ACCEPTED, x, mine, kept, t.(preAcceptOks := 2)),
        Some(Sent(x, Accept, seqNo, deps, from)), false)
  {
    hide HasUncommittedDeps;
  }

  // ---------- a COMMIT that overtakes the PRE_ACCEPT ----------

  /** With three replicas: the leader commits on one plain agreement, and its COMMIT reaches the
      third replica first. That replica has committed the instance without the command. */
  lemma CommandLost(x: Work) returns (g: Config, es: seq<Event>, ss: seq<Cluster>)
    ensures g == Config(3, 0, x.key) && Run(g, es, ss) && |ss[|es|].recs| == 3
    ensures ss[|es|].recs[2].status == COMMITTED && ss[|es|].recs[2].command == None
    ensures Sent(x, Commit, 1, EMPTY_DEPS, 0) in ss[|es|].sent
  {
    hide Handle, Shaped;
    g := Config(3, 0, x.key);
    es, ss := Open(g, x, NOTHING);
    Agrees(g, x, 1, EMPTY_DEPS);
    var out := Handle(g, NEW_REC, Sent(x, PreAccept, 1, EMPTY_DEPS, 0), NOTHING);
    es, ss := Pass(g, es, ss, 1, Sent(x, PreAccept, 1, EMPTY_DEPS, 0), NOTHING, out);
    OkCommits(x);
    out := Handle(g, ss[2].recs[0], Sent(x, PreAcceptOk, 1, EMPTY_DEPS, 1), NOTHING);
    es, ss := Pass(g, es, ss, 0, Sent(x, PreAcceptOk, 1, EMPTY_DEPS, 1), NOTHING, out);
    var commit := Sent(x, Commit, 1, EMPTY_DEPS, 0);
    CommitTaken(g, NEW_REC, commit);
    es, ss := Pass(g, es, ss, 2, commit, NOTHING, Handle(g, NEW_REC, commit, NOTHING));
  }

  lemma CommitTaken(g: Config, r: Rec, m: Message)
    requires m.kind.Commit?
    ensures Handle(g, r, m, NOTHING) == Out(r.(status := COMMITTED, seqNo := m.seqNo, deps := m.deps), None, false)
  {
  }

  // ---------- an acceptance delivered twice ----------

  /** Of three answers needed one is in. */
  lemma AcceptCounts(x: Work, t: Tracker, seqNo: nat, deps: DepArray)
    requires t.acceptOks == 0
    ensures Handle(Config(5, 0, x.key), Leading(ACCEPTED, x, seqNo, deps, t),
        Sent(x, AcceptReply, seqNo, deps, 1), NOTHING)
      == Out(Leading(ACCEPTED, x, seqNo, deps, t.(acceptOks := 1)), None, false)
  {
  }

  lemma AcceptCommits(x: Work, t: Tracker, seqNo: nat, deps: DepArray)
    requires t.acceptOks == 1
    ensures Handle(Config(5, 0, x.key), Leading(ACCEPTED, x, seqNo, deps, t),
        Sent(x, AcceptReply, seqNo, deps, 1), NOTHING)
      == Out(Leading(COMMITTED, x, seqNo, deps, t.(acceptOks := 2)), Some(Sent(x, Commit, seqNo, deps, 1)), false)
  {
  }

  /** The same agreement, delivered twice, makes the leader ask for acceptance. */
  lemma AskedOnRepeat(x: Work, g: Config) returns (es: seq<Event>, ss: seq<Cluster>)
    requires g == Config(5, 0, x.key)
    ensures Run(g, es, ss) && Shaped(g, ss[|es|]) && Sent(x, Accept, 1, ONE, 0) in ss[|es|].sent
    ensures ss[|es|].recs == [Leading(ACCEPTED, x, 1, ONE, NEW_TRACKER.(preAcceptOks := 2)),
      Following(PRE_ACCEPTED_EQ, x, 1, EMPTY_DEPS), NEW_REC, NEW_REC, NEW_REC]
  {
    hide Handle, Shaped;
    es, ss := Open(g, x, Probe(0, 1, ONE));
    var ask, ok := Sent(x, PreAccept, 1, ONE, 0), Sent(x, PreAcceptOk, 1, ONE, 1);
    Agrees(g, x, 1, ONE);
    es, ss := Pass(g, es, ss, 1, ask, NOTHING, Handle(g, NEW_REC, ask, NOTHING));
    var t := NEW_TRACKER.(preAcceptOks := 1);
    OkCounts(x, 1, ONE, 1, NEW_TRACKER, 1);
    es, ss := Pass(g, es, ss, 0, ok, NOTHING, Out(Leading(PRE_ACCEPTED, x, 1, ONE, t), None, false));
    OkAsks(x, 1, ONE, ONE, 1, t, 1);
    t := NEW_TRACKER.(preAcceptOks := 2);
    var out := Out(Leading(ACCEPTED, x, 1, ONE, t), Some(Sent(x, Accept, 1, ONE, 1)), false);
    es, ss := Pass(g, es, ss, 0, ok, NOTHING, out);
  }

  /** With five replicas and a network that repeats messages, the leader commits by acceptance
      although a single other replica has accepted. */
  lemma RepeatedAnswerCommits(x: Work) returns (g: Config, es: seq<Event>, ss: seq<Cluster>)
    ensures g.n == 5 && g.leader == 0 && Run(g, es, ss) && |es| > 0 && |ss[|es|].recs| == |ss[|es| - 1].recs| == 5
    ensures Acceptances.CommitsAt(g, es, ss, |es| - 1)
    ensures Acceptances.Accepted(g, ss[|es|]) == {1}
  {
    hide Handle, Shaped;
    g := Config(5, 0, x.key);
    es, ss := AskedOnRepeat(x, g);
    var accept, reply := Sent(x, Accept, 1, ONE, 0), Sent(x, AcceptReply, 1, ONE, 1);
    var t := NEW_TRACKER.(preAcceptOks := 2);
    Accepts(g, x, Following(PRE_ACCEPTED_EQ, x, 1, EMPTY_DEPS), 1, ONE);
    es, ss := Pass(g, es, ss, 1, accept, NOTHING, Out(Following(ACCEPTED, x, 1, ONE), Some(reply.(from := 0)), false));
    AcceptCounts(x, t, 1, ONE);
    t := t.(acceptOks := 1);
    es, ss := Pass(g, es, ss, 0, reply, NOTHING, Out(Leading(ACCEPTED, x, 1, ONE, t), None, false));
    AcceptCommits(x, t, 1, ONE);
    t := t.(acceptOks := 2);
    var done := Out(Leading(COMMITTED, x, 1, ONE, t), Some(Sent(x, Commit, 1, ONE, 1)), false);
    es, ss := Pass(g, es, ss, 0, reply, NOTHING, done);
    OneAccepted(g, ss[|es|]);
  }

  lemma OneAccepted(g: Config, c: Cluster)
    requires g.n == |c.recs| == 5 && g.leader == 0
    requires c.recs[1].status == ACCEPTED && c.recs[2] == c.recs[3] == c.recs[4] == NEW_REC
    ensures Acceptances.Accepted(g, c) == {1}
  {
  }

  // ---------- a leader that is ahead of what it settles ----------

  lemma ReplyCounts(r: Rec, m: Message)
    requires r.status == PRE_ACCEPTED && r.ballot == m.ballot == 0 && r.lt.Some? && r.lt.value.preAcceptOks == 0
    requires m.kind.PreAcceptReply? && !m.nack
    ensures var out := OnPreAcceptReply(5, r, m);
      && out.sent == None && out.rec.status == PRE_ACCEPTED && out.rec.ballot == 0
      && out.rec.seqNo == Max(r.seqNo, m.seqNo) && out.rec.lt.Some? && out.rec.lt.value.preAcceptOks == 1
  {
    hide MergeDeps;
  }

  lemma OkDecides(r: Rec, m: Message)
    requires r.status == PRE_ACCEPTED && r.ballot == 0 && r.lt.Some? && r.lt.value.preAcceptOks == 1
    ensures var out := OnPreAcceptOk(5, r, m);
      && out.sent.Some? && Settling(out.sent.value.kind) && out.sent.value.seqNo == m.seqNo
      && out.rec.seqNo == r.seqNo && out.rec.lt.Some?
  {
    hide HasUncommittedDeps;
  }

  /** With five replicas: one reply raises the leader's number to 5, then an agreement decides
      on the proposal's 3. The number settled is 3 and the leader holds 5. */
  lemma LeaderSeqBehind(x: Work) returns (g: Config, es: seq<Event>, ss: seq<Cluster>, m: Message)
    ensures g.n == 5 && g.leader == 0 && Run(g, es, ss) && |ss[|es|].recs| == 5
    ensures m in ss[|es|].sent && Settling(m.kind) && m.seqNo == 3 && ss[|es|].recs[0].seqNo == 5
  {
    hide Handle, Shaped;
    g := Config(5, 0, x.key);
    es, ss := Open(g, x, Probe(2, 0, EMPTY_DEPS));
    var ask, ok := Sent(x, PreAccept, 3, EMPTY_DEPS, 0), Sent(x, PreAcceptOk, 3, EMPTY_DEPS, 2);
    var reply, more := Sent(x, PreAcceptReply, 5, ONE, 1), Probe(4, 1, ONE);
    Objects(g, x, 3, EMPTY_DEPS, more);
    es, ss := Pass(g, es, ss, 1, ask, more, Handle(g, NEW_REC, ask, more));
    Agrees(g, x, 3, EMPTY_DEPS);
    es, ss := Pass(g, es, ss, 2, ask, NOTHING, Handle(g, NEW_REC, ask, NOTHING));
    var r := ss[3].recs[0];
    ReplyCounts(r, reply);
    ReplyHandled(g, r, reply);
    es, ss := Pass(g, es, ss, 0, reply, NOTHING, OnPreAcceptReply(5, r, reply));
    r := ss[4].recs[0];
    OkDecides(r, ok);
    ReplyHandled(g, r, ok);
    es, ss := Pass(g, es, ss, 0, ok, NOTHING, OnPreAcceptOk(5, r, ok));
    m := OnPreAcceptOk(5, r, ok).sent.value.(from := 0);
  }

  lemma ReplyHandled(g: Config, r: Rec, m: Message)
    requires r.lt.Some?
    ensures m.kind.PreAcceptReply? ==> Handle(g, r, m, NOTHING) == OnPreAcceptReply(g.n, r, m)
    ensures m.kind.PreAcceptOk? ==> Handle(g, r, m, NOTHING) == OnPreAcceptOk(g.n, r, m)
  {
    hide OnPreAcceptReply, OnPreAcceptOk;
  }

  // ---------- a dependency that is not settled ----------

  lemma ReplyDecides(r: Rec, m: Message)
    requires r.status == PRE_ACCEPTED && r.ballot == m.ballot == 0 && r.lt.Some? && r.lt.value.preAcceptOks == 0
    requires m.kind.PreAcceptReply? && !m.nack
    ensures var out := OnPreAcceptReply(3, r, m);
      out.sent.Some? && Settling(out.sent.value.kind) && ValueOf(out.sent.value) == ValueOf(m) && out.rec.lt.Some?
  {
    hide HasUncommittedDeps, MergeDeps;
  }

  /** With three replicas a single reply decides: whatever the leader's walk reports and whatever
      another replica's does, if that makes it object, what it names is settled, and what the
      leader proposed is not. */
  lemma ReplySettles(x: Work, p: Probe, q: Probe)
    returns (g: Config, es: seq<Event>, ss: seq<Cluster>, ask: Message, m: Message)
    requires Objecting((p.maxSeq + 1) % TWO64, q)
    ensures g == Config(3, 0, x.key) && Run(g, es, ss) && ask in ss[|es|].sent && m in ss[|es|].sent
    ensures ask.kind.PreAccept? && ask.deps == p.deps && Settling(m.kind) && m.deps == q.deps
  {
    hide Handle, Shaped;
    g := Config(3, 0, x.key);
    es, ss := Open(g, x, p);
    var seqNo := (p.maxSeq + 1) % TWO64;
    var reply := Sent(x, PreAcceptReply, Max(seqNo, (q.maxSeq + 1) % TWO64), q.deps, 2);
    ask := Sent(x, PreAccept, seqNo, p.deps, 0);
    Objects(g, x, seqNo, p.deps, q);
    es, ss := Pass(g, es, ss, 2, ask, q, Handle(g, NEW_REC, ask, q));
    var r := ss[2].recs[0];
    ReplyDecides(r, reply);
    ReplyHandled(g, r, reply);
    es, ss := Pass(g, es, ss, 0, reply, NOTHING, OnPreAcceptReply(3, r, reply));
    m := OnPreAcceptReply(3, r, reply).sent.value.(from := 0);
  }

  /** A row that holds the instance x itself, just registered, above one other. */
  function RowOf(below: seq<Indexes.Entry>, x: Work): seq<Indexes.Entry> {
    below + [Indexes.Entry(x.key, NONE, None, 0)]
  }

  /** The range tree lets everything be recorded. */
  function Everything(x: Work): Indexes.Query {
    Indexes.Query(Some(x.cmd), Some(x.key), _ => Indexes.Answer(true, false, true))
  }

  /** A walk over one interfering instance. */
  lemma WalkOne(x: Work, e: Indexes.Entry, p: Probe)
    requires e.key != x.key && !Indexes.IsExecuted(e) && e.command.Some? && Interferes(e.command.value, x.cmd)
    ensures Indexes.WalkRow([e], Everything(x), p) == Some(Indexes.Meet(e, Indexes.Answer(true, false, true), p))
    ensures Indexes.WalkRow(RowOf([e], x), Everything(x), p) == Indexes.WalkRow([e], Everything(x), p)
    ensures Indexes.WalkRow(RowOf([], x), Everything(x), p) == Some(p)
  {
    hide Interferes, Indexes.Meet;
    var q := Indexes.Meet(e, Indexes.Answer(true, false, true), p);
    assert [e][..0] == [];
    assert Indexes.WalkRow([], Everything(x), q) == Some(q);
    assert RowOf([e], x)[..1] == [e] && RowOf([], x)[..0] == [];
  }

  /** It records the one instance. */
  lemma MeetOne(e: Indexes.Entry)
    requires e.command.Some? && e.key.instanceId > 0
    ensures Indexes.Meet(e, Indexes.Answer(true, false, true), NOTHING) == Probe(e.seqNo, 1, Single(Indexes.DepOf(e)))
  {
    var d := Indexes.DepOf(e);
    assert SlotOf(EMPTY_DEPS, d.id) == MAX_DEPS && PlaceOf(EMPTY_DEPS, d.id.instanceId) == 0;
    assert ShiftIn(EMPTY_DEPS, d, 0) == Single(d);
  }

  lemma WalkThree(top: seq<Indexes.Entry>, last: seq<Indexes.Entry>, x: Work, p: Probe, q: Probe)
    requires Indexes.WalkRow(top, Everything(x), NOTHING) == Some(p)
    requires Indexes.WalkRow(last, Everything(x), p.(maxSeq := 0)) == Some(q)
    ensures Indexes.FreshProbe([top, [], last], Everything(x)) == Some(q.(maxSeq := Max(p.maxSeq, q.maxSeq)))
  {
    hide Indexes.WalkRow;
    var u, rows := Everything(x), [top, [], last];
    assert Indexes.WalkRow([], u, p.(maxSeq := 0)) == Some(p.(maxSeq := 0)) by { WalkNothing(u, p.(maxSeq := 0)); }
    assert rows[..1] == [top] && rows[..2] == [top, []] && [top, []][..1] == [top] && [top][..0] == [];
    assert Indexes.WalkAll([], u, NOTHING) == Some(NOTHING);
    assert Indexes.WalkAll([top], u, NOTHING) == Some(p);
    assert Indexes.WalkAll([top, []], u, NOTHING) == Some(p);
  }

  lemma WalkNothing(u: Indexes.Query, p: Probe)
    ensures Indexes.WalkRow([], u, p) == Some(p)
  {
  }

  /** What replica 0 has when a is proposed: b, committed. */
  function Rows0(a: Work, b: Work): seq<seq<Indexes.Entry>> {
    [RowOf([Indexes.Entry(b.key, COMMITTED, Some(b.cmd), 1)], a), [], []]
  }

  /** What replica 2 has when it hears of a: its own c. */
  function Rows2(a: Work, c: Work): seq<seq<Indexes.Entry>> {
    [RowOf([], a), [], [Indexes.Entry(c.key, PRE_ACCEPTED, Some(c.cmd), 5)]]
  }

  lemma Walk0(a: Work, b: Work)
    requires a.key == InstanceId(0, 2) && b.key == InstanceId(0, 1) && Interferes(b.cmd, a.cmd)
    ensures Indexes.FreshProbe(Rows0(a, b), Everything(a)) == Some(Probe(1, 1, Single(Dependency(b.key, 1))))
  {
    hide Interferes, Indexes.WalkRow, Indexes.Meet, Indexes.FreshProbe;
    var mine, p := Indexes.Entry(b.key, COMMITTED, Some(b.cmd), 1), Probe(1, 1, Single(Dependency(b.key, 1)));
    WalkOne(a, mine, NOTHING);
    MeetOne(mine);
    WalkNothing(Everything(a), p.(maxSeq := 0));
    WalkThree(RowOf([mine], a), [], a, p, p.(maxSeq := 0));
  }

  lemma Walk2(a: Work, c: Work)
    requires a.key == InstanceId(0, 2) && c.key == InstanceId(2, 5) && Interferes(c.cmd, a.cmd)
    ensures Indexes.FreshProbe(Rows2(a, c), Everything(a)) == Some(Probe(5, 1, Single(Dependency(c.key, 0))))
  {
    hide Interferes, Indexes.WalkRow, Indexes.Meet, Indexes.FreshProbe;
    var theirs := Indexes.Entry(c.key, PRE_ACCEPTED, Some(c.cmd), 5);
    WalkOne(a, theirs, NOTHING);
    MeetOne(theirs);
    WalkThree(RowOf([], a), [theirs], a, NOTHING, Probe(5, 1, Single(Dependency(c.key, 0))));
  }

  lemma WalkEmpty(x: Work)
    ensures Indexes.FreshProbe([RowOf([], x), [], []], Everything(x)) == Some(NOTHING)
  {
    hide Indexes.WalkRow, Indexes.FreshProbe;
    WalkOwn(x);
    WalkNothing(Everything(x), NOTHING);
    WalkThree(RowOf([], x), [], x, NOTHING, NOTHING);
  }

  lemma WalkOwn(x: Work)
    ensures Indexes.WalkRow(RowOf([], x), Everything(x), NOTHING) == Some(NOTHING)
  {
    assert RowOf([], x)[..0] == [];
  }

  // ---------- two instances ----------

  /** Two instances of the first of three replicas. */
  function Both(x: Work, y: Work): Two<Config> {
    Two(Config(3, 0, x.key), Config(3, 0, y.key))
  }

  /** A run of two instances goes on. */
  lemma Then(gs: Two<Config>, ms: seq<Move>, ss: seq<Two<Cluster>>, mv: Move)
    returns (ms': seq<Move>, ss': seq<Two<Cluster>>)
    requires PairRun(gs, ms, ss) && Can(gs, ss[|ms|], mv)
    ensures PairRun(gs, ms', ss') && |ms'| == |ms| + 1
    ensures ss'[|ms'|] == Put(ss[|ms|], mv.w, Next(Of(gs, mv.w), Of(ss[|ms|], mv.w), mv.e))
  {
    assert Shaped(Of(gs, mv.w), Of(ss[|ms|], mv.w)) && Enabled(Of(gs, mv.w), Of(ss[|ms|], mv.w), mv.e);
    hide Can, Next, Enabled, Shaped;
    ms', ss' := ms + [mv], ss + [Put(ss[|ms|], mv.w, Next(Of(gs, mv.w), Of(ss[|ms|], mv.w), mv.e))];
    forall i | 0 <= i < |ms'| ensures Moves(gs, ss'[i], ms'[i], ss'[i + 1]) {
      assert i < |ms| ==> Moves(gs, ss[i], ms[i], ss[i + 1]);
    }
  }

  /** The rows are in order and show the instance as r has it. */
  ghost predicate Fair(rows: seq<seq<Indexes.Entry>>, key: InstanceId, r: Rec) {
    |rows| == 3 && Indexes.RowsOk(rows) && Shows(rows, key, r)
  }

  /** The first replica proposes. */
  lemma ThenPropose(gs: Two<Config>, ms: seq<Move>, ss: seq<Two<Cluster>>, w: bool, x: Work, p: Probe,
      rows: seq<seq<Indexes.Entry>>)
    returns (ms': seq<Move>, ss': seq<Two<Cluster>>)
    requires PairRun(gs, ms, ss) && Of(gs, w) == Config(3, 0, x.key) && Of(ss[|ms|], w) == Start(Of(gs, w))
    requires Shaped(Of(gs, !w), Of(ss[|ms|], !w)) && Of(gs, !w).n == 3
    requires Fair(rows, Of(gs, !w).key, Of(ss[|ms|], !w).recs[0])
    requires Indexes.FreshProbe(rows, Everything(x)) == Some(p)
    ensures PairRun(gs, ms', ss') && |ms'| == |ms| + 1 && Of(ss'[|ms'|], !w) == Of(ss[|ms|], !w)
    ensures var c, seqNo := Of(ss'[|ms'|], w), (p.maxSeq + 1) % TWO64;
      && c.recs == [Leading(PRE_ACCEPTED, x, seqNo, p.deps, NEW_TRACKER.(equal := if p.updated == 0 then 1 else 0)),
           NEW_REC, NEW_REC]
      && Sent(x, PreAccept, seqNo, p.deps, 0) in c.sent
  {
    hide Indexes.WalkAll, Indexes.RowsOk, Shows;
    ms', ss' := Then(gs, ms, ss, Move(w, Propose(Asked(x), p), rows, Everything(x).ask));
    assert Of(ss'[|ms'|], w).recs == [Of(ss'[|ms'|], w).recs[0], NEW_REC, NEW_REC];
  }

  /** A replica that is new to the instance gets the PRE_ACCEPT. */
  lemma ThenAsk(gs: Two<Config>, ms: seq<Move>, ss: seq<Two<Cluster>>, w: bool, to: nat, x: Work, m: Message,
      p: Probe, rows: seq<seq<Indexes.Entry>>, out: Out)
    returns (ms': seq<Move>, ss': seq<Two<Cluster>>)
    requires PairRun(gs, ms, ss) && Of(gs, w) == Config(3, 0, x.key) && 0 < to < 3
    requires var c := Of(ss[|ms|], w);
      && Shaped(Of(gs, w), c) && c.recs[to] == NEW_REC && m in c.sent
      && m.kind.PreAccept? && m.command == Some(x.cmd) && Handle(Of(gs, w), NEW_REC, m, p) == out
    requires Shaped(Of(gs, !w), Of(ss[|ms|], !w)) && Of(gs, !w).n == 3
    requires Fair(rows, Of(gs, !w).key, Of(ss[|ms|], !w).recs[to])
    requires Indexes.FreshProbe(rows, Everything(x)) == Some(p)
    ensures PairRun(gs, ms', ss') && |ms'| == |ms| + 1 && Of(ss'[|ms'|], !w) == Of(ss[|ms|], !w)
    ensures var c, d := Of(ss[|ms|], w), Of(ss'[|ms'|], w);
      && d.recs == c.recs[to := out.rec]
      && d.sent == c.sent + if out.sent.Some? then {out.sent.value.(from := to)} else {}
  {
    hide Indexes.WalkAll, Indexes.RowsOk, Shows, Handle;
    NewTakes(m);
    ms', ss' := Then(gs, ms, ss, Move(w, Deliver(to, m, p), rows, Everything(x).ask));
  }

  lemma NewTakes(m: Message)
    ensures TakesPreAccept(NEW_REC, m)
  {
  }

  /** The first replica, which leads, gets an answer. */
  lemma ThenAnswer(gs: Two<Config>, ms: seq<Move>, ss: seq<Two<Cluster>>, w: bool, m: Message, out: Out)
    returns (ms': seq<Move>, ss': seq<Two<Cluster>>)
    requires PairRun(gs, ms, ss) && Of(gs, w).leader == 0 && ToLeader(m.kind)
    requires var c := Of(ss[|ms|], w);
      Shaped(Of(gs, w), c) && m in c.sent && Handle(Of(gs, w), c.recs[0], m, NOTHING) == out
    requires Shaped(Of(gs, !w), Of(ss[|ms|], !w)) && Of(gs, !w).n == 3
    ensures PairRun(gs, ms', ss') && |ms'| == |ms| + 1 && Of(ss'[|ms'|], !w) == Of(ss[|ms|], !w)
    ensures var c, d := Of(ss[|ms|], w), Of(ss'[|ms'|], w);
      && d.recs == c.recs[0 := out.rec]
      && d.sent == c.sent + if out.sent.Some? then {out.sent.value.(from := 0)} else {}
  {
    hide Handle, WalkShown;
    ms', ss' := Then(gs, ms, ss, Move(w, Deliver(0, m, NOTHING), [], _ => Indexes.Answer(true, false, true)));
  }

  /** b is proposed, one replica agrees, and the first replica commits it. */
  lemma FirstSettles(a: Work, b: Work) returns (ms: seq<Move>, ss: seq<Two<Cluster>>)
    requires a.key == InstanceId(0, 2) && b.key == InstanceId(0, 1)
    ensures PairRun(Both(a, b), ms, ss)
    ensures ss[|ms|].one == Start(Config(3, 0, a.key)) && Sent(b, Commit, 1, EMPTY_DEPS, 0) in ss[|ms|].two.sent
    ensures ss[|ms|].two.recs == [Leading(COMMITTED, b, 1, EMPTY_DEPS, NEW_TRACKER.(equal := 1, preAcceptOks := 1)),
      Following(PRE_ACCEPTED_EQ, b, 1, EMPTY_DEPS), NEW_REC]
  {
    hide Handle, Fair, Indexes.FreshProbe;
    var gs, rows := Both(a, b), [RowOf([], b), [], []];
    ms, ss := [], [Two(Start(gs.one), Start(gs.two))];
    WalkEmpty(b);
    FairOwn(b, a.key);
    ms, ss := ThenPropose(gs, ms, ss, true, b, NOTHING, rows);
    var ask, ok := Sent(b, PreAccept, 1, EMPTY_DEPS, 0), Sent(b, PreAcceptOk, 1, EMPTY_DEPS, 1);
    Agrees(gs.two, b, 1, EMPTY_DEPS);
    ms, ss := ThenAsk(gs, ms, ss, true, 1, b, ask, NOTHING, rows, Handle(gs.two, NEW_REC, ask, NOTHING));
    OkCommits(b);
    ms, ss := ThenAnswer(gs, ms, ss, true, ok, Handle(gs.two, ss[|ms|].two.recs[0], ok, NOTHING));
  }

  /** Rows that hold the own instance only. */
  lemma FairOwn(x: Work, key: InstanceId)
    requires x.key.replicaId == 0 && key != x.key
    ensures Fair([RowOf([], x), [], []], key, NEW_REC)
    ensures Fair([RowOf([], x), [], []], key, Start(Config(3, 0, key)).recs[0])
  {
  }

  lemma Fair0(a: Work, b: Work, r: Rec)
    requires a.key == InstanceId(0, 2) && b.key == InstanceId(0, 1)
    requires r.status == COMMITTED && r.command == Some(b.cmd) && r.seqNo == 1
    ensures Fair(Rows0(a, b), b.key, r)
  {
    assert Rows0(a, b)[0][0] == Indexes.Entry(b.key, COMMITTED, Some(b.cmd), 1);
  }

  lemma Fair2(a: Work, b: Work, c: Work)
    requires a.key == InstanceId(0, 2) && b.key == InstanceId(0, 1) && c.key == InstanceId(2, 5)
    ensures Fair(Rows2(a, c), b.key, NEW_REC)
  {
  }

  /** With three replicas, two interfering commands of one leader settle without a dependency
      either way. Replica 0 commits b on the agreement of replica 1. Then it proposes a, and its
      walk records b. Replica 2 has not heard of b; its walk records its own c, and its reply
      decides: a settles with the dependency on c alone. */
  lemma NeitherDepends(a: Work, b: Work, c: Work)
    returns (ms: seq<Move>, ss: seq<Two<Cluster>>, ask: Message, ma: Message, mb: Message)
    requires a.key == InstanceId(0, 2) && b.key == InstanceId(0, 1) && c.key == InstanceId(2, 5)
    requires Interferes(b.cmd, a.cmd) && Interferes(c.cmd, a.cmd)
    ensures PairRun(Both(a, b), ms, ss)
    ensures ask in ss[|ms|].one.sent && ask.kind.PreAccept? && Holds(ask.deps, b.key)
    ensures ma in ss[|ms|].one.sent && Settling(ma.kind) && ma.command == Some(a.cmd) && Holds(ma.deps, c.key)
    ensures !Holds(ma.deps, b.key)
    ensures mb in ss[|ms|].two.sent && Settling(mb.kind) && mb.command == Some(b.cmd) && !Holds(mb.deps, a.key)
  {
    hide Handle, Fair, Interferes, Indexes.FreshProbe, Rows0, Rows2;
    var gs := Both(a, b);
    ms, ss := FirstSettles(a, b);
    mb := Sent(b, Commit, 1, EMPTY_DEPS, 0);
    var p, q := Probe(1, 1, Single(Dependency(b.key, 1))), Probe(5, 1, Single(Dependency(c.key, 0)));
    Walk0(a, b);
    Fair0(a, b, ss[|ms|].two.recs[0]);
    ms, ss := ThenPropose(gs, ms, ss, false, a, p, Rows0(a, b));
    ask := Sent(a, PreAccept, 2, p.deps, 0);
    Walk2(a, c);
    Fair2(a, b, c);
    Objects(gs.one, a, 2, p.deps, q);
    ms, ss := ThenAsk(gs, ms, ss, false, 2, a, ask, q, Rows2(a, c), Handle(gs.one, NEW_REC, ask, q));
    var r, reply := ss[|ms|].one.recs[0], Sent(a, PreAcceptReply, 6, q.deps, 2);
    ReplyDecides(r, reply);
    ReplyHandled(gs.one, r, reply);
    ms, ss := ThenAnswer(gs, ms, ss, false, reply, OnPreAcceptReply(3, r, reply));
    ma := OnPreAcceptReply(3, r, reply).sent.value.(from := 0);
    NamesOne(Dependency(b.key, 1));
    NamesOne(Dependency(c.key, 0));
  }

  lemma NamesOne(d: Dependency)
    requires d.id.instanceId > 0
    ensures forall id :: Holds(Single(d), id) <==> id == d.id
    ensures forall id :: !Holds(EMPTY_DEPS, id)
  {
    assert Single(d)[0] == d;
  }
}
