/** Runs of the commit protocol without recovery: one instance, its leader, any number of
    replicas, and a network that may lose, repeat and reorder every message. */
module CommitRuns {
  import opened Commands
  import opened DepArrays
  import opened DepMerges
  import opened Ids
  import opened Instances
  import opened Options
  import opened Protocol

  /** The copies of the instance, replica by replica, and every message ever sent about it. */
  datatype Cluster = Cluster(recs: seq<Rec>, sent: set<Message>)

  datatype Config = Config(n: nat, leader: nat, key: InstanceId)

  datatype Event =
    | Propose(m: Message, p: Probe)
    | Deliver(to: nat, m: Message, p: Probe)
    | Execute(at: nat)

  type Value = (nat, DepArray)

  function Start(g: Config): Cluster {
    Cluster(seq(g.n, q => if q == g.leader then NEW_REC.(lt := Some(NEW_TRACKER)) else NEW_REC), {})
  }

  predicate ToOthers(k: Kind) {
    k.PreAccept? || k.Accept?
  }

  predicate ToLeader(k: Kind) {
    k.PreAcceptOk? || k.PreAcceptReply? || k.AcceptReply?
  }

  /** Questions go to the other replicas, answers to the leader, commits to everyone. */
  predicate Routed(g: Config, to: nat, k: Kind) {
    to < g.n && (if to == g.leader then ToLeader(k) || k.Commit? else ToOthers(k) || k.Commit?)
  }

  predicate Shaped(g: Config, s: Cluster) {
    g.leader < g.n == |s.recs| && s.recs[g.leader].lt.Some?
  }

  function Handle(g: Config, r: Rec, m: Message, p: Probe): Out
    requires ToLeader(m.kind) ==> r.lt.Some?
  {
    match m.kind
    case PreAccept => OnPreAccept(r, m, p)
    case PreAcceptOk => OnPreAcceptOk(g.n, r, m)
    case PreAcceptReply => OnPreAcceptReply(g.n, r, m)
    case Accept => OnAccept(r, m)
    case AcceptReply => OnAcceptReply(g.n, r, m)
    case Commit => OnCommit(r, m)
    case _ => Out(r, None, false)
  }

  /** What the replica at does in this event. */
  function Do(g: Config, s: Cluster, e: Event): Out
    requires Shaped(g, s) && Enabled(g, s, e)
  {
    match e
    case Propose(m, p) => OnPhase1(s.recs[g.leader], m, g.key, p)
    case Deliver(to, m, p) => Handle(g, s.recs[to], m, p)
    case Execute(at) => Out(s.recs[at].(status := EXECUTED), None, false)
  }

  function At(g: Config, e: Event): nat {
    match e
    case Propose(m, p) => g.leader
    case Deliver(to, m, p) => to
    case Execute(at) => at
  }

  /** A client proposes once, with an initial ballot and a command; sent messages may arrive
      at any time, any number of times; what is committed may be executed. */
  predicate Enabled(g: Config, s: Cluster, e: Event)
    requires Shaped(g, s)
  {
    match e
    case Propose(m, p) =>
      s.recs[g.leader].status == NONE && IsInitialBallot(m.ballot) && !m.nack && m.command.Some?
    case Deliver(to, m, p) => m in s.sent && Routed(g, to, m.kind)
    case Execute(at) => at < g.n && s.recs[at].status == COMMITTED
  }

  function Next(g: Config, s: Cluster, e: Event): Cluster
    requires Shaped(g, s) && Enabled(g, s, e)
  {
    var out := Do(g, s, e);
    Cluster(s.recs[At(g, e) := out.rec],
            s.sent + (if out.sent.Some? then {out.sent.value.(from := At(g, e))} else {}))
  }

  ghost predicate Run(g: Config, es: seq<Event>, ss: seq<Cluster>) {
    && |ss| == |es| + 1 && g.leader < g.n && ss[0] == Start(g)
    && forall i :: 0 <= i < |es| ==> Shaped(g, ss[i]) && Enabled(g, ss[i], es[i]) && ss[i + 1] == Next(g, ss[i], es[i])
  }

  /** A run goes on with any event that is enabled. */
  lemma Extend(g: Config, es: seq<Event>, ss: seq<Cluster>, e: Event)
    requires Run(g, es, ss) && Shaped(g, ss[|es|]) && Enabled(g, ss[|es|], e)
    ensures Run(g, es + [e], ss + [Next(g, ss[|es|], e)])
  {
    hide Next, Enabled, Shaped;
    var es', ss' := es + [e], ss + [Next(g, ss[|es|], e)];
    forall i | 0 <= i < |es'|
      ensures Shaped(g, ss'[i]) && Enabled(g, ss'[i], es'[i]) && ss'[i + 1] == Next(g, ss'[i], es'[i])
    {
      if i < |es| {
        assert ss'[i] == ss[i] && ss'[i + 1] == ss[i + 1] && es'[i] == es[i];
      }
    }
  }

  // ---------- one instance of a larger run ----------

  /** The instance goes through the events of os, and stays as it is where there is none. */
  ghost predicate Stutters(g: Config, os: seq<Option<Event>>, cs: seq<Cluster>) {
    && |cs| == |os| + 1 && g.leader < g.n && cs[0] == Start(g)
    && forall i :: 0 <= i < |os| ==> Leads(g, cs[i], os[i], cs[i + 1])
  }

  ghost predicate Leads(g: Config, s: Cluster, o: Option<Event>, t: Cluster) {
    if o.None? then t == s else Shaped(g, s) && Enabled(g, s, o.value) && t == Next(g, s, o.value)
  }

  /** The events alone. */
  function Picked(os: seq<Option<Event>>): seq<Event> {
    if os == [] then []
    else Picked(os[..|os| - 1]) + (if os[|os| - 1].Some? then [os[|os| - 1].value] else [])
  }

  /** The states before the first of them and after each. */
  function Kept(os: seq<Option<Event>>, cs: seq<Cluster>): seq<Cluster>
    requires |cs| == |os| + 1
  {
    if os == [] then cs
    else Kept(os[..|os| - 1], cs[..|os|]) + (if os[|os| - 1].Some? then [cs[|os|]] else [])
  }

  /** They are a run of the instance. */
  lemma {:induction false} PickedRun(g: Config, os: seq<Option<Event>>, cs: seq<Cluster>)
    requires Stutters(g, os, cs)
    ensures Run(g, Picked(os), Kept(os, cs))
    ensures Kept(os, cs)[|Picked(os)|] == cs[|os|]
  {
    hide Next, Enabled, Shaped;
    if os != [] {
      var n := |os| - 1;
      StuttersFront(g, os, cs);
      assert Leads(g, cs[n], os[n], cs[n + 1]);
      PickedRun(g, os[..n], cs[..n + 1]);
      if os[n].Some? {
        Extend(g, Picked(os[..n]), Kept(os[..n], cs[..n + 1]), os[n].value);
      }
    }
  }

  lemma StuttersFront(g: Config, os: seq<Option<Event>>, cs: seq<Cluster>)
    requires Stutters(g, os, cs) && os != []
    ensures Stutters(g, os[..|os| - 1], cs[..|os|])
  {
    hide Leads;
  }

  /** Event number i of os is number |Picked(os[..i])| of the run. */
  lemma {:induction false} PickedAt(g: Config, os: seq<Option<Event>>, cs: seq<Cluster>, i: nat)
    requires Stutters(g, os, cs) && i <= |os|
    ensures |Kept(os, cs)| == |Picked(os)| + 1
    ensures var k := |Picked(os[..i])|;
      && k <= |Picked(os)| && Kept(os, cs)[k] == cs[i]
      && (i < |os| && os[i].Some? ==>
            k < |Picked(os)| && Picked(os)[k] == os[i].value && Kept(os, cs)[k + 1] == cs[i + 1])
      && (i < |os| ==> |Picked(os[..i + 1])| == if os[i].Some? then k + 1 else k)
  {
    hide Next, Enabled, Shaped;
    PickedRun(g, os, cs);
    if i == |os| {
      assert os[..i] == os;
    } else {
      assert os[..i + 1][..i] == os[..i];
      var n := |os| - 1;
      StuttersFront(g, os, cs);
      PickedAt(g, os[..n], cs[..n + 1], i);
      PickedRun(g, os[..n], cs[..n + 1]);
      assert os[..n][..i] == os[..i];
    }
  }

  /** Event number k of the run is one of os. */
  lemma {:induction false} PickedFrom(g: Config, os: seq<Option<Event>>, cs: seq<Cluster>, k: nat) returns (i: nat)
    requires Stutters(g, os, cs) && k < |Picked(os)|
    ensures i < |os| && os[i] == Some(Picked(os)[k]) && |Picked(os[..i])| == k
    ensures |Kept(os, cs)| > k && Kept(os, cs)[k] == cs[i]
  {
    assert |cs| == |os| + 1;
    hide Stutters;
    var n := |os| - 1;
    if os[n].Some? && k == |Picked(os[..n])| {
      i := n;
    } else {
      StuttersFront(g, os, cs);
      i := PickedFrom(g, os[..n], cs[..n + 1], k);
      assert os[..n][..i] == os[..i];
    }
    PickedAt(g, os, cs, i);
  }

  lemma {:induction false} PickedGrows(os: seq<Option<Event>>, i: nat, j: nat)
    requires i <= j <= |os|
    ensures |Picked(os[..i])| <= |Picked(os[..j])|
  {
    if i < j {
      PickedGrows(os, i, j - 1);
      assert os[..j][..j - 1] == os[..j - 1];
    }
  }

  // ---------- agreement ----------

  predicate Settling(k: Kind) {
    k.Accept? || k.AcceptReply? || k.Commit?
  }

  /** ACCEPTED or later. */
  predicate Settled(r: Rec) {
    IsState(r.status, ACCEPTED | COMMITTED | EXECUTED)
  }

  predicate Early(g: Config, s: Cluster)
    requires Shaped(g, s)
  {
    s.recs[g.leader].status == NONE || s.recs[g.leader].status == PRE_ACCEPTED
  }

  function ValueOf(m: Message): Value {
    (m.seqNo, m.deps)
  }

  function Held(r: Rec): Value {
    (r.seqNo, r.deps)
  }

  predicate Usual(st: State) {
    st == NONE || st == PRE_ACCEPTED || st == PRE_ACCEPTED_EQ || st == ACCEPTED || st == COMMITTED || st == EXECUTED
  }

  /** Every message is a plain one of the leader's ballot, with the command. */
  ghost predicate MessagesOk(b: Byte, sent: set<Message>) {
    forall m :: m in sent ==>
      && !m.nack && m.ballot == b && m.command.Some?
      && (ToOthers(m.kind) || ToLeader(m.kind) || m.kind.Commit?)
  }

  ghost predicate RecordsOk(g: Config, s: Cluster)
    requires Shaped(g, s)
  {
    && (forall q :: 0 <= q < g.n ==> Usual(s.recs[q].status) && s.recs[q].ballot <= s.recs[g.leader].ballot)
    && s.recs[g.leader].status != PRE_ACCEPTED_EQ
    && IsInitialBallot(s.recs[g.leader].ballot)
    && (s.recs[g.leader].status == NONE ==> s.sent == {} && s.recs[g.leader].ballot == 0)
  }

  /** v is the only value settled, and nothing is settled before the leader decides. */
  ghost predicate Single(g: Config, s: Cluster, v: Value)
    requires Shaped(g, s)
  {
    && (forall m :: m in s.sent && Settling(m.kind) ==> !Early(g, s) && ValueOf(m) == v)
    && (forall q :: 0 <= q < g.n && q != g.leader && Settled(s.recs[q]) ==> !Early(g, s) && Held(s.recs[q]) == v)
  }

  ghost predicate Inv(g: Config, s: Cluster, v: Value) {
    Shaped(g, s) && MessagesOk(s.recs[g.leader].ballot, s.sent) && RecordsOk(g, s) && Single(g, s, v)
  }

  /** The value settled after an event: the leader settles it when it decides. */
  function Settles(g: Config, s: Cluster, e: Event, v: Value): Value
    requires Shaped(g, s) && Enabled(g, s, e)
  {
    var out := Do(g, s, e);
    if Early(g, s) && At(g, e) == g.leader && out.sent.Some? then ValueOf(out.sent.value) else v
  }

  /** What a replica other than the leader does with a message. */
  lemma OtherStep(g: Config, r: Rec, m: Message, p: Probe)
    requires (ToOthers(m.kind) || m.kind.Commit?) && !m.nack && Usual(r.status) && r.ballot <= m.ballot
    ensures var out := Handle(g, r, m, p);
      && !out.recover && Usual(out.rec.status) && out.rec.ballot <= m.ballot
      && (out.sent.Some? ==> !out.sent.value.nack && out.sent.value.ballot == m.ballot && ToLeader(out.sent.value.kind))
      && (out.sent.Some? ==> out.sent.value.command == m.command)
      && (out.sent.Some? && Settling(out.sent.value.kind) ==> m.kind.Accept? && ValueOf(out.sent.value) == ValueOf(m))
      && (Settled(out.rec) ==>
            (Settled(r) && Held(out.rec) == Held(r)) || (Settling(m.kind) && Held(out.rec) == ValueOf(m)))
      && (Settled(r) ==> Settled(out.rec))
  {
    hide HasUncommittedDeps, IsInitialBallot;
  }

  /** What the leader does with an answer or a commit. */
  lemma LeaderStep(g: Config, r: Rec, m: Message, p: Probe)
    requires (ToLeader(m.kind) || m.kind.Commit?) && !m.nack && Usual(r.status) && r.ballot == m.ballot && r.lt.Some?
    requires r.status != PRE_ACCEPTED_EQ
    ensures var out := Handle(g, r, m, p);
      && !out.recover && Usual(out.rec.status) && out.rec.status != PRE_ACCEPTED_EQ && out.rec.ballot == r.ballot
      && out.rec.lt.Some? && (out.rec.status == NONE ==> r.status == NONE)
      && (out.sent.Some? ==> !out.sent.value.nack && out.sent.value.ballot == r.ballot)
      && (out.sent.Some? ==> out.sent.value.command == m.command)
      && (out.sent.Some? ==> Settling(out.sent.value.kind) && ValueOf(out.sent.value) == ValueOf(m) && Settled(out.rec))
      && (Settled(r) ==> Settled(out.rec))
      && (r.status == PRE_ACCEPTED && out.rec.status != PRE_ACCEPTED ==> out.sent.Some? || m.kind.Commit?)
      && (out.sent.Some? && Settled(r) ==> Settling(m.kind))
  {
    hide HasUncommittedDeps, MergeDeps;
  }

  lemma StepKeeps(g: Config, s: Cluster, e: Event, v: Value)
    requires Inv(g, s, v) && Enabled(g, s, e)
    ensures Inv(g, Next(g, s, e), Settles(g, s, e, v)) && !Do(g, s, e).recover
  {
    match e
    case Propose(m, p) => ProposeKeeps(g, s, m, p, v);
    case Deliver(to, m, p) =>
      if to == g.leader {
        LeaderKeeps(g, s, m, p, v);
      } else {
        OtherKeeps(g, s, to, m, p, v);
      }
    case Execute(at) => ExecuteKeeps(g, s, at, v);
  }

  lemma ProposeKeeps(g: Config, s: Cluster, m: Message, p: Probe, v: Value)
    requires Inv(g, s, v) && Enabled(g, s, Propose(m, p))
    ensures Inv(g, Next(g, s, Propose(m, p)), Settles(g, s, Propose(m, p), v)) && !Do(g, s, Propose(m, p)).recover
  {
  }

  lemma ExecuteKeeps(g: Config, s: Cluster, at: nat, v: Value)
    requires Inv(g, s, v) && Enabled(g, s, Execute(at))
    ensures Inv(g, Next(g, s, Execute(at)), Settles(g, s, Execute(at), v)) && !Do(g, s, Execute(at)).recover
  {
  }

  lemma OtherKeeps(g: Config, s: Cluster, to: nat, m: Message, p: Probe, v: Value)
    requires Inv(g, s, v) && Enabled(g, s, Deliver(to, m, p)) && to != g.leader
    ensures Inv(g, Next(g, s, Deliver(to, m, p)), Settles(g, s, Deliver(to, m, p), v))
    ensures !Do(g, s, Deliver(to, m, p)).recover
  {
    hide Handle;
    OtherStep(g, s.recs[to], m, p);
  }

  lemma LeaderKeeps(g: Config, s: Cluster, m: Message, p: Probe, v: Value)
    requires Inv(g, s, v) && Enabled(g, s, Deliver(g.leader, m, p))
    ensures Inv(g, Next(g, s, Deliver(g.leader, m, p)), Settles(g, s, Deliver(g.leader, m, p), v))
    ensures !Do(g, s, Deliver(g.leader, m, p)).recover
  {
    hide Handle;
    LeaderStep(g, s.recs[g.leader], m, p);
  }

  lemma StartInv(g: Config, v: Value)
    requires g.leader < g.n
    ensures Inv(g, Start(g), v)
  {
  }

  /** In every reachable state there is one value that everything settled carries. */
  lemma {:induction false} RunSingle(g: Config, es: seq<Event>, ss: seq<Cluster>, i: nat) returns (v: Value)
    requires Run(g, es, ss) && i <= |es|
    ensures Inv(g, ss[i], v)
  {
    hide Inv, Settles, Do, Next, Enabled;
    if i == 0 {
      v := (0, EMPTY_DEPS);
      StartInv(g, v);
    } else {
      v := RunSingle(g, es, ss, i - 1);
      assert ss[i - 1 + 1] == Next(g, ss[i - 1], es[i - 1]);
      StepKeeps(g, ss[i - 1], es[i - 1], v);
      v := Settles(g, ss[i - 1], es[i - 1], v);
    }
  }

  lemma {:induction false} SentGrows(g: Config, es: seq<Event>, ss: seq<Cluster>, i: nat, j: nat)
    requires Run(g, es, ss) && i <= j <= |es|
    ensures ss[i].sent <= ss[j].sent
  {
    if i < j {
      SentGrows(g, es, ss, i, j - 1);
      assert ss[j - 1 + 1] == Next(g, ss[j - 1], es[j - 1]);
      hide Do, Enabled;
    }
  }

  /** However messages are lost, repeated and reordered: all ACCEPT, ACCEPT_REPLY and COMMIT
      messages of an instance carry the same sequence number and dependencies, and every
      replica but the leader that has accepted, committed or executed it holds them. */
  lemma Agreement(g: Config, es: seq<Event>, ss: seq<Cluster>, i: nat, m: Message, m': Message, q: nat)
    requires Run(g, es, ss) && i <= |es| && q < g.n && q != g.leader
    requires m in ss[i].sent && Settling(m.kind) && m' in ss[i].sent && Settling(m'.kind)
    ensures ValueOf(m) == ValueOf(m')
    ensures Shaped(g, ss[i])
    ensures Settled(ss[i].recs[q]) ==> Held(ss[i].recs[q]) == ValueOf(m)
  {
    var v := RunSingle(g, es, ss, i);
  }

  /** Two replicas other than the leader never settle different values, and nobody ever has to
      start recovery. */
  lemma ReplicasSettleAlike(g: Config, es: seq<Event>, ss: seq<Cluster>, i: nat, q: nat, q': nat)
    requires Run(g, es, ss) && i <= |es| && q < g.n && q' < g.n && q != g.leader && q' != g.leader
    ensures Shaped(g, ss[i])
    ensures Settled(ss[i].recs[q]) && Settled(ss[i].recs[q']) ==> Held(ss[i].recs[q]) == Held(ss[i].recs[q'])
    ensures i < |es| ==> !Do(g, ss[i], es[i]).recover
  {
    var v := RunSingle(g, es, ss, i);
    if i < |es| {
      StepKeeps(g, ss[i], es[i], v);
    }
  }

  // ---------- the leader's own copy ----------

  /** With two or three replicas one answer decides, so until then no answer was counted and
      answers never carry a number below the leader's. */
  ghost predicate LeaderSeq(g: Config, s: Cluster, v: Value)
    requires Shaped(g, s)
  {
    var r := s.recs[g.leader];
    && (Early(g, s) ==> r.lt.value.preAcceptOks == 0)
    && (r.status == PRE_ACCEPTED ==> forall m :: m in s.sent ==>
          (m.kind.PreAccept? || m.kind.PreAcceptOk? ==> m.seqNo == r.seqNo) &&
          (m.kind.PreAcceptReply? ==> m.seqNo >= r.seqNo))
    && (!Early(g, s) ==> r.seqNo == v.0)
  }

  lemma OtherSeq(g: Config, r: Rec, m: Message, p: Probe)
    requires (ToOthers(m.kind) || m.kind.Commit?) && !m.nack && r.ballot <= m.ballot
    ensures var out := Handle(g, r, m, p);
      && (out.sent.Some? && out.sent.value.kind.PreAcceptOk? ==> m.kind.PreAccept? && out.sent.value.seqNo == m.seqNo)
      && (out.sent.Some? && out.sent.value.kind.PreAcceptReply? ==>
            m.kind.PreAccept? && out.sent.value.seqNo >= m.seqNo)
      && (out.sent.Some? ==> !out.sent.value.kind.PreAccept?)
  {
    hide HasUncommittedDeps, IsInitialBallot;
  }

  lemma SeqStep(g: Config, s: Cluster, e: Event, v: Value)
    requires g.n <= 3 && Inv(g, s, v) && LeaderSeq(g, s, v) && Enabled(g, s, e)
    ensures Shaped(g, Next(g, s, e)) && LeaderSeq(g, Next(g, s, e), Settles(g, s, e, v))
  {
    StepKeeps(g, s, e, v);
    match e
    case Propose(m, p) =>
    case Deliver(to, m, p) =>
      if to == g.leader {
        SeqLeader(g, s, m, p, v);
      } else {
        hide Handle, Single, RecordsOk;
        assert s.recs[to].ballot <= s.recs[g.leader].ballot by { OtherBallot(g, s, to, v); }
        OtherSeq(g, s.recs[to], m, p);
      }
    case Execute(at) =>
  }

  lemma OtherBallot(g: Config, s: Cluster, to: nat, v: Value)
    requires Inv(g, s, v) && to < g.n
    ensures s.recs[to].ballot <= s.recs[g.leader].ballot
  {
  }

  lemma SeqLeader(g: Config, s: Cluster, m: Message, p: Probe, v: Value)
    requires g.n <= 3 && Inv(g, s, v) && LeaderSeq(g, s, v) && Enabled(g, s, Deliver(g.leader, m, p))
    ensures var t, w := Next(g, s, Deliver(g.leader, m, p)), Settles(g, s, Deliver(g.leader, m, p), v);
      Shaped(g, t) && LeaderSeq(g, t, w)
  {
    hide HasUncommittedDeps, MergeDeps;
    LeaderKeeps(g, s, m, p, v);
  }

  lemma {:induction false} RunLeaderSeq(g: Config, es: seq<Event>, ss: seq<Cluster>, i: nat) returns (v: Value)
    requires g.n <= 3 && Run(g, es, ss) && i <= |es|
    ensures Inv(g, ss[i], v) && LeaderSeq(g, ss[i], v)
  {
    hide Inv, Settles, Do, Next, Enabled, LeaderSeq;
    if i == 0 {
      v := (0, EMPTY_DEPS);
      StartInv(g, v);
      StartSeq(g, v);
    } else {
      v := RunLeaderSeq(g, es, ss, i - 1);
      assert ss[i - 1 + 1] == Next(g, ss[i - 1], es[i - 1]);
      StepKeeps(g, ss[i - 1], es[i - 1], v);
      SeqStep(g, ss[i - 1], es[i - 1], v);
      v := Settles(g, ss[i - 1], es[i - 1], v);
    }
  }

  lemma StartSeq(g: Config, v: Value)
    requires g.leader < g.n
    ensures Shaped(g, Start(g)) && LeaderSeq(g, Start(g), v)
  {
  }

  /** With at most three replicas, as configured, the leader's own sequence number is also the
      one that everybody settles. */
  lemma LeaderAgreesOnSeq(g: Config, es: seq<Event>, ss: seq<Cluster>, i: nat, m: Message)
    requires g.n <= 3 && Run(g, es, ss) && i <= |es| && m in ss[i].sent && Settling(m.kind)
    ensures Shaped(g, ss[i]) && ss[i].recs[g.leader].seqNo == m.seqNo
  {
    var v := RunLeaderSeq(g, es, ss, i);
  }

  /** In general the leader keeps the largest number answered but forwards the last answer:
      after a reply the two are equal exactly when the deciding reply's number is a largest one. */
  lemma DecidingSeq(n: nat, r: Rec, m: Message)
    requires r.status == PRE_ACCEPTED && r.lt.Some? && !m.nack && m.kind.PreAcceptReply?
    ensures var out := OnPreAcceptReply(n, r, m);
      out.sent.Some? ==> (out.sent.value.seqNo == out.rec.seqNo <==> m.seqNo >= r.seqNo)
  {
    hide HasUncommittedDeps, MergeDeps;
  }

  /** A PRE_ACCEPT_OK decides in the same way but raises nothing: there the two are equal only
      if they were before. */
  lemma DecidingOkSeq(n: nat, r: Rec, m: Message)
    requires r.status == PRE_ACCEPTED && r.lt.Some? && m.kind.PreAcceptOk?
    ensures var out := OnPreAcceptOk(n, r, m);
      out.sent.Some? ==>
        && (out.sent.value.seqNo == out.rec.seqNo <==> m.seqNo == r.seqNo)
        && (out.sent.value.deps == out.rec.deps <==> m.deps == r.deps)
  {
    hide HasUncommittedDeps;
  }

  /** The leader merges a reply into its own dependencies but forwards the reply's: the copy
      it keeps is the one everybody else settles exactly when every entry it had is pushed
      out, or is in the reply with a flag at least as high and in the same place. */
  lemma DecidingDeps(n: nat, r: Rec, m: Message)
    requires r.status == PRE_ACCEPTED && r.lt.Some? && r.ballot == m.ballot && !m.nack && m.kind.PreAcceptReply?
    requires DepsOk(r.deps) && DepsOk(m.deps)
    ensures var out := OnPreAcceptReply(n, r, m);
      out.sent.Some? ==> (out.sent.value.deps == out.rec.deps <==> Yields(Filled(r.deps), Filled(m.deps)))
  {
    MergeExact(r.deps, m.deps);
    hide HasUncommittedDeps, MergeDeps, DepsOk, Yields, Filled;
  }

  // ---------- what messages carry ----------

  /** Every message carries the instance's id and the command c, and so does every copy that has
      a command at all. */
  ghost predicate Carries(g: Config, s: Cluster, c: Option<Command>)
    requires Shaped(g, s)
  {
    && (forall m :: m in s.sent ==> m.id == g.key && m.command == c)
    && (forall q :: 0 <= q < g.n ==> s.recs[q].command == None || s.recs[q].command == c)
    && (s.recs[g.leader].status != NONE ==> c.Some? && s.recs[g.leader].command == c)
    && (c.Some? ==> s.recs[g.leader].status != NONE)
  }

  lemma HandleCarries(g: Config, r: Rec, m: Message, p: Probe)
    requires ToLeader(m.kind) ==> r.lt.Some?
    requires !m.nack && r.ballot <= m.ballot
    requires ToOthers(m.kind) || ToLeader(m.kind) || m.kind.Commit?
    ensures var out := Handle(g, r, m, p);
      && (out.sent.Some? ==> out.sent.value.id == m.id && out.sent.value.command == m.command)
      && (out.rec.command == r.command || out.rec.command == m.command)
      && (out.rec.status == NONE ==> r.status == NONE) && (ToLeader(m.kind) ==> out.rec.command == r.command)
  {
    hide HasUncommittedDeps, MergeDeps, IsInitialBallot;
  }

  lemma CarriesStep(g: Config, s: Cluster, e: Event, v: Value, c: Option<Command>) returns (d: Option<Command>)
    requires Inv(g, s, v) && Enabled(g, s, e) && Carries(g, s, c)
    ensures Shaped(g, Next(g, s, e)) && Carries(g, Next(g, s, e), d)
    ensures if e.Propose? then c == None && d == e.m.command else d == c
  {
    StepKeeps(g, s, e, v);
    d := if e.Propose? then e.m.command else c;
    if e.Deliver? {
      OtherBallot(g, s, e.to, v);
      HandleCarries(g, s.recs[e.to], e.m, e.p);
      hide Handle;
    }
  }

  /** In every run there is one command: the proposed one is in every message, under the key of
      the instance, and no copy holds another. */
  lemma {:induction false} OneCommand(g: Config, es: seq<Event>, ss: seq<Cluster>, i: nat) returns (c: Option<Command>)
    requires Run(g, es, ss) && i <= |es|
    ensures Shaped(g, ss[i]) && Carries(g, ss[i], c)
    ensures forall k :: 0 <= k < i && es[k].Propose? ==> c == es[k].m.command
  {
    hide Inv, Settles, Do, Next, Enabled, Carries;
    if i == 0 {
      c := None;
      StartCarries(g);
    } else {
      var v := RunSingle(g, es, ss, i - 1);
      var was := OneCommand(g, es, ss, i - 1);
      assert ss[i - 1 + 1] == Next(g, ss[i - 1], es[i - 1]);
      c := CarriesStep(g, ss[i - 1], es[i - 1], v, was);
      ProposedOnce(g, ss[i - 1], es[i - 1], was);
      assert es[i - 1].Propose? ==> forall k :: 0 <= k < i - 1 ==> !es[k].Propose? by {
        NoneBefore(g, es, ss, i - 1, was);
      }
    }
  }

  lemma StartCarries(g: Config)
    requires g.leader < g.n
    ensures Shaped(g, Start(g)) && Carries(g, Start(g), None)
  {
  }

  lemma ProposedOnce(g: Config, s: Cluster, e: Event, c: Option<Command>)
    requires Shaped(g, s) && Enabled(g, s, e) && Carries(g, s, c)
    ensures e.Propose? ==> c == None
  {
  }

  lemma NoneBefore(g: Config, es: seq<Event>, ss: seq<Cluster>, i: nat, c: Option<Command>)
    requires Run(g, es, ss) && i < |es| && (forall k :: 0 <= k < i && es[k].Propose? ==> c == es[k].m.command)
    ensures c == None ==> forall k :: 0 <= k < i ==> !es[k].Propose?
  {
    hide Next, Shaped;
    forall k | 0 <= k < i ensures c == None ==> !es[k].Propose? {
      assert Enabled(g, ss[k], es[k]);
    }
  }

  // ---------- agreements ----------

  /** Event number i makes its replica send a PRE_ACCEPT_OK. */
  ghost predicate AgreesAt(g: Config, es: seq<Event>, ss: seq<Cluster>, i: nat) {
    && i < |es| && i < |ss| && Shaped(g, ss[i]) && Enabled(g, ss[i], es[i])
    && Do(g, ss[i], es[i]).sent.Some? && Do(g, ss[i], es[i]).sent.value.kind.PreAcceptOk?
  }

  /** The copy is not open to another PRE_ACCEPT. */
  ghost predicate ClosedAt(s: Cluster, q: nat) {
    q < |s.recs| && Usual(s.recs[q].status) && s.recs[q].status != NONE && s.recs[q].status != PRE_ACCEPTED
  }

  lemma ClosedCopy(g: Config, r: Rec, m: Message, p: Probe)
    requires (ToOthers(m.kind) || m.kind.Commit?) && !m.nack && Usual(r.status) && r.ballot <= m.ballot
    ensures var out := Handle(g, r, m, p);
      && (r.status != NONE && r.status != PRE_ACCEPTED ==> out.rec.status != NONE && out.rec.status != PRE_ACCEPTED)
      && (out.sent.Some? && out.sent.value.kind.PreAcceptOk? ==>
            (r.status == NONE || r.status == PRE_ACCEPTED) && out.rec.status == PRE_ACCEPTED_EQ)
  {
    hide HasUncommittedDeps, IsInitialBallot;
  }

  lemma AgreesElsewhere(g: Config, s: Cluster, e: Event, v: Value)
    requires Inv(g, s, v) && Enabled(g, s, e)
    ensures var out := Do(g, s, e);
      out.sent.Some? && out.sent.value.kind.PreAcceptOk? ==> At(g, e) != g.leader && At(g, e) < g.n
  {
    if e.Deliver? && e.to == g.leader {
      LeaderStep(g, s.recs[e.to], e.m, e.p);
      hide Handle;
    }
  }

  lemma ClosedStep(g: Config, s: Cluster, e: Event, v: Value, q: nat)
    requires Inv(g, s, v) && Enabled(g, s, e) && q < g.n && q != g.leader
    ensures ClosedAt(s, q) ==> ClosedAt(Next(g, s, e), q)
    ensures var out := Do(g, s, e);
      out.sent.Some? && out.sent.value.kind.PreAcceptOk? ==>
        At(g, e) != g.leader && (At(g, e) == q ==> !ClosedAt(s, q) && ClosedAt(Next(g, s, e), q))
  {
    StepKeeps(g, s, e, v);
    if e.Deliver? {
      OtherBallot(g, s, e.to, v);
      if e.to == g.leader {
        LeaderStep(g, s.recs[e.to], e.m, e.p);
      } else {
        ClosedCopy(g, s.recs[e.to], e.m, e.p);
        OtherStep(g, s.recs[e.to], e.m, e.p);
      }
      hide Handle, Single, MessagesOk;
    }
  }

  lemma {:induction false} ClosedStays(g: Config, es: seq<Event>, ss: seq<Cluster>, i: nat, j: nat, q: nat)
    requires Run(g, es, ss) && i < j <= |es| && q < g.n && q != g.leader && AgreesAt(g, es, ss, i) && At(g, es[i]) == q
    ensures ClosedAt(ss[j], q)
  {
    hide Inv, Do, Next, Enabled, ClosedAt;
    var v := RunSingle(g, es, ss, j - 1);
    assert ss[j - 1 + 1] == Next(g, ss[j - 1], es[j - 1]);
    ClosedStep(g, ss[j - 1], es[j - 1], v, q);
    if i < j - 1 {
      ClosedStays(g, es, ss, i, j - 1, q);
    }
  }

  /** No replica agrees twice, however often the question reaches it. */
  lemma AgreesOnce(g: Config, es: seq<Event>, ss: seq<Cluster>, i: nat, j: nat)
    requires Run(g, es, ss) && i < j && AgreesAt(g, es, ss, i) && AgreesAt(g, es, ss, j)
    ensures At(g, es[i]) != At(g, es[j])
  {
    hide Inv, Do, Next, ClosedAt;
    var v := RunSingle(g, es, ss, j);
    var u := RunSingle(g, es, ss, i);
    AgreesElsewhere(g, ss[i], es[i], u);
    if At(g, es[i]) == At(g, es[j]) {
      ClosedStays(g, es, ss, i, j, At(g, es[i]));
      ClosedStep(g, ss[j], es[j], v, At(g, es[j]));
    }
  }
}
