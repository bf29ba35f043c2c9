/** How many replicas a commit by acceptance rests on: the answers that the leader counts, in
    runs that may lose, repeat and reorder every message. */
module Acceptances {
  import opened CommitRuns
  import opened DepArrays
  import opened Ids
  import opened Instances
  import opened Protocol
  import TarjanStates

  /** The replicas other than the leader that have accepted or gone further. */
  function Accepted(g: Config, c: Cluster): set<nat>
    requires |c.recs| == g.n
  {
    set q | 0 <= q < g.n && q != g.leader && Settled(c.recs[q])
  }

  /** The acceptance that replica q sends for the question a. */
  function Answer(a: Message, q: nat): Message {
    a.(kind := AcceptReply, from := q)
  }

  /** What is accepted stays accepted. */
  lemma AcceptedGrows(g: Config, s: Cluster, e: Event, v: Value)
    requires Inv(g, s, v) && Enabled(g, s, e)
    ensures Shaped(g, Next(g, s, e)) && Accepted(g, s) <= Accepted(g, Next(g, s, e))
  {
    StepKeeps(g, s, e, v);
    if e.Deliver? && e.to != g.leader {
      hide Handle;
      OtherStep(g, s.recs[e.to], e.m, e.p);
    }
  }

  /** Only a counted answer changes the leader's count; only it can ask. */
  lemma LeaderCount(g: Config, s: Cluster, e: Event, v: Value)
    requires Inv(g, s, v) && Enabled(g, s, e)
    ensures Shaped(g, Next(g, s, e))
    ensures var r, t := s.recs[g.leader], Next(g, s, e).recs[g.leader];
      t.lt.value.acceptOks ==
        if e.Deliver? && e.to == g.leader && e.m.kind.AcceptReply? && r.status == ACCEPTED
        then IncByte(r.lt.value.acceptOks) else r.lt.value.acceptOks
    ensures var out := Do(g, s, e);
      out.sent.Some? && out.sent.value.kind.Accept? ==>
        At(g, e) == g.leader && Early(g, s) && !Early(g, Next(g, s, e))
    ensures !Early(g, s) ==> !Early(g, Next(g, s, e))
  {
    hide HasUncommittedDeps, MergeDeps;
    StepKeeps(g, s, e, v);
    if e.Deliver? && e.to != g.leader {
      hide Handle;
      OtherStep(g, s.recs[e.to], e.m, e.p);
    }
  }

  /** An acceptance is only ever sent in answer to a question, by a replica that accepts. */
  lemma AnswersAsked(g: Config, s: Cluster, e: Event, v: Value)
    requires Inv(g, s, v) && Enabled(g, s, e)
    requires Do(g, s, e).sent.Some? && Do(g, s, e).sent.value.kind.AcceptReply?
    ensures e.Deliver? && e.to != g.leader && e.m.kind.Accept?
    ensures Do(g, s, e).sent.value.(from := At(g, e)) == Answer(e.m, e.to) && Settled(Do(g, s, e).rec)
  {
    hide HasUncommittedDeps, MergeDeps;
  }

  /** Every replica but the leader that has settled, holds v. */
  ghost predicate AllHold(g: Config, c: Cluster, v: Value)
    requires Shaped(g, c)
  {
    forall q :: 0 <= q < g.n && q != g.leader && Settled(c.recs[q]) ==> Held(c.recs[q]) == v
  }

  // ---------- the answers counted ----------

  /** The event brings the leader an acceptance that it counts. */
  predicate CountsAnswer(g: Config, s: Cluster, e: Event) {
    Shaped(g, s) && e.Deliver? && e.to == g.leader && e.m.kind.AcceptReply? && s.recs[g.leader].status == ACCEPTED
  }

  /** Who sent the acceptances counted in the first i events, once for each of them. */
  function Senders(g: Config, es: seq<Event>, ss: seq<Cluster>, i: nat): seq<nat>
    requires i <= |es| && i <= |ss|
  {
    if i == 0 then []
    else
      Senders(g, es, ss, i - 1) + (if CountsAnswer(g, ss[i - 1], es[i - 1]) then [es[i - 1].m.from] else [])
  }

  /** No replica was counted twice. */
  ghost predicate Different(xs: seq<nat>) {
    forall a, b :: 0 <= a < b < |xs| ==> xs[a] != xs[b]
  }

  /** The different ones among them. */
  ghost function Heard(xs: seq<nat>): set<nat> {
    TarjanStates.Elements(xs)
  }

  lemma {:induction false} HeardSize(xs: seq<nat>)
    ensures |Heard(xs)| <= |xs| && (|Heard(xs)| == |xs| <==> Different(xs))
  {
    if xs != [] {
      var rest := xs[1..];
      HeardSize(rest);
      assert Heard(xs) == {xs[0]} + Heard(rest);
      if xs[0] in rest {
        var b :| 0 <= b < |rest| && rest[b] == xs[0];
        assert xs[b + 1] == xs[0];
        assert Heard(xs) == Heard(rest);
      } else {
        assert |Heard(xs)| == 1 + |Heard(rest)|;
        assert forall a :: 0 <= a < |rest| ==> rest[a] == xs[a + 1];
        assert Different(xs) <==> Different(rest) by { DifferentRest(xs); }
      }
    }
  }

  lemma DifferentRest(xs: seq<nat>)
    requires xs != [] && xs[0] !in xs[1..]
    ensures Different(xs) <==> Different(xs[1..])
  {
    var rest := xs[1..];
    assert forall a :: 0 < a < |xs| ==> xs[a] == rest[a - 1];
  }

  /** Every acceptance sent comes from a replica that accepted; the counted ones are xs, and
      the leader's byte holds their number. */
  ghost predicate Tally(g: Config, s: Cluster, xs: seq<nat>)
    requires Shaped(g, s)
  {
    var r := s.recs[g.leader];
    && (forall m :: m in s.sent && m.kind.AcceptReply? ==> m.from in Accepted(g, s))
    && Heard(xs) <= Accepted(g, s)
    && r.lt.value.acceptOks == |xs| % BYTE
    && (Early(g, s) ==> xs == [])
    && (r.status == ACCEPTED && 2 <= g.n && g.n / 2 < BYTE ==> |xs| < g.n / 2)
  }

  /** What a leader does with an answer to its question, and how else it comes to ask. */
  lemma LeaderTally(g: Config, r: Rec, m: Message, p: Probe)
    requires (ToLeader(m.kind) || m.kind.Commit?) && !m.nack && Usual(r.status) && r.ballot == m.ballot && r.lt.Some?
    ensures var t := Handle(g, r, m, p).rec;
      && (r.status == ACCEPTED && m.kind.AcceptReply? ==>
            t.lt.Some? && t.status == if t.lt.value.acceptOks + 1 > g.n / 2 then COMMITTED else ACCEPTED)
      && (t.status == ACCEPTED ==> r.status == ACCEPTED || r.status == PRE_ACCEPTED)
  {
    hide HasUncommittedDeps, MergeDeps;
  }

  /** What an event does to the leader's status and count. */
  lemma LeaderMoves(g: Config, s: Cluster, e: Event, v: Value)
    requires Inv(g, s, v) && Enabled(g, s, e)
    ensures Shaped(g, Next(g, s, e))
    ensures var r, t := s.recs[g.leader], Next(g, s, e).recs[g.leader];
      && (CountsAnswer(g, s, e) ==>
            t.status == if t.lt.value.acceptOks + 1 > g.n / 2 then COMMITTED else ACCEPTED)
      && (t.status == ACCEPTED ==> r.status == ACCEPTED || r.status == PRE_ACCEPTED)
  {
    StepKeeps(g, s, e, v);
    if e.Deliver? && e.to == g.leader {
      LeaderTally(g, s.recs[g.leader], e.m, e.p);
      hide Handle;
    }
  }

  lemma TallyStep(g: Config, s: Cluster, e: Event, v: Value, xs: seq<nat>)
    requires Inv(g, s, v) && Enabled(g, s, e) && Tally(g, s, xs)
    ensures var t, ys := Next(g, s, e), xs + (if CountsAnswer(g, s, e) then [e.m.from] else []);
      Shaped(g, t) && Tally(g, t, ys)
  {
    AcceptedGrows(g, s, e, v);
    LeaderCount(g, s, e, v);
    LeaderMoves(g, s, e, v);
    TallySent(g, s, e, v, xs);
    hide Next, Do, Inv, Accepted, Heard, IncByte;
    CountNext(s.recs[g.leader].lt.value.acceptOks, |xs|, g.n / 2);
    HeardNext(xs, if CountsAnswer(g, s, e) then [e.m.from] else []);
  }

  /** The byte goes on counting, and below its limit the count stays below the half that commits. */
  lemma CountNext(oks: Byte, k: nat, half: nat)
    requires oks == k % BYTE
    ensures IncByte(oks) == (k + 1) % BYTE
    ensures k < half < BYTE && IncByte(oks) + 1 <= half ==> k + 1 < half
  {
  }

  lemma HeardNext(xs: seq<nat>, more: seq<nat>)
    ensures Heard(xs + more) == Heard(xs) + Heard(more)
    ensures Heard([]) == {} && forall x :: Heard([x]) == {x}
  {
  }

  /** The acceptances sent after an event are of replicas that accepted. */
  lemma TallySent(g: Config, s: Cluster, e: Event, v: Value, xs: seq<nat>)
    requires Inv(g, s, v) && Enabled(g, s, e) && Tally(g, s, xs)
    ensures var t := Next(g, s, e);
      Shaped(g, t) && forall m :: m in t.sent && m.kind.AcceptReply? ==> m.from in Accepted(g, t)
  {
    AcceptedGrows(g, s, e, v);
    if Do(g, s, e).sent.Some? && Do(g, s, e).sent.value.kind.AcceptReply? {
      AnswersAsked(g, s, e, v);
    }
    hide Do, Enabled, Inv;
  }

  lemma {:induction false} RunTally(g: Config, es: seq<Event>, ss: seq<Cluster>, i: nat) returns (v: Value)
    requires Run(g, es, ss) && i <= |es|
    ensures Inv(g, ss[i], v) && Tally(g, ss[i], Senders(g, es, ss, i))
  {
    hide Inv, Settles, Do, Next, Enabled, Tally, CountsAnswer;
    if i == 0 {
      v := (0, EMPTY_DEPS);
      StartInv(g, v);
      StartTally(g);
    } else {
      v := RunTally(g, es, ss, i - 1);
      assert ss[i - 1 + 1] == Next(g, ss[i - 1], es[i - 1]);
      StepKeeps(g, ss[i - 1], es[i - 1], v);
      TallyStep(g, ss[i - 1], es[i - 1], v, Senders(g, es, ss, i - 1));
      v := Settles(g, ss[i - 1], es[i - 1], v);
    }
  }

  lemma StartTally(g: Config)
    requires g.leader < g.n
    ensures Shaped(g, Start(g)) && Tally(g, Start(g), [])
  {
  }

  /** Event number i commits because of the acceptance it brings. */
  ghost predicate CommitsAt(g: Config, es: seq<Event>, ss: seq<Cluster>, i: nat) {
    && i < |es| && i + 1 < |ss| && CountsAnswer(g, ss[i], es[i])
    && Shaped(g, ss[i + 1]) && ss[i + 1].recs[g.leader].status == COMMITTED
  }

  /** However messages are repeated: if no replica was counted twice, a leader that commits
      because of acceptances has at least half of the replica count, so with itself a majority,
      holding as accepted the very value it commits. */
  lemma DifferentMajority(g: Config, es: seq<Event>, ss: seq<Cluster>, i: nat)
    requires Run(g, es, ss) && CommitsAt(g, es, ss, i) && Different(Senders(g, es, ss, i + 1))
    ensures |Accepted(g, ss[i + 1])| >= g.n / 2 && 2 * (|Accepted(g, ss[i + 1])| + 1) > g.n
    ensures AllHold(g, ss[i + 1], ValueOf(es[i].m))
  {
    hide Senders;
    CommitTally(g, es, ss, i);
    HeardSize(Senders(g, es, ss, i + 1));
    TarjanStates.SubsetSize(Heard(Senders(g, es, ss, i + 1)), Accepted(g, ss[i + 1]));
  }

  /** What is counted when the leader commits. */
  lemma CommitTally(g: Config, es: seq<Event>, ss: seq<Cluster>, i: nat)
    requires Run(g, es, ss) && CommitsAt(g, es, ss, i)
    ensures AllHold(g, ss[i + 1], ValueOf(es[i].m))
    ensures Heard(Senders(g, es, ss, i + 1)) <= Accepted(g, ss[i + 1])
    ensures |Senders(g, es, ss, i + 1)| >= g.n / 2 && (g.n / 2 < BYTE ==> |Senders(g, es, ss, i + 1)| == g.n / 2)
  {
    var v := RunTally(g, es, ss, i);
    var u := RunTally(g, es, ss, i + 1);
    assert ss[i + 1] == Next(g, ss[i], es[i]);
    CommitCount(g, ss[i], es[i], v);
    CommitValue(g, ss[i], es[i], u);
    CommitSender(g, ss[i], es[i], v, Senders(g, es, ss, i));
  }

  /** Up to the limit of the byte: the different replicas that a commit by acceptance has heard
      number half of the replica count exactly when none of them was counted twice; else there
      are fewer. */
  lemma HeardExact(g: Config, es: seq<Event>, ss: seq<Cluster>, i: nat)
    requires Run(g, es, ss) && CommitsAt(g, es, ss, i) && g.n / 2 < BYTE
    ensures |Heard(Senders(g, es, ss, i + 1))| <= g.n / 2
    ensures |Heard(Senders(g, es, ss, i + 1))| == g.n / 2 <==> Different(Senders(g, es, ss, i + 1))
  {
    hide Senders;
    CommitTally(g, es, ss, i);
    HeardSize(Senders(g, es, ss, i + 1));
  }

  lemma CommitCount(g: Config, s: Cluster, e: Event, v: Value)
    requires Inv(g, s, v) && Enabled(g, s, e) && CountsAnswer(g, s, e)
    requires Shaped(g, Next(g, s, e)) && Next(g, s, e).recs[g.leader].status == COMMITTED
    ensures Next(g, s, e).recs[g.leader].lt.value.acceptOks + 1 > g.n / 2
  {
    LeaderMoves(g, s, e, v);
    hide Next, Inv;
  }

  lemma CommitValue(g: Config, s: Cluster, e: Event, u: Value)
    requires Shaped(g, s) && Enabled(g, s, e) && CountsAnswer(g, s, e) && Inv(g, Next(g, s, e), u)
    ensures AllHold(g, Next(g, s, e), ValueOf(e.m))
  {
    hide Do;
    assert e.m in s.sent && e.m in Next(g, s, e).sent;
  }

  /** There is a replica besides the leader. */
  lemma CommitSender(g: Config, s: Cluster, e: Event, v: Value, xs: seq<nat>)
    requires Inv(g, s, v) && Enabled(g, s, e) && CountsAnswer(g, s, e) && Tally(g, s, xs)
    ensures 2 <= g.n && (g.n / 2 < BYTE ==> |xs| < g.n / 2)
  {
    assert e.m.from in Accepted(g, s);
  }
}
