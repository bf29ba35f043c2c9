/** Runs in which the network delivers no message twice: a commit by acceptance then rests on
    a majority of the replicas. */
module Quorums {
  import opened Acceptances
  import opened CommitRuns
  import opened DepArrays
  import opened Ids
  import opened Instances
  import opened Options
  import opened Protocol
  import TarjanStates

  /** One copy of a message on its way to a replica. */
  datatype Packet = Packet(to: nat, m: Message)

  /** A cluster with the copies under way, the ACCEPT that the leader sent, if any, and the
      replicas whose acceptance it has counted. */
  datatype Exact = Exact(c: Cluster, packets: multiset<Packet>, asked: Option<Message>, counted: set<nat>)

  datatype Move =
    | Local(e: Event)
    | Receive(k: Packet, p: Probe)
    | Lose(k: Packet)

  function StartExact(g: Config): Exact {
    Exact(Start(g), multiset{}, None, {})
  }

  /** One copy for each of the first k replicas that the message is routed to. */
  function Copies(g: Config, m: Message, k: nat): multiset<Packet>
    requires k <= g.n
  {
    if k == 0 then multiset{}
    else Copies(g, m, k - 1) + (if Routed(g, k - 1, m.kind) then multiset{Packet(k - 1, m)} else multiset{})
  }

  predicate CanMove(g: Config, s: Exact, v: Move)
    requires Shaped(g, s.c)
  {
    match v
    case Local(e) => !e.Deliver? && Enabled(g, s.c, e)
    case Receive(k, p) => k in s.packets && Enabled(g, s.c, Deliver(k.to, k.m, p))
    case Lose(k) => k in s.packets
  }

  function EventOf(v: Move): Event
    requires !v.Lose?
  {
    match v
    case Local(e) => e
    case Receive(k, p) => Deliver(k.to, k.m, p)
  }

  /** The leader counts this answer. */
  predicate Counts(g: Config, s: Exact, v: Move)
    requires Shaped(g, s.c)
  {
    v.Receive? && CountsAnswer(g, s.c, EventOf(v))
  }

  function Moved(g: Config, s: Exact, v: Move): Exact
    requires Shaped(g, s.c) && CanMove(g, s, v)
  {
    if v.Lose? then s.(packets := s.packets - multiset{v.k})
    else
      var e := EventOf(v);
      var out := Do(g, s.c, e);
      var left := if v.Receive? then s.packets - multiset{v.k} else s.packets;
      var counted := if Counts(g, s, v) then s.counted + {v.k.m.from} else s.counted;
      if out.sent.None? then Exact(Next(g, s.c, e), left, s.asked, counted)
      else
        var m := out.sent.value.(from := At(g, e));
        Exact(Next(g, s.c, e), left + Copies(g, m, g.n), if m.kind.Accept? then Some(m) else s.asked, counted)
  }

  /** The chances left for q's acceptance to be counted, and those used. */
  function Tokens(g: Config, s: Exact, a: Message, q: nat): nat {
    s.packets[Packet(q, a)] + s.packets[Packet(g.leader, Answer(a, q))] + (if q in s.counted then 1 else 0)
  }

  ghost predicate PacketsOk(g: Config, s: Exact)
    requires Shaped(g, s.c)
  {
    forall k :: k in s.packets ==>
      && k.m in s.c.sent && Routed(g, k.to, k.m.kind)
      && (k.m.kind.Accept? ==> s.asked == Some(k.m))
      && (k.m.kind.AcceptReply? ==>
            s.asked.Some? && k.m == Answer(s.asked.value, k.m.from) && k.m.from in Accepted(g, s.c))
  }

  ghost predicate CountOk(g: Config, s: Exact)
    requires Shaped(g, s.c)
  {
    && s.counted <= Accepted(g, s.c)
    && (s.asked.Some? ==> s.asked.value.kind.Accept? && !Early(g, s.c))
    && (s.asked.Some? ==> forall q :: 0 <= q < g.n && q != g.leader ==> Tokens(g, s, s.asked.value, q) <= 1)
    && (s.asked.None? ==> s.counted == {})
    && s.c.recs[g.leader].lt.value.acceptOks <= |s.counted|
  }

  ghost predicate ExactInv(g: Config, s: Exact, v: Value) {
    Inv(g, s.c, v) && PacketsOk(g, s) && CountOk(g, s)
  }

  ghost predicate ExactRun(g: Config, vs: seq<Move>, ss: seq<Exact>) {
    && |ss| == |vs| + 1 && g.leader < g.n && ss[0] == StartExact(g)
    && forall i :: 0 <= i < |vs| ==>
         Shaped(g, ss[i].c) && CanMove(g, ss[i], vs[i]) && ss[i + 1] == Moved(g, ss[i], vs[i])
  }

  lemma {:induction false} CopiesCount(g: Config, m: Message, k: nat, x: Packet)
    requires k <= g.n
    ensures Copies(g, m, k)[x] == (if x.m == m && x.to < k && Routed(g, x.to, m.kind) then 1 else 0)
  {
    if k > 0 {
      CopiesCount(g, m, k - 1, x);
    }
  }

  lemma CopiesAll(g: Config, m: Message)
    ensures forall x :: Copies(g, m, g.n)[x] == (if x.m == m && Routed(g, x.to, m.kind) then 1 else 0)
  {
    forall x ensures Copies(g, m, g.n)[x] == (if x.m == m && Routed(g, x.to, m.kind) then 1 else 0) {
      CopiesCount(g, m, g.n, x);
    }
  }

  lemma LoseKeeps(g: Config, s: Exact, k: Packet, v: Value)
    requires ExactInv(g, s, v) && CanMove(g, s, Lose(k))
    ensures ExactInv(g, Moved(g, s, Lose(k)), v)
  {
    var t := Moved(g, s, Lose(k));
    hide Inv;
    if s.asked.Some? {
      forall q | 0 <= q < g.n && q != g.leader ensures Tokens(g, t, s.asked.value, q) <= 1 {
        assert Tokens(g, t, s.asked.value, q) <= Tokens(g, s, s.asked.value, q);
      }
    }
  }

  /** The copies under way after a move. */
  lemma PacketsKeep(g: Config, s: Exact, w: Move, v: Value)
    requires ExactInv(g, s, v) && CanMove(g, s, w) && !w.Lose?
    ensures Shaped(g, Moved(g, s, w).c) && PacketsOk(g, Moved(g, s, w))
  {
    var e, t := EventOf(w), Moved(g, s, w);
    AcceptedGrows(g, s.c, e, v);
    LeaderCount(g, s.c, e, v);
    var out := Do(g, s.c, e);
    if out.sent.Some? {
      NewPackets(g, s, w, v);
      CopiesAll(g, out.sent.value.(from := At(g, e)));
    }
    hide Inv, Enabled, Do, Copies, Tokens, Early, Counts;
    forall k | k in t.packets
      ensures k.m in t.c.sent && Routed(g, k.to, k.m.kind)
      ensures k.m.kind.Accept? ==> t.asked == Some(k.m)
      ensures k.m.kind.AcceptReply? ==>
        t.asked.Some? && k.m == Answer(t.asked.value, k.m.from) && k.m.from in Accepted(g, t.c)
    {
      if k in s.packets {
        OldPacket(g, s, w, v, k);
      }
    }
  }

  /** A copy that was under way is still in order. */
  lemma OldPacket(g: Config, s: Exact, w: Move, v: Value, k: Packet)
    requires ExactInv(g, s, v) && CanMove(g, s, w) && !w.Lose? && k in s.packets
    ensures var t := Moved(g, s, w);
      && Shaped(g, t.c) && k.m in t.c.sent && Routed(g, k.to, k.m.kind)
      && (k.m.kind.Accept? ==> t.asked == Some(k.m))
      && (k.m.kind.AcceptReply? ==>
            t.asked.Some? && k.m == Answer(t.asked.value, k.m.from) && k.m.from in Accepted(g, t.c))
  {
    AcceptedGrows(g, s.c, EventOf(w), v);
    if s.asked.Some? {
      AskedStays(g, s, w, v);
    }
    hide Inv, Enabled, Do, Copies, Tokens, Early, Counts;
  }

  /** So are the copies of the message that a move sends. */
  lemma NewPackets(g: Config, s: Exact, w: Move, v: Value)
    requires ExactInv(g, s, v) && CanMove(g, s, w) && !w.Lose? && Do(g, s.c, EventOf(w)).sent.Some?
    ensures var m, t := Do(g, s.c, EventOf(w)).sent.value.(from := At(g, EventOf(w))), Moved(g, s, w);
      && Shaped(g, t.c) && m in t.c.sent
      && (m.kind.Accept? ==> t.asked == Some(m))
      && (m.kind.AcceptReply? ==> t.asked.Some? && m == Answer(t.asked.value, m.from) && m.from in Accepted(g, t.c))
  {
    var e := EventOf(w);
    AcceptedGrows(g, s.c, e, v);
    if Do(g, s.c, e).sent.value.kind.AcceptReply? {
      AnswersAsked(g, s.c, e, v);
    }
    hide Inv, Enabled, Do, Copies, Tokens, Early, Counts;
  }

  /** What a move does to the bookkeeping, given what the cluster does. */
  ghost predicate Parts(g: Config, s: Exact, w: Move, t: Exact, out: Out)
    requires Shaped(g, s.c) && !w.Lose?
  {
    && t.counted == (if Counts(g, s, w) then s.counted + {w.k.m.from} else s.counted)
    && (out.sent.None? || !out.sent.value.kind.Accept? ==> t.asked == s.asked)
    && t.packets ==
         (if w.Receive? then s.packets - multiset{w.k} else s.packets) +
         (if out.sent.None? then multiset{} else Copies(g, out.sent.value.(from := At(g, EventOf(w))), g.n))
  }

  lemma MovedParts(g: Config, s: Exact, w: Move)
    requires Shaped(g, s.c) && CanMove(g, s, w) && !w.Lose?
    ensures Parts(g, s, w, Moved(g, s, w), Do(g, s.c, EventOf(w)))
    ensures Moved(g, s, w).c == Next(g, s.c, EventOf(w))
    ensures w.Receive? ==> w.k in s.packets
  {
    hide Do, Enabled, Copies, Next;
  }

  /** Once a question a is out, a move gives no replica a second chance to be counted. */
  lemma TokensKeep(g: Config, s: Exact, w: Move, t: Exact, out: Out, a: Message, q: nat)
    requires g.leader < g.n && q < g.n && q != g.leader && Shaped(g, s.c) && !w.Lose?
    requires s.asked == Some(a) && a.kind.Accept?
    requires Parts(g, s, w, t, out) && (w.Receive? ==> w.k in s.packets)
    requires out.sent.Some? ==> !out.sent.value.kind.Accept?
    requires out.sent.Some? && out.sent.value.kind.AcceptReply? ==>
      && w.Receive? && w.k == Packet(At(g, EventOf(w)), a)
      && out.sent.value.(from := At(g, EventOf(w))) == Answer(a, w.k.to)
    requires Counts(g, s, w) ==> w.k == Packet(g.leader, Answer(a, w.k.m.from)) && w.k.m.from !in s.counted
    ensures Tokens(g, t, a, q) <= Tokens(g, s, a, q)
  {
    hide Copies;
    if out.sent.Some? {
      CopiesAll(g, out.sent.value.(from := At(g, EventOf(w))));
    }
  }

  /** The side conditions of TokensKeep. */
  lemma TokensFacts(g: Config, s: Exact, w: Move, v: Value)
    requires ExactInv(g, s, v) && CanMove(g, s, w) && !w.Lose? && s.asked.Some?
    ensures var out := Do(g, s.c, EventOf(w));
      && (out.sent.Some? ==> !out.sent.value.kind.Accept?)
      && (out.sent.Some? && out.sent.value.kind.AcceptReply? ==>
            && w.Receive? && w.k == Packet(At(g, EventOf(w)), s.asked.value)
            && out.sent.value.(from := At(g, EventOf(w))) == Answer(s.asked.value, w.k.to))
      && (Counts(g, s, w) ==> w.k == Packet(g.leader, Answer(s.asked.value, w.k.m.from)) && w.k.m.from !in s.counted)
  {
    var e := EventOf(w);
    hide Inv, Enabled, Copies, Next, Moved, Parts;
    LeaderCount(g, s.c, e, v);
    if Do(g, s.c, e).sent.Some? && Do(g, s.c, e).sent.value.kind.AcceptReply? {
      AnswersAsked(g, s.c, e, v);
      QuestionKnown(g, s, w, v);
    }
    if Counts(g, s, w) {
      CountedOnce(g, s, w, v);
      QuestionKnown(g, s, w, v);
    }
    hide Do;
  }

  /** The question that an acceptance answers is the one the leader asked. */
  lemma QuestionKnown(g: Config, s: Exact, w: Move, v: Value)
    requires ExactInv(g, s, v) && CanMove(g, s, w) && w.Receive?
    ensures w.k.m.kind.Accept? ==> s.asked == Some(w.k.m)
    ensures w.k.m.kind.AcceptReply? ==> s.asked.Some? && w.k.m == Answer(s.asked.value, w.k.m.from)
  {
    hide Inv, Enabled;
  }

  /** A fresh question gives every other replica one chance. */
  lemma TokensAsked(g: Config, s: Exact, w: Move, v: Value, q: nat)
    requires ExactInv(g, s, v) && CanMove(g, s, w) && !w.Lose? && q < g.n && q != g.leader
    requires s.asked.None? && Moved(g, s, w).asked.Some?
    ensures Moved(g, s, w).asked.value.kind.Accept? && !Early(g, Moved(g, s, w).c)
    ensures Tokens(g, Moved(g, s, w), Moved(g, s, w).asked.value, q) <= 1
  {
    var e, t := EventOf(w), Moved(g, s, w);
    LeaderCount(g, s.c, e, v);
    var m := Do(g, s.c, e).sent.value.(from := At(g, e));
    CopiesAll(g, m);
    hide Inv, Enabled, Do, Copies, Next;
  }

  lemma CountKeeps(g: Config, s: Exact, w: Move, v: Value)
    requires ExactInv(g, s, v) && CanMove(g, s, w) && !w.Lose?
    ensures Shaped(g, Moved(g, s, w).c) && CountOk(g, Moved(g, s, w))
  {
    var e, t := EventOf(w), Moved(g, s, w);
    hide Inv, Enabled, Do, Copies, Tokens, PacketsOk, Next, Early, Moved, Parts;
    AcceptedGrows(g, s.c, e, v);
    LeaderCount(g, s.c, e, v);
    MovedParts(g, s, w);
    if s.asked.Some? {
      AskedStays(g, s, w, v);
      TokensFacts(g, s, w, v);
      forall q | 0 <= q < g.n && q != g.leader ensures Tokens(g, t, s.asked.value, q) <= 1 {
        TokensKeep(g, s, w, t, Do(g, s.c, e), s.asked.value, q);
      }
    } else if t.asked.Some? {
      AskedNow(g, s, w, v);
      forall q | 0 <= q < g.n && q != g.leader ensures Tokens(g, t, t.asked.value, q) <= 1 {
        TokensAsked(g, s, w, v, q);
      }
    }
    CountedKeep(g, s, w, v, t, Do(g, s.c, e));
  }

  lemma AskedNow(g: Config, s: Exact, w: Move, v: Value)
    requires ExactInv(g, s, v) && CanMove(g, s, w) && !w.Lose? && s.asked.None? && Moved(g, s, w).asked.Some?
    ensures Moved(g, s, w).asked.value.kind.Accept? && !Early(g, Moved(g, s, w).c)
  {
    LeaderCount(g, s.c, EventOf(w), v);
    hide Inv, Enabled, Do, Copies, Next;
  }

  /** The leader's byte count never exceeds the number of replicas it has counted, all of which
      have accepted; it falls short once it has wrapped. */
  lemma CountedKeep(g: Config, s: Exact, w: Move, v: Value, t: Exact, out: Out)
    requires ExactInv(g, s, v) && Shaped(g, s.c) && CanMove(g, s, w) && !w.Lose?
    requires Parts(g, s, w, t, out) && Shaped(g, t.c) && Accepted(g, s.c) <= Accepted(g, t.c)
    requires s.asked.Some? ==> t.asked == s.asked
    requires var was := s.c.recs[g.leader].lt.value.acceptOks;
      t.c.recs[g.leader].lt.value.acceptOks == (if Counts(g, s, w) then IncByte(was) else was)
    ensures t.counted <= Accepted(g, t.c) && t.c.recs[g.leader].lt.value.acceptOks <= |t.counted|
    ensures t.asked.None? ==> t.counted == {}
  {
    hide Inv, Enabled, Copies, Tokens, PacketsOk;
    if Counts(g, s, w) {
      CountedOnce(g, s, w, v);
      TarjanStates.SubsetSize(s.counted + {w.k.m.from}, Accepted(g, s.c));
    }
  }

  lemma AskedStays(g: Config, s: Exact, w: Move, v: Value)
    requires ExactInv(g, s, v) && CanMove(g, s, w) && !w.Lose? && s.asked.Some?
    ensures Moved(g, s, w).asked == s.asked
  {
    LeaderCount(g, s.c, EventOf(w), v);
    hide Inv, Enabled, Do, Copies, Next;
  }

  /** A counted answer comes from a replica that has accepted and was not counted before. */
  lemma CountedOnce(g: Config, s: Exact, w: Move, v: Value)
    requires ExactInv(g, s, v) && CanMove(g, s, w) && Counts(g, s, w)
    ensures w.k.m.from in Accepted(g, s.c) && w.k.m.from !in s.counted && s.asked.Some?
  {
    hide Inv, Enabled, Do;
    var q := w.k.m.from;
    assert w.k == Packet(g.leader, Answer(s.asked.value, q));
    assert Tokens(g, s, s.asked.value, q) <= 1;
  }

  lemma MoveKeeps(g: Config, s: Exact, w: Move, v: Value) returns (u: Value)
    requires ExactInv(g, s, v) && CanMove(g, s, w)
    ensures ExactInv(g, Moved(g, s, w), u)
  {
    if w.Lose? {
      LoseKeeps(g, s, w.k, v);
      u := v;
    } else {
      u := Settles(g, s.c, EventOf(w), v);
      StepKeeps(g, s.c, EventOf(w), v);
      PacketsKeep(g, s, w, v);
      CountKeeps(g, s, w, v);
      hide Inv, Enabled, Do, Copies, Tokens, PacketsOk, CountOk, Next;
    }
  }

  lemma StartExactInv(g: Config, v: Value)
    requires g.leader < g.n
    ensures ExactInv(g, StartExact(g), v)
  {
    StartInv(g, v);
  }

  lemma {:induction false} ExactRunInv(g: Config, vs: seq<Move>, ss: seq<Exact>, i: nat) returns (v: Value)
    requires ExactRun(g, vs, ss) && i <= |vs|
    ensures ExactInv(g, ss[i], v)
  {
    hide ExactInv, CanMove, Moved;
    if i == 0 {
      v := (0, EMPTY_DEPS);
      StartExactInv(g, v);
    } else {
      v := ExactRunInv(g, vs, ss, i - 1);
      assert ss[i - 1 + 1] == Moved(g, ss[i - 1], vs[i - 1]);
      v := MoveKeeps(g, ss[i - 1], vs[i - 1], v);
    }
  }

  // ---------- seen as a run that may repeat messages ----------

  /** The event of a move, if it has one. */
  function Seen(vs: seq<Move>): (os: seq<Option<Event>>)
    ensures |os| == |vs| && forall i :: 0 <= i < |vs| ==> os[i] == if vs[i].Lose? then None else Some(EventOf(vs[i]))
  {
    if vs == [] then []
    else Seen(vs[..|vs| - 1]) + [if vs[|vs| - 1].Lose? then None else Some(EventOf(vs[|vs| - 1]))]
  }

  function Clusters(ss: seq<Exact>): (cs: seq<Cluster>)
    ensures |cs| == |ss| && forall i :: 0 <= i < |ss| ==> cs[i] == ss[i].c
  {
    if ss == [] then [] else Clusters(ss[..|ss| - 1]) + [ss[|ss| - 1].c]
  }

  lemma SeenStutters(g: Config, vs: seq<Move>, ss: seq<Exact>)
    requires ExactRun(g, vs, ss)
    ensures Stutters(g, Seen(vs), Clusters(ss))
  {
    hide Shaped, Enabled, Next, Do, Copies;
  }

  /** The replicas counted in the first k events are those of counted, none of them twice. */
  ghost predicate CountedAs(g: Config, es: seq<Event>, cs: seq<Cluster>, k: nat, counted: set<nat>) {
    k <= |es| < |cs| && Heard(Senders(g, es, cs, k)) == counted && Different(Senders(g, es, cs, k))
  }

  /** Where no packet is received twice, the replicas counted are those of the bookkeeping, and
      none is counted twice. */
  lemma {:induction false} SeenSenders(g: Config, vs: seq<Move>, ss: seq<Exact>, i: nat)
    requires ExactRun(g, vs, ss) && i <= |vs|
    ensures Stutters(g, Seen(vs), Clusters(ss))
    ensures CountedAs(g, Picked(Seen(vs)), Kept(Seen(vs), Clusters(ss)), |Picked(Seen(vs)[..i])|, ss[i].counted)
  {
    hide Stutters, ExactInv, CanMove, Moved, CountedAs, Picked, Kept;
    var os, cs := Seen(vs), Clusters(ss);
    SeenStutters(g, vs, ss);
    if i == 0 {
      SeenStart(g, vs, ss);
    } else {
      SeenSenders(g, vs, ss, i - 1);
      PickedAt(g, os, cs, i - 1);
      assert ss[i - 1 + 1] == Moved(g, ss[i - 1], vs[i - 1]);
      var v := ExactRunInv(g, vs, ss, i - 1);
      SendersStep(g, ss[i - 1], vs[i - 1], v, Picked(os), Kept(os, cs), |Picked(os[..i - 1])|);
    }
  }

  lemma SeenStart(g: Config, vs: seq<Move>, ss: seq<Exact>)
    requires ExactRun(g, vs, ss) && Stutters(g, Seen(vs), Clusters(ss))
    ensures CountedAs(g, Picked(Seen(vs)), Kept(Seen(vs), Clusters(ss)), |Picked(Seen(vs)[..0])|, ss[0].counted)
  {
    hide Stutters, CanMove, Moved;
    PickedAt(g, Seen(vs), Clusters(ss), 0);
    assert ss[0] == StartExact(g);
  }

  lemma SendersStep(g: Config, s: Exact, w: Move, v: Value, es: seq<Event>, cs: seq<Cluster>, k: nat)
    requires ExactInv(g, s, v) && CanMove(g, s, w) && CountedAs(g, es, cs, k, s.counted)
    requires !w.Lose? ==> k < |es| && es[k] == EventOf(w) && cs[k] == s.c
    ensures CountedAs(g, es, cs, if w.Lose? then k else k + 1, Moved(g, s, w).counted)
  {
    hide Inv, Enabled, Do, Next, Copies, PacketsOk, CountOk;
    if !w.Lose? && CountsAnswer(g, s.c, EventOf(w)) {
      CountedOnce(g, s, w, v);
    }
  }

  /** When the network delivers no message twice: a leader that commits because of acceptances
      has at least half of the replica count, so with itself a majority, holding as accepted
      the very value it commits. */
  lemma CommitHasMajority(g: Config, vs: seq<Move>, ss: seq<Exact>, i: nat)
    requires ExactRun(g, vs, ss) && i < |vs| && Counts(g, ss[i], vs[i])
    requires Shaped(g, ss[i + 1].c) && ss[i + 1].c.recs[g.leader].status == COMMITTED
    ensures |Accepted(g, ss[i + 1].c)| >= g.n / 2 && 2 * (|Accepted(g, ss[i + 1].c)| + 1) > g.n
    ensures AllHold(g, ss[i + 1].c, ValueOf(vs[i].k.m))
  {
    assert |ss| == |vs| + 1;
    hide ExactRun, Stutters, Run, AllHold, Accepted, Picked, Kept, Senders, Counts, CommitsAt;
    var os, cs := Seen(vs), Clusters(ss);
    SeenSenders(g, vs, ss, i + 1);
    CountedCommits(g, ss[i], vs[i]);
    PickedAt(g, os, cs, i);
    PickedRun(g, os, cs);
    var k := |Picked(os[..i])|;
    CommitsSeen(g, ss[i], vs[i], ss[i + 1].c, Picked(os), Kept(os, cs), k);
    DifferentMajority(g, Picked(os), Kept(os, cs), k);
  }

  lemma CountedCommits(g: Config, s: Exact, w: Move)
    requires Shaped(g, s.c) && Counts(g, s, w)
    ensures w.Receive?
  {
  }

  lemma CommitsSeen(g: Config, s: Exact, w: Move, t: Cluster, es: seq<Event>, cs: seq<Cluster>, k: nat)
    requires Shaped(g, s.c) && Counts(g, s, w) && Shaped(g, t) && t.recs[g.leader].status == COMMITTED
    requires k < |es| && k + 1 < |cs| && es[k] == EventOf(w) && cs[k] == s.c && cs[k + 1] == t
    ensures CommitsAt(g, es, cs, k)
  {
  }
}
