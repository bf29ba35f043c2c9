/** What an acceptor's ballot guarantees over any sequence of messages, recovery included. */
module Ballots {
  import opened Ids
  import opened Instances
  import opened Options
  import opened Protocol

  /** One message to an acceptor, with what its index would answer. */
  datatype Event = Event(m: Message, probe: Probe, conflict: Option<(InstanceId, State)>)

  predicate AcceptorKind(k: Kind) {
    k.PreAccept? || k.Accept? || k.Prepare? || k.TryPreAccept?
  }

  function Take(r: Rec, e: Event): Out
    requires AcceptorKind(e.m.kind)
  {
    match e.m.kind
    case PreAccept => OnPreAccept(r, e.m, e.probe)
    case Accept => OnAccept(r, e.m)
    case Prepare => OnPrepare(r, e.m)
    case TryPreAccept => OnTryPreAccept(r, e.m, e.conflict)
  }

  function After(r: Rec, es: seq<Event>): Rec
    requires forall e :: e in es ==> AcceptorKind(e.m.kind)
  {
    if es == [] then r else Take(After(r, es[..|es| - 1]), es[|es| - 1]).rec
  }

  /** A message changes an instance only from its ballot upwards, and leaves its ballot there. */
  lemma TakeBallot(r: Rec, e: Event)
    requires AcceptorKind(e.m.kind)
    ensures Take(r, e).rec.ballot >= r.ballot
    ensures Take(r, e).rec != r ==> e.m.ballot >= r.ballot && Take(r, e).rec.ballot == e.m.ballot
  {
    hide DepArrays.HasUncommittedDeps, IsInitialBallot, IsState;
    match e.m.kind
    case PreAccept =>
    case Accept =>
    case Prepare =>
    case TryPreAccept =>
  }

  lemma {:induction false} BallotNeverDrops(r: Rec, es: seq<Event>, n: nat)
    requires n <= |es| && forall e :: e in es ==> AcceptorKind(e.m.kind)
    ensures After(r, es[..n]).ballot <= After(r, es).ballot
    decreases |es|
  {
    hide Take;
    if n == |es| {
      assert es[..n] == es;
    } else {
      var front := es[..|es| - 1];
      assert front[..n] == es[..n];
      BallotNeverDrops(r, front, n);
      TakeBallot(After(r, front), es[|es| - 1]);
    }
  }

  /** A replica that has answered a PREPARE of ballot b without refusing never again lets a
      message of a smaller ballot touch the instance. */
  lemma PromiseKept(r: Rec, es: seq<Event>, p: nat, q: nat)
    requires (forall e :: e in es ==> AcceptorKind(e.m.kind)) && p < q < |es|
    requires es[p].m.kind.Prepare? && !es[p].m.nack && !Take(After(r, es[..p]), es[p]).sent.value.nack
    requires es[q].m.ballot < es[p].m.ballot
    ensures After(r, es[..q + 1]) == After(r, es[..q])
  {
    assert es[..p + 1][..p] == es[..p] && es[..q + 1][..q] == es[..q];
    assert After(r, es[..p + 1]).ballot == es[p].m.ballot;
    assert es[..q][..p + 1] == es[..p + 1];
    hide Take;
    BallotNeverDrops(r, es[..q], p + 1);
    TakeBallot(After(r, es[..q]), es[q]);
  }

  // ---------- what an acceptor reports ----------

  /** The message gives the instance a value: it comes in a state that takes it, is of no smaller
      ballot, and conflicts with nothing. */
  ghost predicate Gives(r: Rec, e: Event) {
    && e.m.ballot >= r.ballot
    && match e.m.kind
       case PreAccept => r.status == NONE || r.status == PRE_ACCEPTED
       case Accept => r.status != COMMITTED && r.status != EXECUTED
       case TryPreAccept => e.conflict.None?
       case _ => false
  }

  ghost predicate StateOk(st: State) {
    st in {NONE, PRE_ACCEPTED, PRE_ACCEPTED_EQ, ACCEPTED, COMMITTED, EXECUTED}
  }

  /** r holds the value that the message gave it. */
  ghost predicate HoldsValue(r: Rec, e: Event) {
    match e.m.kind
    case PreAccept =>
      && r.command == e.m.command && r.deps == e.probe.deps
      && r.seqNo == Max(e.m.seqNo, (e.probe.maxSeq + 1) % TWO64)
      && r.status == if e.probe.updated == 0 then PRE_ACCEPTED_EQ else PRE_ACCEPTED
    case Accept => r.deps == e.m.deps && r.seqNo == e.m.seqNo && r.status == ACCEPTED
    case TryPreAccept =>
      r.command == e.m.command && r.deps == e.m.deps && r.seqNo == e.m.seqNo && r.status == PRE_ACCEPTED
    case _ => false
  }

  /** Nothing but the ballot differs. */
  ghost predicate SameValue(r: Rec, t: Rec) {
    t == r.(ballot := t.ballot)
  }

  lemma TakeValue(r: Rec, e: Event)
    requires AcceptorKind(e.m.kind) && StateOk(r.status)
    ensures StateOk(Take(r, e).rec.status)
    ensures Gives(r, e) ==> HoldsValue(Take(r, e).rec, e)
    ensures !Gives(r, e) ==> SameValue(r, Take(r, e).rec)
    ensures Gives(r, e) && e.m.kind.Accept? ==> Take(r, e).rec.command == r.command
  {
    hide DepArrays.HasUncommittedDeps, IsInitialBallot;
  }

  lemma {:induction false} StatesOk(r: Rec, es: seq<Event>)
    requires (forall e :: e in es ==> AcceptorKind(e.m.kind)) && StateOk(r.status)
    ensures StateOk(After(r, es).status)
  {
    hide Take;
    if es != [] {
      StatesOk(r, es[..|es| - 1]);
      TakeValue(After(r, es[..|es| - 1]), es[|es| - 1]);
    }
  }

  /** Between two messages that give a value the instance keeps the first one's. */
  lemma {:induction false} ValueStays(r: Rec, es: seq<Event>, p: nat, q: nat)
    requires (forall e :: e in es ==> AcceptorKind(e.m.kind)) && StateOk(r.status) && p < q <= |es|
    requires Gives(After(r, es[..p]), es[p])
    requires forall k :: p < k < q ==> !Gives(After(r, es[..k]), es[k])
    ensures HoldsValue(After(r, es[..q]), es[p])
  {
    hide Take, Gives, HoldsValue;
    assert es[..q][..q - 1] == es[..q - 1];
    StatesOk(r, es[..q - 1]);
    TakeValue(After(r, es[..q - 1]), es[q - 1]);
    if q - 1 > p {
      ValueStays(r, es, p, q - 1);
      SameHolds(After(r, es[..q - 1]), After(r, es[..q]), es[p]);
    }
  }

  lemma SameHolds(r: Rec, t: Rec, e: Event)
    requires SameValue(r, t) && HoldsValue(r, e)
    ensures HoldsValue(t, e)
  {
  }

  /** A PREPARE is refused exactly below the stored ballot. Else the reply reports the instance
      as it is, under the ballot just promised, and not the one the value was taken at. */
  lemma PrepareReports(r: Rec, m: Message)
    requires m.kind.Prepare? && !m.nack
    ensures var out := OnPrepare(r, m);
      && out.sent.Some? && out.sent.value.kind.PrepareReply? && (out.sent.value.nack <==> m.ballot < r.ballot)
      && out.sent.value.id == m.id && SameValue(r, out.rec)
      && (m.ballot >= r.ballot ==>
            && out.sent.value.command == r.command && out.sent.value.seqNo == r.seqNo
            && out.sent.value.deps == r.deps && out.sent.value.instanceStatus == r.status
            && out.sent.value.ballot == m.ballot == out.rec.ballot)
  {
  }

  /** The report is the value that the message gave. */
  ghost predicate Reports(out: Out, e: Event) {
    && out.sent.Some? && !out.sent.value.nack && out.sent.value.kind.PrepareReply?
    && var s, m := out.sent.value, e.m;
       match m.kind
       case PreAccept =>
         && s.command == m.command && s.deps == e.probe.deps
         && s.seqNo == Max(m.seqNo, (e.probe.maxSeq + 1) % TWO64)
         && s.instanceStatus == if e.probe.updated == 0 then PRE_ACCEPTED_EQ else PRE_ACCEPTED
       case Accept =>
         s.deps == m.deps && s.seqNo == m.seqNo && s.instanceStatus == ACCEPTED
       case TryPreAccept =>
         s.command == m.command && s.deps == m.deps && s.seqNo == m.seqNo && s.instanceStatus == PRE_ACCEPTED
       case _ => false
  }

  lemma HeldReported(r: Rec, m: Message, e: Event, f: Event)
    requires m.kind.Prepare? && !m.nack && m.ballot >= r.ballot && f.m == m && HoldsValue(r, e)
    ensures Reports(Take(r, f), e)
  {
    PrepareReports(r, m);
    hide OnPrepare;
  }

  /** So after any messages a promise reports the value that the last message to give one gave. */
  lemma PromiseReports(r: Rec, es: seq<Event>, p: nat, q: nat)
    requires (forall e :: e in es ==> AcceptorKind(e.m.kind)) && StateOk(r.status) && p < q < |es|
    requires Gives(After(r, es[..p]), es[p])
    requires forall k :: p < k < q ==> !Gives(After(r, es[..k]), es[k])
    requires es[q].m.kind.Prepare? && !es[q].m.nack && es[q].m.ballot >= After(r, es[..q]).ballot
    ensures Reports(Take(After(r, es[..q]), es[q]), es[p])
  {
    hide Gives, After, HoldsValue, Reports, Take, StateOk;
    ValueStays(r, es, p, q);
    HeldReported(After(r, es[..q]), es[q].m, es[p], es[q]);
  }

  // ---------- refusals ----------

  /** A question below the stored ballot changes nothing and is refused, with the stored ballot;
      the refusal of a PRE_ACCEPT also reports what the instance holds. */
  lemma Refuses(r: Rec, e: Event)
    requires e.m.kind.PreAccept? || e.m.kind.Accept? || e.m.kind.TryPreAccept?
    requires e.m.ballot < r.ballot && StateOk(r.status)
    ensures var out := Take(r, e);
      && out.rec == r && !out.recover
      && (e.m.kind.PreAccept? && r.status != NONE && r.status != PRE_ACCEPTED ==> out.sent.None?)
      && (e.m.kind.Accept? && (r.status == COMMITTED || r.status == EXECUTED) ==> out.sent.None?)
      && (e.m.kind.PreAccept? && (r.status == NONE || r.status == PRE_ACCEPTED) ==>
            out.sent == Some(e.m.(kind := PreAcceptReply, nack := true, ballot := r.ballot, command := r.command,
                                  seqNo := r.seqNo, deps := r.deps)))
      && (e.m.kind.Accept? && r.status != COMMITTED && r.status != EXECUTED ==>
            out.sent == Some(e.m.(kind := AcceptReply, nack := true, ballot := r.ballot)))
      && (e.m.kind.TryPreAccept? ==>
            out.sent == Some(e.m.(kind := TryPreAcceptReply, nack := true, ballot := r.ballot,
                                  conflictId := e.m.id, conflictStatus := r.status)))
  {
  }

  /** What an acceptor answers to a value it took, or to one that conflicts with another. */
  lemma AnswersGiven(r: Rec, e: Event)
    requires e.m.kind.Accept? || e.m.kind.TryPreAccept?
    requires e.m.ballot >= r.ballot && StateOk(r.status)
    ensures var sent := Take(r, e).sent;
      && (e.m.kind.Accept? && Gives(r, e) ==> sent == Some(e.m.(kind := AcceptReply)))
      && (e.m.kind.TryPreAccept? && Gives(r, e) ==> sent == Some(e.m.(kind := TryPreAcceptReply)))
      && (e.m.kind.TryPreAccept? && !Gives(r, e) ==>
            && Take(r, e).rec == r && e.conflict.Some?
            && sent == Some(e.m.(kind := TryPreAcceptReply, nack := true, ballot := r.ballot,
                                 conflictId := e.conflict.value.0, conflictStatus := e.conflict.value.1)))
  {
  }

  /** A refusal never reaches the count of the leader that asked, as long as that keeps the ballot
      it asked with: the refusal carries another one, and is ignored. */
  lemma RefusalIgnored(n: nat, l: Rec, r: Rec, e: Event)
    requires (e.m.kind.PreAccept? || e.m.kind.Accept?) && e.m.ballot < r.ballot && StateOk(r.status)
    requires l.ballot == e.m.ballot && l.lt.Some?
    ensures var out := Take(r, e);
      out.sent.Some? ==>
        && out.sent.value.nack
        && (e.m.kind.PreAccept? ==> OnPreAcceptReply(n, l, out.sent.value) == Out(l, None, false))
        && (e.m.kind.Accept? ==> OnAcceptReply(n, l, out.sent.value) == Out(l, None, false))
  {
    Refuses(r, e);
    hide Take, MergeDeps;
  }

  /** A leader that waits for answers to its PRE_ACCEPT, or for acceptances, takes the answers of
      its own ballot and of no other state; a plain agreement, only in the first round. */
  lemma AnswersIgnored(n: nat, r: Rec, m: Message)
    requires r.lt.Some? && StateOk(r.status)
    ensures r.status != PRE_ACCEPTED || r.ballot >= 16 ==> OnPreAcceptOk(n, r, m) == Out(r, None, false)
    ensures r.status != PRE_ACCEPTED || r.ballot != m.ballot ==> OnPreAcceptReply(n, r, m) == Out(r, None, false)
    ensures r.status != ACCEPTED || r.ballot != m.ballot ==> OnAcceptReply(n, r, m) == Out(r, None, false)
  {
    hide MergeDeps, Decide;
  }

  /** The refusals that a leader got: each of its own ballot, in the state it waits in. */
  function AfterNacks(n: nat, r: Rec, ms: seq<Message>): Out
    requires r.lt.Some?
    ensures AfterNacks(n, r, ms).rec.lt.Some?
  {
    if ms == [] then Out(r, None, false)
    else
      var was, m := AfterNacks(n, r, ms[..|ms| - 1]).rec, ms[|ms| - 1];
      if r.status == PRE_ACCEPTED then OnPreAcceptReply(n, was, m.(nack := true))
      else OnAcceptReply(n, was, m.(nack := true))
  }

  /** r after k refusals of its own ballot. */
  function Nacked(r: Rec, k: nat): Rec
    requires r.lt.Some?
  {
    var t := r.lt.value;
    r.(lt := Some(t.(nacks := (t.nacks + k) % BYTE,
                     maxBallot := if k > 0 && r.ballot > t.maxBallot then r.ballot else t.maxBallot)))
  }

  lemma NackStep(n: nat, r: Rec, k: nat, m: Message)
    requires r.lt.Some? && m.ballot == r.ballot && m.nack
    ensures r.status == PRE_ACCEPTED ==>
      OnPreAcceptReply(n, Nacked(r, k), m) == Out(Nacked(r, k + 1), None, (r.lt.value.nacks + k + 1) % BYTE >= n / 2)
    ensures r.status == ACCEPTED ==>
      OnAcceptReply(n, Nacked(r, k), m) == Out(Nacked(r, k + 1), None, (r.lt.value.nacks + k + 1) % BYTE >= n / 2)
  {
    hide MergeDeps, Decide;
  }

  /** Refusals of the leader's own ballot are counted in a byte, change nothing else but the
      largest ballot, and call for recovery exactly from half of the replicas on. */
  lemma {:induction false} NacksCounted(n: nat, r: Rec, ms: seq<Message>)
    requires r.lt.Some? && (r.status == PRE_ACCEPTED || r.status == ACCEPTED)
    requires forall k :: 0 <= k < |ms| ==> ms[k].ballot == r.ballot
    ensures var t := r.lt.value;
      AfterNacks(n, r, ms) == Out(
        r.(lt := Some(t.(nacks := (t.nacks + |ms|) % BYTE,
                         maxBallot := if ms != [] && r.ballot > t.maxBallot then r.ballot else t.maxBallot))),
        None, ms != [] && (t.nacks + |ms|) % BYTE >= n / 2)
  {
    hide OnPreAcceptReply, OnAcceptReply;
    if ms != [] {
      var k := |ms| - 1;
      NacksCounted(n, r, ms[..k]);
      NackStep(n, r, k, ms[k].(nack := true));
    }
  }
}
