/** The commit protocol's message handlers: each as a function of the instance and the
    message, and as the code that carries it out. */
module Protocol {
  import opened DepArrays
  import opened Ids
  import opened Instances
  import opened Options

  /** The instance afterwards, the message sent, and whether recovery is started. */
  datatype Out = Out(rec: Rec, sent: Option<Message>, recover: bool)

  function MaxByte(a: Byte, b: Byte): Byte {
    if a > b then a else b
  }

  function IncByte(b: Byte): Byte {
    (b + 1) % BYTE
  }

  /** The leader takes the command and asks the others. */
  function OnPhase1(r: Rec, m: Message, key: InstanceId, p: Probe): Out
    requires r.lt.Some?
  {
    var s := (p.maxSeq + 1) % TWO64;
    var t := r.lt.value.(equal := if p.updated == 0 then 1 else 0);
    Out(Rec(m.ballot, PRE_ACCEPTED, m.command, s, p.deps, Some(t)),
        Some(m.(kind := PreAccept, seqNo := s, deps := p.deps, id := key)), false)
  }

  /** The replica takes part: it neither ignores nor refuses the PRE_ACCEPT. */
  predicate TakesPreAccept(i: Rec, m: Message) {
    !IsState(i.status, COMMITTED | ACCEPTED) && IsState(i.status, PRE_ACCEPTED | NONE) && m.ballot >= i.ballot
  }

  function OnPreAccept(r: Rec, m: Message, p: Probe): Out {
    if IsState(r.status, COMMITTED | ACCEPTED) || !IsState(r.status, PRE_ACCEPTED | NONE) then Out(r, None, false)
    else if m.ballot < r.ballot then
      Out(r, Some(m.(ballot := r.ballot, command := r.command, seqNo := r.seqNo, nack := true, deps := r.deps,
                     kind := PreAcceptReply)), false)
    else
      var s := Max(m.seqNo, (p.maxSeq + 1) % TWO64);
      var status := if p.updated == 0 then PRE_ACCEPTED_EQ else PRE_ACCEPTED;
      var t := Rec(m.ballot, status, m.command, s, p.deps, r.lt);
      if s != m.seqNo || p.updated > 0 || HasUncommittedDeps(p.deps) || !IsInitialBallot(m.ballot)
      then Out(t, Some(m.(seqNo := s, deps := p.deps, kind := PreAcceptReply)), false)
      else Out(t, Some(m.(kind := PreAcceptOk)), false)
  }

  function OnPreAcceptOk(n: nat, r: Rec, m: Message): Out
    requires IsState(r.status, PRE_ACCEPTED) ==> r.lt.Some?
  {
    if !IsState(r.status, PRE_ACCEPTED) || !IsInitialBallot(r.ballot) then Out(r, None, false)
    else
      var t := r.lt.value.(preAcceptOks := IncByte(r.lt.value.preAcceptOks));
      Decide(n, r.(lt := Some(t)), m)
  }

  /** Enough replies: commit at once if they changed nothing, else ask for acceptance. Either
      way the message forwarded is the last reply, not the leader's own copy. */
  function Decide(n: nat, r: Rec, m: Message): Out
    requires r.lt.Some?
  {
    if r.lt.value.preAcceptOks < n / 2 then Out(r, None, false)
    else if r.lt.value.equal != 0 && IsInitialBallot(r.ballot) && !HasUncommittedDeps(r.deps)
    then Out(r.(status := COMMITTED), Some(m.(kind := Commit)), false)
    else Out(r.(status := ACCEPTED), Some(m.(kind := Accept)), false)
  }

  /** Offers the dependencies one by one and counts the changes. */
  function MergeDeps(deps: DepArray, ds: seq<Dependency>): (DepArray, nat) {
    if ds == [] then (deps, 0)
    else
      var (front, k) := MergeDeps(deps, ds[..|ds| - 1]);
      var (after, changed) := UpdateDeps(front, ds[|ds| - 1]);
      (after, if changed then k + 1 else k)
  }

  /** A refusal: counted, and from half of the others on recovery starts. */
  function OnNack(n: nat, r: Rec, m: Message): Out
    requires r.lt.Some?
  {
    var t := r.lt.value.(nacks := IncByte(r.lt.value.nacks), maxBallot := MaxByte(r.lt.value.maxBallot, m.ballot));
    Out(r.(lt := Some(t)), None, t.nacks >= n / 2)
  }

  function OnPreAcceptReply(n: nat, r: Rec, m: Message): Out
    requires IsState(r.status, PRE_ACCEPTED) ==> r.lt.Some?
  {
    if !IsState(r.status, PRE_ACCEPTED) || r.ballot != m.ballot then Out(r, None, false)
    else if m.nack then OnNack(n, r, m)
    else
      var equal := if m.seqNo > r.seqNo then 1 else r.lt.value.equal;
      var (deps, k) := MergeDeps(r.deps, m.deps);
      var t := r.lt.value.(preAcceptOks := IncByte(r.lt.value.preAcceptOks),
                           equal := if (equal - k) % BYTE == 1 then 1 else 0);
      Decide(n, r.(seqNo := Max(r.seqNo, m.seqNo), deps := deps, lt := Some(t)), m)
  }

  function OnAccept(r: Rec, m: Message): Out {
    if IsState(r.status, COMMITTED | EXECUTED) then Out(r, None, false)
    else if m.ballot < r.ballot then
      Out(r, Some(m.(nack := true, ballot := r.ballot, kind := AcceptReply)), false)
    else
      Out(r.(status := ACCEPTED, ballot := m.ballot, seqNo := m.seqNo, deps := m.deps),
          Some(m.(kind := AcceptReply)), false)
  }

  function OnAcceptReply(n: nat, r: Rec, m: Message): Out
    requires IsState(r.status, ACCEPTED) ==> r.lt.Some?
  {
    if !IsState(r.status, ACCEPTED) || r.ballot != m.ballot then Out(r, None, false)
    else if m.nack then OnNack(n, r, m)
    else
      var t := r.lt.value.(acceptOks := IncByte(r.lt.value.acceptOks));
      if t.acceptOks + 1 > n / 2
      then Out(r.(lt := Some(t), status := COMMITTED), Some(m.(kind := Commit)), false)
      else Out(r.(lt := Some(t)), None, false)
  }

  function OnCommit(r: Rec, m: Message): Out {
    Out(r.(status := COMMITTED, seqNo := m.seqNo, deps := m.deps), None, false)
  }

  function OnPrepare(r: Rec, m: Message): Out {
    if m.ballot < r.ballot then Out(r, Some(m.(nack := true, kind := PrepareReply)), false)
    else
      Out(r.(ballot := m.ballot),
          Some(m.(command := r.command, deps := r.deps, seqNo := r.seqNo, instanceStatus := r.status,
                  kind := PrepareReply)), false)
  }

  /** conflict is what find_conflict reports for the proposal. */
  function OnTryPreAccept(r: Rec, m: Message, conflict: Option<(InstanceId, State)>): Out {
    if r.ballot > m.ballot then
      Out(r, Some(m.(conflictId := m.id, conflictStatus := r.status, ballot := r.ballot, nack := true,
                     kind := TryPreAcceptReply)), false)
    else if conflict.Some? then
      Out(r, Some(m.(conflictId := conflict.value.0, conflictStatus := conflict.value.1, ballot := r.ballot,
                     nack := true, kind := TryPreAcceptReply)), false)
    else
      Out(r.(command := m.command, deps := m.deps, ballot := m.ballot, seqNo := m.seqNo, status := PRE_ACCEPTED),
          Some(m.(kind := TryPreAcceptReply)), false)
  }

  // ---------- the code ----------

  method Phase1(i: Instance, m: Message, p: Probe) returns (sent: Option<Message>)
    requires i.lt != null
    modifies i, i.lt
    ensures i.lt == old(i.lt) && Out(i.View(), sent, false) == OnPhase1(old(i.View()), m, i.key, p)
  {
    i.deps := EMPTY_DEPS;
    i.seqNo := (p.maxSeq + 1) % TWO64;
    i.status := PRE_ACCEPTED;
    i.lt.equal := if p.updated == 0 then 1 else 0;
    i.deps := p.deps;
    i.command := m.command;
    i.ballot := m.ballot;
    sent := Some(m.(kind := PreAccept, seqNo := i.seqNo, deps := i.deps, id := i.key));
  }

  method HandlePreAccept(i: Instance, m: Message, p: Probe) returns (sent: Option<Message>)
    modifies i
    ensures i.lt == old(i.lt) && Out(i.View(), sent, false) == OnPreAccept(old(i.View()), m, p)
  {
    if IsState(i.status, COMMITTED | ACCEPTED) {
      return None;
    }
    if !IsState(i.status, PRE_ACCEPTED | NONE) {
      return None;
    }
    if m.ballot < i.ballot {
      return Some(m.(ballot := i.ballot, command := i.command, seqNo := i.seqNo, nack := true, deps := i.deps,
                     kind := PreAcceptReply));
    }
    var s := Max(m.seqNo, (p.maxSeq + 1) % TWO64);
    i.status := PRE_ACCEPTED;
    if p.updated == 0 {
      i.status := PRE_ACCEPTED_EQ;
    }
    i.command := m.command;
    i.ballot := m.ballot;
    i.deps := p.deps;
    i.seqNo := s;
    var unsettled := ScanUncommitted(i.deps);
    if i.seqNo != m.seqNo || p.updated > 0 || unsettled || !IsInitialBallot(m.ballot) {
      return Some(m.(seqNo := s, deps := i.deps, kind := PreAcceptReply));
    }
    return Some(m.(kind := PreAcceptOk));
  }

  method DecideNow(n: nat, i: Instance, m: Message) returns (sent: Option<Message>)
    requires i.lt != null
    modifies i
    ensures i.lt == old(i.lt) && Out(i.View(), sent, false) == Decide(n, old(i.View()), m)
  {
    sent := None;
    if i.lt.preAcceptOks >= n / 2 {
      var unsettled := ScanUncommitted(i.deps);
      if i.lt.equal != 0 && IsInitialBallot(i.ballot) && !unsettled {
        i.status := COMMITTED;
        sent := Some(m.(kind := Commit));
      } else {
        i.status := ACCEPTED;
        sent := Some(m.(kind := Accept));
      }
    }
  }

  method HandlePreAcceptOk(n: nat, i: Instance, m: Message) returns (sent: Option<Message>)
    requires IsState(i.status, PRE_ACCEPTED) ==> i.lt != null
    modifies i, i.lt
    ensures i.lt == old(i.lt) && Out(i.View(), sent, false) == OnPreAcceptOk(n, old(i.View()), m)
  {
    if !IsState(i.status, PRE_ACCEPTED) || !IsInitialBallot(i.ballot) {
      return None;
    }
    i.lt.preAcceptOks := IncByte(i.lt.preAcceptOks);
    sent := DecideNow(n, i, m);
  }

  method HandlePreAcceptReply(n: nat, i: Instance, m: Message) returns (sent: Option<Message>, recover: bool)
    requires IsState(i.status, PRE_ACCEPTED) ==> i.lt != null
    modifies i, i.lt
    ensures i.lt == old(i.lt) && Out(i.View(), sent, recover) == OnPreAcceptReply(n, old(i.View()), m)
  {
    hide IsState, MergeDeps, Decide, OnNack;
    sent, recover := None, false;
    if !IsState(i.status, PRE_ACCEPTED) || i.ballot != m.ballot {
      return;
    }
    if m.nack {
      recover := CountNack(n, i, m);
      return;
    }
    i.lt.preAcceptOks := IncByte(i.lt.preAcceptOks);
    if m.seqNo > i.seqNo {
      i.seqNo := m.seqNo;
      i.lt.equal := 1;
    }
    MergeReply(i, m.deps);
    i.lt.equal := if i.lt.equal == 1 then 1 else 0;
    sent := DecideNow(n, i, m);
  }

  /** Merges the dependencies of a reply; every change takes one off equal. */
  method MergeReply(i: Instance, ds: DepArray)
    requires i.lt != null
    modifies i`deps, i.lt`equal
    ensures i.deps == MergeDeps(old(i.deps), ds).0
    ensures i.lt.equal == (old(i.lt.equal) - MergeDeps(old(i.deps), ds).1) % BYTE
  {
    hide UpdateDeps;
    ghost var was, before := i.deps, i.lt.equal;
    ghost var changes := 0;
    var d := 0;
    while d < MAX_DEPS
      invariant 0 <= d <= MAX_DEPS
      invariant (i.deps, changes) == MergeDeps(was, ds[..d])
      invariant i.lt.equal == (before - changes) % BYTE
    {
      assert ds[..d + 1][..d] == ds[..d];
      var (after, changed) := UpdateDeps(i.deps, ds[d]);
      i.deps := after;
      i.lt.equal := (i.lt.equal - (if changed then 1 else 0)) % BYTE;
      changes := if changed then changes + 1 else changes;
      d := d + 1;
    }
    assert ds[..MAX_DEPS] == ds;
  }

  method CountNack(n: nat, i: Instance, m: Message) returns (recover: bool)
    requires i.lt != null
    modifies i.lt
    ensures i.lt == old(i.lt) && Out(i.View(), None, recover) == OnNack(n, old(i.View()), m)
  {
    i.lt.nacks := IncByte(i.lt.nacks);
    if m.ballot > i.lt.maxBallot {
      i.lt.maxBallot := m.ballot;
    }
    recover := i.lt.nacks >= n / 2;
  }

  method HandleAccept(i: Instance, m: Message) returns (sent: Option<Message>)
    modifies i
    ensures i.lt == old(i.lt) && Out(i.View(), sent, false) == OnAccept(old(i.View()), m)
  {
    if IsState(i.status, COMMITTED | EXECUTED) {
      return None;
    }
    if m.ballot < i.ballot {
      return Some(m.(nack := true, ballot := i.ballot, kind := AcceptReply));
    }
    i.status := ACCEPTED;
    i.ballot := m.ballot;
    i.seqNo := m.seqNo;
    i.deps := m.deps;
    return Some(m.(kind := AcceptReply));
  }

  method HandleAcceptReply(n: nat, i: Instance, m: Message) returns (sent: Option<Message>, recover: bool)
    requires IsState(i.status, ACCEPTED) ==> i.lt != null
    modifies i, i.lt
    ensures i.lt == old(i.lt) && Out(i.View(), sent, recover) == OnAcceptReply(n, old(i.View()), m)
  {
    sent, recover := None, false;
    if !IsState(i.status, ACCEPTED) || i.ballot != m.ballot {
      return;
    }
    if m.nack {
      recover := CountNack(n, i, m);
      return;
    }
    i.lt.acceptOks := IncByte(i.lt.acceptOks);
    if i.lt.acceptOks + 1 > n / 2 {
      i.status := COMMITTED;
      sent := Some(m.(kind := Commit));
    }
  }

  method HandleCommit(i: Instance, m: Message)
    modifies i
    ensures i.lt == old(i.lt) && Out(i.View(), None, false) == OnCommit(old(i.View()), m)
  {
    i.status := COMMITTED;
    i.seqNo := m.seqNo;
    i.deps := m.deps;
  }

  method HandlePrepare(i: Instance, m: Message) returns (sent: Option<Message>)
    modifies i
    ensures i.lt == old(i.lt) && Out(i.View(), sent, false) == OnPrepare(old(i.View()), m)
  {
    if m.ballot < i.ballot {
      return Some(m.(nack := true, kind := PrepareReply));
    }
    i.ballot := m.ballot;
    return Some(m.(command := i.command, deps := i.deps, seqNo := i.seqNo, ballot := i.ballot,
                   instanceStatus := i.status, kind := PrepareReply));
  }

  method HandleTryPreAccept(i: Instance, m: Message, conflict: Option<(InstanceId, State)>)
    returns (sent: Option<Message>)
    modifies i
    ensures i.lt == old(i.lt) && Out(i.View(), sent, false) == OnTryPreAccept(old(i.View()), m, conflict)
  {
    if i.ballot > m.ballot {
      return Some(m.(conflictId := m.id, conflictStatus := i.status, ballot := i.ballot, nack := true,
                     kind := TryPreAcceptReply));
    }
    if conflict.Some? {
      return Some(m.(conflictId := conflict.value.0, conflictStatus := conflict.value.1, ballot := i.ballot,
                     nack := true, kind := TryPreAcceptReply));
    }
    i.command := m.command;
    i.deps := m.deps;
    i.ballot := m.ballot;
    i.seqNo := m.seqNo;
    i.status := PRE_ACCEPTED;
    return Some(m.(kind := TryPreAcceptReply));
  }
}
