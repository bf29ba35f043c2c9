/** The replicated instance, its leader's counters, and the messages about it. */
module Instances {
  import opened Commands
  import opened DepArrays
  import opened Ids
  import opened Options

  const BYTE: nat := 0x100

  type Byte = b: nat | b < BYTE witness 0

  /** The counters of the replica that leads an instance; each is one byte. */
  datatype Tracker = Tracker(preAcceptOks: Byte, acceptOks: Byte, nacks: Byte, equal: Byte, maxBallot: Byte)

  const NEW_TRACKER := Tracker(0, 0, 0, 0, 0)

  /** The contents of an instance. */
  datatype Rec = Rec(
    ballot: Byte,
    status: State,
    command: Option<Command>,
    seqNo: nat,
    deps: DepArray,
    lt: Option<Tracker>)

  const NEW_REC := Rec(0, NONE, None, 0, EMPTY_DEPS, None)

  datatype Kind =
    | PreAccept | PreAcceptOk | PreAcceptReply
    | Accept | AcceptReply | Commit
    | Prepare | PrepareReply | TryPreAccept | TryPreAcceptReply

  datatype Message = Message(
    kind: Kind,
    ballot: Byte,
    nack: bool,
    id: InstanceId,
    command: Option<Command>,
    seqNo: nat,
    deps: DepArray,
    from: nat,
    instanceStatus: State,
    conflictId: InstanceId,
    conflictStatus: State)

  /** What the index walk reports: the largest sequence number among the interfering
      instances, how often the dependencies changed, and the dependencies. */
  datatype Probe = Probe(maxSeq: nat, updated: nat, deps: DepArray)

  // ---------- ballots ----------

  /** A ballot is a byte: a round in the upper half, a replica in the lower. */
  function UniqueBallot(round: nat, replica: nat): Byte {
    Or(round * 16, replica) % BYTE
  }

  function LargerBallot(ballot: Byte, replica: nat): Byte {
    UniqueBallot((ballot / 16 + 1) % BYTE, replica)
  }

  predicate IsInitialBallot(ballot: nat) {
    ballot / 16 == 0
  }

  function ReplicaFromBallot(ballot: nat): nat {
    ballot % 16
  }

  lemma Pow2Four()
    ensures Pow2(4) == 16
  {
  }

  lemma UniqueBallotValue(round: nat, replica: nat)
    requires replica < 16
    ensures UniqueBallot(round, replica) == (round % 16) * 16 + replica
  {
    hide Or, Pow2;
    Pow2Four();
    OrShifted(round, replica, 4);
    var q, r := round / 16, round % 16;
    assert round * 16 + replica == q * BYTE + (r * 16 + replica);
  }

  /** A larger ballot names its replica exactly if four bits hold the replica's number. Then it
      is larger exactly until the four bits of the round are used up; the next one falls back
      to round zero. */
  lemma LargerBallotExact(ballot: Byte, replica: nat)
    ensures ReplicaFromBallot(LargerBallot(ballot, replica)) == replica <==> replica < 16
    ensures replica < 16 ==> (LargerBallot(ballot, replica) > ballot <==> ballot / 16 < 15)
    ensures replica < 16 ==> (IsInitialBallot(LargerBallot(ballot, replica)) <==> ballot / 16 == 15)
  {
    hide UniqueBallot;
    if replica < 16 {
      UniqueBallotValue((ballot / 16 + 1) % BYTE, replica);
    }
  }

  /** Beyond, replica 16 of round zero shares its ballot with replica 0 of round one. */
  lemma UniqueBallotCollides()
    ensures UniqueBallot(0, 16) == UniqueBallot(1, 0)
  {
    OrZero(16);
    OrSymmetric(0, 16);
  }

  lemma UniqueBallotInjective(a: nat, r: nat, b: nat, q: nat)
    requires a < 16 && b < 16 && r < 16 && q < 16 && UniqueBallot(a, r) == UniqueBallot(b, q)
    ensures a == b && r == q
  {
    hide UniqueBallot;
    UniqueBallotValue(a, r);
    UniqueBallotValue(b, q);
  }

  class LeaderTracker {
    var preAcceptOks: Byte
    var acceptOks: Byte
    var nacks: Byte
    var equal: Byte
    var maxBallot: Byte

    constructor ()
      ensures View() == NEW_TRACKER
    {
      preAcceptOks, acceptOks, nacks, equal, maxBallot := 0, 0, 0, 0, 0;
    }

    function View(): Tracker
      reads this
    {
      Tracker(preAcceptOks, acceptOks, nacks, equal, maxBallot)
    }
  }

  class Instance {
    const key: InstanceId
    var ballot: Byte
    var status: State
    var command: Option<Command>
    var seqNo: nat
    var deps: DepArray
    var lt: LeaderTracker?

    constructor (key: InstanceId)
      ensures this.key == key && View() == NEW_REC && lt == null
    {
      this.key := key;
      ballot, status, command, seqNo, deps, lt := 0, NONE, None, 0, EMPTY_DEPS, null;
    }

    function View(): Rec
      reads this, lt
    {
      Rec(ballot, status, command, seqNo, deps, if lt == null then None else Some(lt.View()))
    }
  }
}
