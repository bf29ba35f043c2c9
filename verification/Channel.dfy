/** The bounded channel: any number of threads send and receive through a ring of slots, a
    lock, two counting semaphores and two counters that wrap at 32 bits. */
module Channels {
  import opened Ids
  import opened Options

  const CAPACITY: nat := 2048
  const WORD: nat := 0x1_0000_0000
  const HALF: int := 0x8000_0000

  /** What is sent: an address. */
  type Data = nat

  type Thread = nat

  type Word = w: nat | w < WORD witness 0

  type Ring = b: seq<Data> | |b| == CAPACITY witness seq(CAPACITY, _ => 0)

  /** Where a call stands: before its wait, before the lock, before the slot access, before the
      unlock, before its post. */
  datatype Point = AtWait | AtLock | AtAccess | AtUnlock | AtPost

  datatype Call =
    | Sending(x: Data, at: Point)
    | Receiving(got: Option<Data>, at: Point)

  /** The channel, the calls in progress, and what was written and taken so far under the lock. */
  datatype Chan = Chan(
    read: Word,
    write: Word,
    buffer: Ring,
    lock: Option<Thread>,
    cSem: nat,
    sSem: nat,
    calls: map<Thread, Call>,
    written: seq<Data>,
    taken: seq<Data>)

  datatype Step =
    | CallSend(t: Thread, x: Data)
    | CallRecv(t: Thread)
    | Wait(t: Thread)
    | Lock(t: Thread)
    | Access(t: Thread)
    | Unlock(t: Thread)
    | Post(t: Thread)

  ghost predicate Initial(s: Chan) {
    && s.read == 0 && s.write == 0
    && s.lock == None && s.cSem == 0 && s.sSem == CAPACITY
    && s.calls == map[] && s.written == [] && s.taken == []
  }

  function Slot(counter: Word): (i: nat)
    ensures i < CAPACITY
  {
    And(counter, CAPACITY - 1)
  }

  predicate Enabled(s: Chan, e: Step) {
    match e
    case CallSend(t, x) => t !in s.calls
    case CallRecv(t) => t !in s.calls
    case Wait(t) => t in s.calls && s.calls[t].at == AtWait && (if s.calls[t].Sending? then s.sSem > 0 else s.cSem > 0)
    case Lock(t) => t in s.calls && s.calls[t].at == AtLock && s.lock == None
    case Access(t) => t in s.calls && s.calls[t].at == AtAccess
    case Unlock(t) => t in s.calls && s.calls[t].at == AtUnlock
    case Post(t) => t in s.calls && s.calls[t].at == AtPost
  }

  function Moved(c: Call, at: Point): Call {
    match c
    case Sending(x, _) => Sending(x, at)
    case Receiving(got, _) => Receiving(got, at)
  }

  function Next(s: Chan, e: Step): Chan
    requires Enabled(s, e)
  {
    match e
    case CallSend(t, x) => s.(calls := s.calls[t := Sending(x, AtWait)])
    case CallRecv(t) => s.(calls := s.calls[t := Receiving(None, AtWait)])
    case Wait(t) =>
      if s.calls[t].Sending? then s.(sSem := s.sSem - 1, calls := s.calls[t := Moved(s.calls[t], AtLock)])
      else s.(cSem := s.cSem - 1, calls := s.calls[t := Moved(s.calls[t], AtLock)])
    case Lock(t) => s.(lock := Some(t), calls := s.calls[t := Moved(s.calls[t], AtAccess)])
    case Access(t) =>
      if s.calls[t].Sending? then
        s.(buffer := s.buffer[Slot(s.write) := s.calls[t].x], write := (s.write + 1) % WORD,
           written := s.written + [s.calls[t].x], calls := s.calls[t := Moved(s.calls[t], AtUnlock)])
      else
        var x := s.buffer[Slot(s.read)];
        s.(read := (s.read + 1) % WORD, taken := s.taken + [x], calls := s.calls[t := Receiving(Some(x), AtUnlock)])
    case Unlock(t) => s.(lock := None, calls := s.calls[t := Moved(s.calls[t], AtPost)])
    case Post(t) =>
      if s.calls[t].Sending? then s.(cSem := s.cSem + 1, calls := s.calls - {t})
      else s.(sSem := s.sSem + 1, calls := s.calls - {t})
  }

  /** The size that the code computes: the difference of the two 32-bit counters. */
  function Size(s: Chan): int {
    (s.write - s.read) % WORD
  }

  // ---------- counting calls ----------

  predicate Between(c: Call, sending: bool, p: Point, q: Point) {
    c.Sending? == sending && (c.at == p || c.at == q)
  }

  /** The calls of one kind at one of two points. */
  function Those(calls: map<Thread, Call>, sending: bool, p: Point, q: Point): set<Thread> {
    set t | t in calls && Between(calls[t], sending, p, q)
  }

  lemma Without(a: set<Thread>, t: Thread)
    ensures |a - {t}| == |a| - (if t in a then 1 else 0)
  {
    if t in a {
      assert a == a - {t} + {t};
    } else {
      assert a - {t} == a;
    }
  }

  lemma InThose(calls: map<Thread, Call>, t: Thread, sending: bool, p: Point, q: Point)
    ensures t in Those(calls, sending, p, q) <==> t in calls && Between(calls[t], sending, p, q)
  {
  }

  lemma ThoseUpdate(calls: map<Thread, Call>, t: Thread, c: Call, sending: bool, p: Point, q: Point)
    ensures |Those(calls[t := c], sending, p, q)| ==
      |Those(calls, sending, p, q)| - (if t in calls && Between(calls[t], sending, p, q) then 1 else 0)
        + (if Between(c, sending, p, q) then 1 else 0)
  {
    var a, b := Those(calls, sending, p, q), Those(calls[t := c], sending, p, q);
    InThose(calls, t, sending, p, q);
    InThose(calls[t := c], t, sending, p, q);
    hide Between, Those;
    forall x ensures x in a - {t} <==> x in b - {t} {
      InThose(calls, x, sending, p, q);
      InThose(calls[t := c], x, sending, p, q);
    }
    assert a - {t} == b - {t};
    Without(a, t);
    Without(b, t);
  }

  lemma ThoseRemove(calls: map<Thread, Call>, t: Thread, sending: bool, p: Point, q: Point)
    requires t in calls
    ensures |Those(calls - {t}, sending, p, q)| ==
      |Those(calls, sending, p, q)| - (if Between(calls[t], sending, p, q) then 1 else 0)
  {
    var a, b := Those(calls, sending, p, q), Those(calls - {t}, sending, p, q);
    assert b == a - {t};
    assert t in a <==> Between(calls[t], sending, p, q);
  }

  // ---------- the invariant ----------

  /** The ring holds exactly what is written and not yet taken. */
  ghost predicate RingOk(s: Chan) {
    s.write == |s.written| % WORD && s.read == |s.taken| % WORD && RingHolds(s.buffer, s.written, s.taken)
  }

  ghost predicate RingHolds(buffer: Ring, written: seq<Data>, taken: seq<Data>) {
    var w, r := |written|, |taken|;
    && r <= w <= r + CAPACITY && taken == written[..r]
    && forall i :: r <= i < w ==> buffer[i % CAPACITY] == written[i]
  }

  /** Each semaphore counts the slots of its kind that nobody has claimed. */
  ghost predicate SemsOk(s: Chan) {
    var items := |s.written| - |s.taken|;
    && s.sSem == CAPACITY - items - |Those(s.calls, true, AtLock, AtAccess)| - |Those(s.calls, false, AtUnlock, AtPost)|
    && s.cSem == items - |Those(s.calls, true, AtUnlock, AtPost)| - |Those(s.calls, false, AtLock, AtAccess)|
  }

  /** The lock is held by exactly the thread that is between lock and unlock. */
  ghost predicate LockOk(s: Chan) {
    forall t :: t in s.calls && (s.calls[t].at == AtAccess || s.calls[t].at == AtUnlock) <==> s.lock == Some(t)
  }

  ghost predicate Inv(s: Chan) {
    RingOk(s) && SemsOk(s) && LockOk(s)
  }

  lemma SlotValue(n: nat)
    ensures Slot(n % WORD) == n % CAPACITY
  {
    Pow2Eleven();
    hide Pow2, And;
    AndMask(n % WORD, 11);
  }

  lemma Pow2Eleven()
    ensures Pow2(11) == CAPACITY
  {
    assert Pow2(6) == 64;
  }

  // ---------- every step keeps the invariant ----------

  lemma InitialInv(s: Chan)
    requires Initial(s)
    ensures Inv(s)
  {
  }

  lemma RingKeeps(s: Chan, e: Step)
    requires Inv(s) && Enabled(s, e)
    requires e.Access? ==> if s.calls[e.t].Sending? then |s.written| < |s.taken| + CAPACITY else |s.taken| < |s.written|
    ensures RingOk(Next(s, e))
  {
    hide SemsOk, LockOk, Slot;
    if e.Access? {
      if s.calls[e.t].Sending? {
        PutKeeps(s, e);
      } else {
        GetKeeps(s, e);
      }
    }
  }

  lemma PutKeeps(s: Chan, e: Step)
    requires RingOk(s) && Enabled(s, e) && e.Access? && s.calls[e.t].Sending? && |s.written| < |s.taken| + CAPACITY
    ensures RingOk(Next(s, e))
  {
    hide Slot, RingHolds;
    SlotValue(|s.written|);
    WrapNext(|s.written|);
    WriteKeeps(s.buffer, s.written, s.taken, s.calls[e.t].x);
  }

  lemma GetKeeps(s: Chan, e: Step)
    requires RingOk(s) && Enabled(s, e) && e.Access? && s.calls[e.t].Receiving? && |s.taken| < |s.written|
    ensures RingOk(Next(s, e))
  {
    hide Slot, RingHolds;
    SlotValue(|s.taken|);
    WrapNext(|s.taken|);
    ReadKeeps(s.buffer, s.written, s.taken);
  }

  lemma WrapNext(n: nat)
    ensures (n % WORD + 1) % WORD == (n + 1) % WORD
  {
  }

  /** The oldest unread value is in the slot of its number. */
  lemma ReadKeeps(buffer: Ring, written: seq<Data>, taken: seq<Data>)
    requires RingHolds(buffer, written, taken) && |taken| < |written|
    ensures buffer[|taken| % CAPACITY] == written[|taken|]
    ensures RingHolds(buffer, written, taken + [buffer[|taken| % CAPACITY]])
  {
    var r := |taken|;
    assert written[..r + 1] == written[..r] + [written[r]];
  }

  /** The slot written is not one of the unread ones. */
  lemma WriteKeeps(buffer: Ring, written: seq<Data>, taken: seq<Data>, x: Data)
    requires RingHolds(buffer, written, taken) && |written| < |taken| + CAPACITY
    ensures forall i :: |taken| <= i < |written| ==> i % CAPACITY != |written| % CAPACITY
    ensures RingHolds(buffer[|written| % CAPACITY := x], written + [x], taken)
  {
    var w, r := |written|, |taken|;
    forall i | r <= i < w ensures i % CAPACITY != w % CAPACITY {
      Apart(i, w);
    }
    var b, v := buffer[w % CAPACITY := x], written + [x];
    assert taken == v[..r];
    forall i | r <= i < w + 1 ensures b[i % CAPACITY] == v[i] {
      if i < w {
        assert v[i] == written[i];
      }
    }
  }

  lemma Apart(i: nat, w: nat)
    requires i < w < i + CAPACITY
    ensures i % CAPACITY != w % CAPACITY
  {
  }

  /** A thread in its call holds a claim on a slot. */
  lemma Claimed(s: Chan, t: Thread)
    requires Inv(s) && t in s.calls && s.calls[t].at == AtAccess
    ensures if s.calls[t].Sending? then |s.written| < |s.taken| + CAPACITY else |s.taken| < |s.written|
  {
    hide RingOk, LockOk;
    InThose(s.calls, t, s.calls[t].Sending?, AtLock, AtAccess);
    hide Those;
    var mine := Those(s.calls, s.calls[t].Sending?, AtLock, AtAccess);
    assert t in mine && |mine| > 0;
  }

  lemma LockKeeps(s: Chan, e: Step)
    requires Inv(s) && Enabled(s, e)
    ensures LockOk(Next(s, e))
  {
    hide RingOk, SemsOk, Slot;
  }

  lemma SemsKeep(s: Chan, e: Step)
    requires Inv(s) && Enabled(s, e)
    ensures SemsOk(Next(s, e))
  {
    hide RingOk, LockOk, Slot, Those;
    var t, after := e.t, Next(s, e).calls;
    if e.Post? {
      ThoseRemove(s.calls, t, true, AtLock, AtAccess);
      ThoseRemove(s.calls, t, true, AtUnlock, AtPost);
      ThoseRemove(s.calls, t, false, AtLock, AtAccess);
      ThoseRemove(s.calls, t, false, AtUnlock, AtPost);
    } else {
      ThoseUpdate(s.calls, t, after[t], true, AtLock, AtAccess);
      ThoseUpdate(s.calls, t, after[t], true, AtUnlock, AtPost);
      ThoseUpdate(s.calls, t, after[t], false, AtLock, AtAccess);
      ThoseUpdate(s.calls, t, after[t], false, AtUnlock, AtPost);
      assert after == s.calls[t := after[t]];
    }
  }

  lemma StepKeeps(s: Chan, e: Step)
    requires Inv(s) && Enabled(s, e)
    ensures Inv(Next(s, e))
  {
    hide RingOk, SemsOk, LockOk;
    if e.Access? {
      Claimed(s, e.t);
    }
    RingKeeps(s, e);
    SemsKeep(s, e);
    LockKeeps(s, e);
  }

  ghost predicate Run(es: seq<Step>, ss: seq<Chan>) {
    && |ss| == |es| + 1 && Initial(ss[0])
    && forall i :: 0 <= i < |es| ==> Enabled(ss[i], es[i]) && ss[i + 1] == Next(ss[i], es[i])
  }

  lemma {:induction false} RunInv(es: seq<Step>, ss: seq<Chan>, i: nat)
    requires Run(es, ss) && i <= |es|
    ensures Inv(ss[i])
  {
    hide Inv, Enabled, Next;
    if i == 0 {
      InitialInv(ss[0]);
    } else {
      RunInv(es, ss, i - 1);
      assert ss[i - 1 + 1] == Next(ss[i - 1], es[i - 1]);
      StepKeeps(ss[i - 1], es[i - 1]);
    }
  }

  // ---------- what that guarantees ----------

  /** In every interleaving of any number of senders and receivers, the values taken are a
      prefix of the values written, in the order of the lock, and the size that the code
      computes is the exact number of values in between, even after the counters wrapped. */
  lemma FirstInFirstOut(es: seq<Step>, ss: seq<Chan>, i: nat)
    requires Run(es, ss) && i <= |es|
    ensures ss[i].taken <= ss[i].written
    ensures Size(ss[i]) == |ss[i].written| - |ss[i].taken| && 0 <= Size(ss[i]) <= CAPACITY
  {
    RunInv(es, ss, i);
    hide SemsOk, LockOk;
  }

  /** A 32-bit difference read as a signed number. */
  function Signed(n: Word): int {
    if n < HALF then n else n - WORD
  }

  /** The code takes no lock to read the two counters, so that they can be read at different
      moments i and j. What it then reports is the values written by the one moment less those
      taken by the other (within 31 bits), which is the size at i exactly when nothing was taken
      in between. */
  lemma SizeTorn(es: seq<Step>, ss: seq<Chan>, i: nat, j: nat)
    requires Run(es, ss) && i <= |es| && j <= |es|
    ensures var d, n := |ss[i].written| - |ss[j].taken|, Signed((ss[i].write - ss[j].read) % WORD);
      -HALF <= d < HALF ==> n == d && (n == Size(ss[i]) <==> |ss[i].taken| == |ss[j].taken|)
  {
    RunInv(es, ss, i);
    RunInv(es, ss, j);
    FirstInFirstOut(es, ss, i);
    hide SemsOk, LockOk, RingHolds, Run, Size;
    var w, r := |ss[i].written|, |ss[j].taken|;
    if -HALF <= w - r < HALF {
      WrapLess(w, r);
    }
  }

  lemma WrapLess(w: nat, r: nat)
    requires -HALF <= w - r < HALF
    ensures Signed((w % WORD - r % WORD) % WORD) == w - r
  {
    assert (w % WORD - r % WORD) % WORD == (w - r) % WORD;
  }

  /** At an access: a sender's slot holds no unread value, and a receiver's holds the oldest
      unread one; nobody else is at the slots. */
  lemma AccessSafe(es: seq<Step>, ss: seq<Chan>, i: nat, t: Thread)
    requires Run(es, ss) && i < |es| && es[i] == Access(t)
    ensures var s := ss[i];
      && t in s.calls && s.lock == Some(t)
      && (forall u :: u in s.calls && (s.calls[u].at == AtAccess || s.calls[u].at == AtUnlock) ==> u == t)
      && (s.calls[t].Sending? ==>
            forall k :: |s.taken| <= k < |s.written| ==>
              Slot(s.write) != k % CAPACITY && s.buffer[k % CAPACITY] == s.written[k])
      && (s.calls[t].Receiving? ==>
            |s.taken| < |s.written| && s.buffer[Slot(s.read)] == s.written[|s.taken|])
  {
    RunInv(es, ss, i);
    var s := ss[i];
    assert Enabled(s, es[i]);
    hide Slot, Run;
    Claimed(s, t);
    hide SemsOk;
    SlotValue(|s.written|);
    SlotValue(|s.taken|);
    if s.calls[t].Sending? {
      WriteKeeps(s.buffer, s.written, s.taken, s.calls[t].x);
    }
  }

  /** The semaphore counts and the calls between their wait and their post always sum to the
      capacity. */
  lemma TokensConserved(es: seq<Step>, ss: seq<Chan>, i: nat)
    requires Run(es, ss) && i <= |es|
    ensures var s := ss[i];
      s.sSem + s.cSem + |Those(s.calls, true, AtLock, AtAccess)| + |Those(s.calls, true, AtUnlock, AtPost)|
        + |Those(s.calls, false, AtLock, AtAccess)| + |Those(s.calls, false, AtUnlock, AtPost)| == CAPACITY
  {
    RunInv(es, ss, i);
    hide RingOk, LockOk, Those;
  }

  /** No call in progress can take its next step. */
  ghost predicate Halted(s: Chan) {
    forall t :: t in s.calls ==>
      && !Enabled(s, Wait(t)) && !Enabled(s, Lock(t)) && !Enabled(s, Access(t))
      && !Enabled(s, Unlock(t)) && !Enabled(s, Post(t))
  }

  ghost predicate AllSendFull(s: Chan) {
    (forall t :: t in s.calls ==> s.calls[t].Sending?) && |s.written| == |s.taken| + CAPACITY
  }

  ghost predicate AllReceiveEmpty(s: Chan) {
    (forall t :: t in s.calls ==> s.calls[t].Receiving?) && |s.written| == |s.taken|
  }

  /** The channel halts only when every call in progress is a send and the ring is full, or
      every one is a receive and the ring is empty; senders and receivers never block each other. */
  lemma HaltsExactly(es: seq<Step>, ss: seq<Chan>, i: nat)
    requires Run(es, ss) && i <= |es|
    ensures var s := ss[i];
      Halted(s) <==>
        && (forall t :: t in s.calls ==> s.calls[t].at == AtWait)
        && (AllSendFull(s) || AllReceiveEmpty(s) || s.calls == map[])
  {
    RunInv(es, ss, i);
    hide RingOk, Slot, Run;
    var s := ss[i];
    if Halted(s) {
      HaltedWaits(s);
    }
    if forall t :: t in s.calls ==> s.calls[t].at == AtWait {
      NobodyInside(s);
      hide LockOk;
      HaltedSides(s);
    }
  }

  lemma HaltedWaits(s: Chan)
    requires Inv(s) && Halted(s)
    ensures forall t :: t in s.calls ==> s.calls[t].at == AtWait
  {
    hide RingOk, SemsOk, Slot;
    forall t | t in s.calls ensures s.calls[t].at == AtWait {
      assert !Enabled(s, Lock(t)) && !Enabled(s, Access(t)) && !Enabled(s, Unlock(t)) && !Enabled(s, Post(t));
    }
  }

  lemma NobodyInside(s: Chan)
    requires Inv(s) && forall t :: t in s.calls ==> s.calls[t].at == AtWait
    ensures s.sSem == CAPACITY - (|s.written| - |s.taken|) && s.cSem == |s.written| - |s.taken|
  {
    hide RingOk, LockOk;
    assert Those(s.calls, true, AtLock, AtAccess) == {} && Those(s.calls, true, AtUnlock, AtPost) == {};
    assert Those(s.calls, false, AtLock, AtAccess) == {} && Those(s.calls, false, AtUnlock, AtPost) == {};
  }

  lemma HaltedSides(s: Chan)
    requires forall t :: t in s.calls ==> s.calls[t].at == AtWait
    requires s.sSem == CAPACITY - (|s.written| - |s.taken|) && s.cSem == |s.written| - |s.taken|
    ensures Halted(s) <==>
      AllSendFull(s) || AllReceiveEmpty(s) || s.calls == map[]
  {
    if Halted(s) {
      assert forall t :: t in s.calls ==> !Enabled(s, Wait(t));
      if s.sSem > 0 {
        assert forall t :: t in s.calls ==> s.calls[t].Receiving?;
      } else {
        assert s.cSem > 0;
        assert forall t :: t in s.calls ==> s.calls[t].Sending?;
      }
    }
  }

  // ---------- the code ----------

  /** The channel itself. Its methods are the steps that other threads cannot interrupt. */
  class SimpleChan {
    var read: Word
    var write: Word
    const buffer: array<Data>
    var lock: Option<Thread>
    var cSem: nat
    var sSem: nat
    ghost var calls: map<Thread, Call>
    ghost var written: seq<Data>
    ghost var taken: seq<Data>

    ghost predicate Valid()
      reads this, buffer
    {
      buffer.Length == CAPACITY && Inv(View())
    }

    ghost function View(): Chan
      requires buffer.Length == CAPACITY
      reads this, buffer
    {
      Chan(read, write, buffer[..], lock, cSem, sSem, calls, written, taken)
    }

    constructor ()
      ensures Valid() && Initial(View()) && fresh(buffer)
    {
      read, write := 0, 0;
      buffer := new Data[CAPACITY](_ => 0);
      cSem, sSem := 0, CAPACITY;
      lock := None;
      calls, written, taken := map[], [], [];
    }

    /** A thread calls send. */
    ghost method BeginSend(t: Thread, x: Data)
      requires Valid() && Enabled(View(), CallSend(t, x))
      modifies this
      ensures Valid() && View() == Next(old(View()), CallSend(t, x))
    {
      StepKeeps(View(), CallSend(t, x));
      calls := calls[t := Sending(x, AtWait)];
    }

    /** A thread calls recv. */
    ghost method BeginRecv(t: Thread)
      requires Valid() && Enabled(View(), CallRecv(t))
      modifies this
      ensures Valid() && View() == Next(old(View()), CallRecv(t))
    {
      StepKeeps(View(), CallRecv(t));
      calls := calls[t := Receiving(None, AtWait)];
    }

    /** sem_wait returns: a sender takes a free slot, a receiver a filled one. */
    method SemWait(t: Thread, sending: bool)
      requires Valid() && Enabled(View(), Wait(t)) && calls[t].Sending? == sending
      modifies this
      ensures Valid() && View() == Next(old(View()), Wait(t))
    {
      StepKeeps(View(), Wait(t));
      if sending {
        sSem := sSem - 1;
      } else {
        cSem := cSem - 1;
      }
      calls := calls[t := Moved(calls[t], AtLock)];
    }

    method MutexLock(t: Thread)
      requires Valid() && Enabled(View(), Lock(t))
      modifies this
      ensures Valid() && View() == Next(old(View()), Lock(t))
    {
      StepKeeps(View(), Lock(t));
      lock := Some(t);
      calls := calls[t := Moved(calls[t], AtAccess)];
    }

    /** The sender's turn at the slots. */
    method Put(t: Thread, x: Data)
      requires Valid() && Enabled(View(), Access(t)) && calls[t] == Sending(x, AtAccess)
      modifies this, buffer
      ensures Valid() && View() == Next(old(View()), Access(t))
    {
      hide Slot;
      StepKeeps(View(), Access(t));
      buffer[Slot(write)] := x;
      write := (write + 1) % WORD;
      written := written + [x];
      calls := calls[t := Moved(calls[t], AtUnlock)];
    }

    /** The receiver's turn at the slots: it gets the oldest value not yet taken. */
    method Get(t: Thread) returns (result: Data)
      requires Valid() && Enabled(View(), Access(t)) && calls[t].Receiving?
      modifies this
      ensures Valid() && View() == Next(old(View()), Access(t))
      ensures |old(taken)| < |written| && result == written[|old(taken)|] && taken == old(taken) + [result]
      ensures written == old(written) && calls == old(calls)[t := Receiving(Some(result), AtUnlock)]
    {
      hide Slot;
      StepKeeps(View(), Access(t));
      Claimed(View(), t);
      SlotValue(|taken|);
      result := buffer[Slot(read)];
      read := (read + 1) % WORD;
      taken := taken + [result];
      calls := calls[t := Receiving(Some(result), AtUnlock)];
    }

    method MutexUnlock(t: Thread)
      requires Valid() && Enabled(View(), Unlock(t))
      modifies this
      ensures Valid() && View() == Next(old(View()), Unlock(t))
    {
      StepKeeps(View(), Unlock(t));
      lock := None;
      calls := calls[t := Moved(calls[t], AtPost)];
    }

    /** sem_post, and the call returns. */
    method SemPost(t: Thread, sending: bool)
      requires Valid() && Enabled(View(), Post(t)) && calls[t].Sending? == sending
      modifies this
      ensures Valid() && View() == Next(old(View()), Post(t))
    {
      StepKeeps(View(), Post(t));
      if sending {
        cSem := cSem + 1;
      } else {
        sSem := sSem + 1;
      }
      calls := calls - {t};
    }

    method ChanSize() returns (n: int)
      requires Valid()
      ensures n == |written| - |taken|
    {
      n := (write - read) % WORD;
    }

    /** A whole send that no other thread interrupts: there is room and the lock is free. */
    method Send(t: Thread, x: Data)
      requires Valid() && t !in calls && sSem > 0 && lock == None
      modifies this, buffer
      ensures Valid() && written == old(written) + [x] && taken == old(taken)
      ensures calls == old(calls) && lock == None
    {
      hide Inv, Slot;
      BeginSend(t, x);
      SemWait(t, true);
      MutexLock(t);
      Put(t, x);
      MutexUnlock(t);
      SemPost(t, true);
      assert calls == old(calls);
    }

    /** A whole receive: it returns the oldest value not yet taken. */
    method Recv(t: Thread) returns (result: Data)
      requires Valid() && t !in calls && cSem > 0 && lock == None
      modifies this, buffer
      ensures Valid() && written == old(written) && taken == old(taken) + [result]
      ensures |old(taken)| < |written| && result == written[|old(taken)|]
      ensures calls == old(calls) && lock == None
    {
      hide Inv, Slot, Next, Enabled;
      EnterRecv(t);
      result := Get(t);
      LeaveRecv(t);
      assert calls == old(calls);
    }

    method EnterRecv(t: Thread)
      requires Valid() && t !in calls && cSem > 0 && lock == None
      modifies this
      ensures Valid() && written == old(written) && taken == old(taken)
      ensures lock == Some(t) && calls == old(calls)[t := Receiving(None, AtAccess)] && Enabled(View(), Access(t))
    {
      hide Inv, Slot;
      BeginRecv(t);
      SemWait(t, false);
      MutexLock(t);
    }

    method LeaveRecv(t: Thread)
      requires Valid() && t in calls && calls[t].Receiving? && calls[t].at == AtUnlock
      modifies this
      ensures Valid() && written == old(written) && taken == old(taken)
      ensures lock == None && calls == old(calls) - {t}
    {
      hide Inv, Slot;
      MutexUnlock(t);
      SemPost(t, false);
    }
  }
}
