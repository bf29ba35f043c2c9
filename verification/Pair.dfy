/** Runs of two instances over the same replicas, in which every walk over an index finds of the
    other instance what the replica that walks holds of it. */
module Pairs {
  import opened Commands
  import opened CommitRuns
  import opened Decisions
  import opened DepArrays
  import opened Ids
  import opened Indexes
  import opened Instances
  import opened Options
  import opened Protocol

  datatype Two<T> = Two(one: T, two: T)

  /** The second of the two, if w. */
  function Of<T>(t: Two<T>, w: bool): T {
    if w then t.two else t.one
  }

  function Put<T>(t: Two<T>, w: bool, x: T): Two<T> {
    if w then t.(two := x) else t.(one := x)
  }

  /** An event of one of the instances; if the replica walks its index, the rows it then has
      and the answers of its range tree. */
  datatype Move = Move(w: bool, e: Event, rows: seq<seq<Entry>>, ask: InstanceId -> Answer)

  predicate ConfigOk(g: Config) {
    g.key.replicaId == g.leader < g.n && g.key.instanceId > 0
  }

  /** Two instances, each led by the replica that its key names. */
  predicate ConfigsOk(gs: Two<Config>) {
    ConfigOk(gs.one) && ConfigOk(gs.two) && gs.one.n == gs.two.n && gs.one.key != gs.two.key
  }

  /** What an index holds of the instance that r are the contents of. */
  function EntryFor(key: InstanceId, r: Rec): Entry {
    Entry(key, r.status, r.command, r.seqNo)
  }

  /** The rows show the instance as the replica holds it: not before the replica hears of it,
      and until it is executed and may be pruned. */
  ghost predicate Shows(rows: seq<seq<Entry>>, key: InstanceId, r: Rec) {
    && (forall x :: x in Indexed(rows) && x.key == key ==> r.status != NONE && x == EntryFor(key, r))
    && (r.status != NONE && r.status != EXECUTED ==> EntryFor(key, r) in Indexed(rows))
  }

  /** What the walk is asked, and the dependencies it starts from. */
  function Asks(g: Config, mv: Move): Query
    requires !mv.e.Execute?
  {
    Query(mv.e.m.command, Some(g.key), mv.ask)
  }

  function Before(c: Cluster, e: Event): DepArray {
    if e.Deliver? && e.to < |c.recs| then c.recs[e.to].deps else EMPTY_DEPS
  }

  /** The walk is one over these rows, which show the other instance. */
  ghost predicate WalkShown(g: Config, c: Cluster, key: InstanceId, r: Rec, mv: Move)
    requires !mv.e.Execute?
  {
    && |mv.rows| == g.n && RowsOk(mv.rows) && Shows(mv.rows, key, r)
    && WalkAll(mv.rows, Asks(g, mv), Probe(0, 0, Before(c, mv.e))) == Some(mv.e.p)
  }

  /** The replica that the event is at. */
  function Place(gs: Two<Config>, mv: Move): nat {
    At(Of(gs, mv.w), mv.e)
  }

  ghost predicate Can(gs: Two<Config>, s: Two<Cluster>, mv: Move) {
    var g, c, h, d := Of(gs, mv.w), Of(s, mv.w), Of(gs, !mv.w), Of(s, !mv.w);
    && Shaped(g, c) && Enabled(g, c, mv.e) && Shaped(h, d) && Place(gs, mv) < |d.recs|
    && if Walks(c, mv.e) then WalkShown(g, c, h.key, d.recs[Place(gs, mv)], mv)
       else mv.e.Execute? || mv.e.p == Probe(0, 0, EMPTY_DEPS)
  }

  ghost predicate Moves(gs: Two<Config>, s: Two<Cluster>, mv: Move, t: Two<Cluster>) {
    Can(gs, s, mv) && t == Put(s, mv.w, Next(Of(gs, mv.w), Of(s, mv.w), mv.e))
  }

  ghost predicate PairRun(gs: Two<Config>, ms: seq<Move>, ss: seq<Two<Cluster>>) {
    && |ss| == |ms| + 1 && ConfigsOk(gs) && ss[0] == Two(Start(gs.one), Start(gs.two))
    && forall i :: 0 <= i < |ms| ==> Moves(gs, ss[i], ms[i], ss[i + 1])
  }

  // ---------- each instance for itself ----------

  function EventsOf(ms: seq<Move>, w: bool): (os: seq<Option<Event>>)
    ensures |os| == |ms| && forall i :: 0 <= i < |ms| ==> os[i] == if ms[i].w == w then Some(ms[i].e) else None
  {
    if ms == [] then []
    else EventsOf(ms[..|ms| - 1], w) + [if ms[|ms| - 1].w == w then Some(ms[|ms| - 1].e) else None]
  }

  function StatesOf(ss: seq<Two<Cluster>>, w: bool): (cs: seq<Cluster>)
    ensures |cs| == |ss| && forall i :: 0 <= i < |ss| ==> cs[i] == Of(ss[i], w)
  {
    if ss == [] then [] else StatesOf(ss[..|ss| - 1], w) + [Of(ss[|ss| - 1], w)]
  }

  /** Each of the two instances goes through a run of its own. */
  lemma OwnRun(gs: Two<Config>, ms: seq<Move>, ss: seq<Two<Cluster>>, w: bool)
    requires PairRun(gs, ms, ss)
    ensures Stutters(Of(gs, w), EventsOf(ms, w), StatesOf(ss, w))
    ensures Run(Of(gs, w), Picked(EventsOf(ms, w)), Kept(EventsOf(ms, w), StatesOf(ss, w)))
  {
    hide Shaped, Enabled, Next, WalkShown, Run;
    var os, cs := EventsOf(ms, w), StatesOf(ss, w);
    forall i | 0 <= i < |os| ensures Leads(Of(gs, w), cs[i], os[i], cs[i + 1]) {
      assert Moves(gs, ss[i], ms[i], ss[i + 1]);
    }
    hide Leads;
    PickedRun(Of(gs, w), os, cs);
  }

  /** Move number k lets the leader of its instance decide. */
  ghost predicate DecidedAt(gs: Two<Config>, ms: seq<Move>, ss: seq<Two<Cluster>>, k: nat) {
    && k < |ms| && k < |ss|
    && var g, c := Of(gs, ms[k].w), Of(ss[k], ms[k].w);
       Shaped(g, c) && Enabled(g, c, ms[k].e) && Decides(g, c, ms[k].e)
  }

  /** m, sent in the first i moves, settles instance w with the report of walk number j: that of
      the leader, or of the replica that answered, whichever the decision rests on. */
  ghost predicate SettledBy(gs: Two<Config>, ms: seq<Move>, ss: seq<Two<Cluster>>, i: nat, w: bool, m: Message,
      j: nat)
  {
    && i < |ss| && i <= |ms| && m in Of(ss[i], w).sent && Settling(m.kind)
    && j < i && ms[j].w == w && Walks(Of(ss[j], w), ms[j].e) && Report(ms[j].e) == ValueOf(m)
    && exists k :: j < k < i && ms[k].w == w && DecidedAt(gs, ms, ss, k) &&
         Place(gs, ms[j]) == Walker(Of(gs, w), ms[k].e.m)
  }

  /** In every run of two instances whatever is settled is the report of one walk. */
  lemma SettledByWalk(gs: Two<Config>, ms: seq<Move>, ss: seq<Two<Cluster>>, i: nat, w: bool, m: Message)
    returns (j: nat)
    requires PairRun(gs, ms, ss) && i <= |ms| && m in Of(ss[i], w).sent && Settling(m.kind)
    ensures SettledBy(gs, ms, ss, i, w, m, j)
  {
    var g, os, cs := Of(gs, w), EventsOf(ms, w), StatesOf(ss, w);
    assert |ss| == |ms| + 1;
    hide Run, Stutters, Picked, Kept, PairRun, WalkedBy, DecidedAt, SettledBy, Walks, Report, Decides, Enabled,
         Shaped, Walker;
    OwnRun(gs, ms, ss, w);
    PickedAt(g, os, cs, i);
    var es, ks := Picked(os), Kept(os, cs);
    var a, b := SettledWalk(g, es, ks, |Picked(os[..i])|, m);
    j := PickedFrom(g, os, cs, a);
    var k := PickedFrom(g, os, cs, b);
    Sooner(os, j, k);
    Sooner(os, k, i);
    WalkedHere(gs, ms, ss, w, es, ks, a, j, Walker(g, es[b].m), ValueOf(m));
    DecidedHere(gs, ms, ss, k);
    hide Kept;
    SettledHere(gs, ms, ss, i, w, m, j, k);
  }

  lemma SettledHere(gs: Two<Config>, ms: seq<Move>, ss: seq<Two<Cluster>>, i: nat, w: bool, m: Message, j: nat, k: nat)
    requires i < |ss| && i <= |ms| && m in Of(ss[i], w).sent && Settling(m.kind)
    requires j < k < i && ms[j].w == ms[k].w == w && DecidedAt(gs, ms, ss, k)
    requires Walks(Of(ss[j], w), ms[j].e) && Report(ms[j].e) == ValueOf(m)
    requires Place(gs, ms[j]) == Walker(Of(gs, w), ms[k].e.m)
    ensures SettledBy(gs, ms, ss, i, w, m, j)
  {
    hide DecidedAt, Walks, Report, Walker;
  }

  /** Event number a of the run of one instance is move number j. */
  lemma WalkedHere(gs: Two<Config>, ms: seq<Move>, ss: seq<Two<Cluster>>, w: bool, es: seq<Event>, ks: seq<Cluster>,
      a: nat, j: nat, q: nat, v: Value)
    requires j < |ms| && j < |ss| && a < |es| && a < |ks| && ms[j].w == w && es[a] == ms[j].e && ks[a] == Of(ss[j], w)
    requires WalkedBy(Of(gs, w), es, ks, a, q, v)
    ensures Walks(Of(ss[j], w), ms[j].e) && Report(ms[j].e) == v && Place(gs, ms[j]) == q
  {
    hide Walks, Report;
  }

  lemma DecidedHere(gs: Two<Config>, ms: seq<Move>, ss: seq<Two<Cluster>>, k: nat)
    requires PairRun(gs, ms, ss) && k < |ms|
    requires var g, c := Of(gs, ms[k].w), Of(ss[k], ms[k].w);
      Shaped(g, c) && Enabled(g, c, ms[k].e) ==> Decides(g, c, ms[k].e)
    ensures DecidedAt(gs, ms, ss, k)
  {
    hide Shaped, Enabled, Decides, Next, WalkShown;
    assert Moves(gs, ss[k], ms[k], ss[k + 1]);
  }

  lemma Sooner(os: seq<Option<Event>>, i: nat, j: nat)
    requires i <= |os| && j <= |os| && |Picked(os[..i])| < |Picked(os[..j])|
    ensures i < j
  {
    if j <= i {
      PickedGrows(os, j, i);
    }
  }

  // ---------- what the walks record ----------

  /** A walk from an ordered array reports one. */
  lemma WalkSound(gs: Two<Config>, s: Two<Cluster>, mv: Move)
    requires Can(gs, s, mv) && DepsSound(Of(gs, mv.w), Of(s, mv.w))
    ensures mv.e.Execute? || DepsOk(mv.e.p.deps)
    ensures !mv.e.Execute? ==> DepsOk(Before(Of(s, mv.w), mv.e))
  {
    hide Walks, WalkAll, RowsOk, Shows, DepsOk;
    EmptyOk();
    var g, c := Of(gs, mv.w), Of(s, mv.w);
    if Walks(c, mv.e) && !mv.e.Execute? {
      WalkBeyond(mv.rows, Asks(g, mv), Probe(0, 0, Before(c, mv.e)));
    }
  }

  lemma {:induction false} PairSound(gs: Two<Config>, ms: seq<Move>, ss: seq<Two<Cluster>>, i: nat, w: bool)
    returns (v: Value)
    requires PairRun(gs, ms, ss) && i <= |ms|
    ensures Inv(Of(gs, w), Of(ss[i], w), v) && DepsSound(Of(gs, w), Of(ss[i], w))
  {
    hide Inv, Settles, Do, Next, Enabled, DepsOk, WalkShown, Walks;
    if i == 0 {
      v := (0, EMPTY_DEPS);
      StartInv(Of(gs, w), v);
      EmptyOk();
    } else {
      v := PairSound(gs, ms, ss, i - 1, w);
      var s, mv := ss[i - 1], ms[i - 1];
      assert Moves(gs, s, mv, ss[i - 1 + 1]);
      if mv.w == w {
        WalkSound(gs, s, mv);
        StepKeeps(Of(gs, w), Of(s, w), mv.e, v);
        SoundStep(Of(gs, w), Of(s, w), mv.e, v);
        v := Settles(Of(gs, w), Of(s, w), mv.e, v);
      }
    }
  }

  /** Move number j is a walk. */
  ghost predicate WalkAt(ms: seq<Move>, ss: seq<Two<Cluster>>, j: nat) {
    j < |ms| && j < |ss| && !ms[j].e.Execute? && Walks(Of(ss[j], ms[j].w), ms[j].e)
  }

  /** The offers of the walk. */
  ghost function OffersAt(gs: Two<Config>, ms: seq<Move>, j: nat): seq<Dependency>
    requires j < |ms| && !ms[j].e.Execute?
  {
    AllOffers(ms[j].rows, Asks(Of(gs, ms[j].w), ms[j]))
  }

  /** The walk leaves the other instance recorded: it was in the array it began with, or was
      offered and found a place, and no later offer pushed it out. */
  ghost predicate Records(gs: Two<Config>, ms: seq<Move>, ss: seq<Two<Cluster>>, j: nat)
    requires WalkAt(ms, ss, j)
  {
    Survives(Before(Of(ss[j], ms[j].w), ms[j].e), OffersAt(gs, ms, j), Of(gs, !ms[j].w).key)
  }

  lemma WalkRecords(gs: Two<Config>, ms: seq<Move>, ss: seq<Two<Cluster>>, j: nat)
    requires PairRun(gs, ms, ss) && WalkAt(ms, ss, j)
    ensures Holds(ms[j].e.p.deps, Of(gs, !ms[j].w).key) <==> Records(gs, ms, ss, j)
  {
    hide DepsOk, Inv, Enabled, Next, RowsOk, Shows, Survives, Holds, WalkAll, AllOffers, Walks;
    var v := PairSound(gs, ms, ss, j, ms[j].w);
    assert Moves(gs, ss[j], ms[j], ss[j + 1]);
    WalkSound(gs, ss[j], ms[j]);
    var g, c := Of(gs, ms[j].w), Of(ss[j], ms[j].w);
    WalkHolds(ms[j].rows, Asks(g, ms[j]), Probe(0, 0, Before(c, ms[j].e)), Of(gs, !ms[j].w).key);
  }

  /** When one instance depends on the other: exactly if the walk that settles it recorded it. */
  lemma SettledNames(gs: Two<Config>, ms: seq<Move>, ss: seq<Two<Cluster>>, i: nat, w: bool, m: Message, j: nat)
    requires PairRun(gs, ms, ss) && SettledBy(gs, ms, ss, i, w, m, j)
    ensures WalkAt(ms, ss, j)
    ensures Holds(m.deps, Of(gs, !w).key) <==> Records(gs, ms, ss, j)
  {
    hide PairRun, Records, Holds, DecidedAt;
    WalkRecords(gs, ms, ss, j);
  }

  /** In every run of two instances that both settle: neither depends on the other exactly if
      neither of the two walks that settle them recorded the other. */
  lemma NeitherNames(gs: Two<Config>, ms: seq<Move>, ss: seq<Two<Cluster>>, i: nat, m: Message, m': Message)
    returns (j: nat, j': nat)
    requires PairRun(gs, ms, ss) && i <= |ms|
    requires m in ss[i].one.sent && Settling(m.kind) && m' in ss[i].two.sent && Settling(m'.kind)
    ensures SettledBy(gs, ms, ss, i, false, m, j) && SettledBy(gs, ms, ss, i, true, m', j')
    ensures WalkAt(ms, ss, j) && WalkAt(ms, ss, j')
    ensures !Holds(m.deps, gs.two.key) && !Holds(m'.deps, gs.one.key) <==>
      !Records(gs, ms, ss, j) && !Records(gs, ms, ss, j')
  {
    hide PairRun, SettledBy, Records, Holds;
    j := SettledByWalk(gs, ms, ss, i, false, m);
    j' := SettledByWalk(gs, ms, ss, i, true, m');
    SettledNames(gs, ms, ss, i, false, m, j);
    SettledNames(gs, ms, ss, i, true, m', j');
  }

  // ---------- what a replica finds of the other instance ----------

  /** Where the entry of an instance stands, and that nothing else is offered under its key. */
  lemma OfferedKey(rows: seq<seq<Entry>>, u: Query, e: Entry) returns (x: nat)
    requires RowsOk(rows) && e in Indexed(rows)
    ensures e.key.replicaId < |rows| && x < |rows[e.key.replicaId]| && rows[e.key.replicaId][x] == e
    ensures (exists d :: d in AllOffers(rows, u) && d.id == e.key) <==> OfferedAt(rows[e.key.replicaId], x, u)
  {
    var r, y :| 0 <= r < |rows| && 0 <= y < |rows[r]| && rows[r][y] == e;
    x := y;
    OnlyAt(rows, e, r, x, r, x);
    hide RowsOk, AllOffers, Indexed, Met, Candidate;
    if d :| d in AllOffers(rows, u) && d.id == e.key {
      var q, z := OfferFrom(rows, u, d);
      OnlyAt(rows, e, r, x, q, z);
    }
    if OfferedAt(rows[r], x, u) {
      var d := DepOf(e);
      assert Offers(rows[r], x, u, d);
      assert SomeOffers(rows[r], u, d);
      OffersExact(rows, u, d);
    }
  }

  /** No two places hold one key, and it says in which row it is. */
  lemma OnlyAt(rows: seq<seq<Entry>>, e: Entry, r: nat, x: nat, q: nat, z: nat)
    requires RowsOk(rows) && r < |rows| && x < |rows[r]| && rows[r][x] == e
    requires q < |rows| && z < |rows[q]| && rows[q][z].key == e.key
    ensures q == r == e.key.replicaId && z == x
  {
    assert RowOk(rows[r], r) && RowOk(rows[q], q);
  }

  lemma OfferFrom(rows: seq<seq<Entry>>, u: Query, d: Dependency) returns (r: nat, x: nat)
    requires d in AllOffers(rows, u)
    ensures r < |rows| && OfferedAt(rows[r], x, u) && StandsFor(d, rows[r][x])
  {
    OffersExact(rows, u, d);
    r :| 0 <= r < |rows| && SomeOffers(rows[r], u, d);
    x :| Offers(rows[r], x, u, d);
  }

  /** What the walking replica holds of the other instance. */
  function Other(gs: Two<Config>, ms: seq<Move>, ss: seq<Two<Cluster>>, j: nat): Rec
    requires j < |ms| && j < |ss| && Place(gs, ms[j]) < |Of(ss[j], !ms[j].w).recs|
  {
    Of(ss[j], !ms[j].w).recs[Place(gs, ms[j])]
  }

  ghost predicate OffersOther(gs: Two<Config>, ms: seq<Move>, j: nat)
    requires j < |ms| && !ms[j].e.Execute?
  {
    exists d :: d in OffersAt(gs, ms, j) && d.id == Of(gs, !ms[j].w).key
  }

  /** A walk never offers an instance the replica has not heard of. One that it has heard of and
      not executed stands in the index, and is offered exactly if the walk gets down to it, its
      command is there and interferes, and the range tree lets it through. */
  lemma OtherOffered(gs: Two<Config>, ms: seq<Move>, ss: seq<Two<Cluster>>, j: nat) returns (x: nat)
    requires PairRun(gs, ms, ss) && WalkAt(ms, ss, j)
    ensures Place(gs, ms[j]) < |Of(ss[j], !ms[j].w).recs|
    ensures var r, key := Other(gs, ms, ss, j), Of(gs, !ms[j].w).key;
      && (r.status == NONE ==> !OffersOther(gs, ms, j))
      && (r.status != NONE && r.status != EXECUTED ==>
            && key.replicaId < |ms[j].rows| && x < |ms[j].rows[key.replicaId]|
            && ms[j].rows[key.replicaId][x] == EntryFor(key, r)
            && (OffersOther(gs, ms, j) <==>
                OfferedAt(ms[j].rows[key.replicaId], x, Asks(Of(gs, ms[j].w), ms[j]))))
  {
    hide Enabled, Next, RowsOk, WalkAll, AllOffers, Walks, OfferedAt, Indexed;
    assert Moves(gs, ss[j], ms[j], ss[j + 1]);
    var r, key, rows, u := Other(gs, ms, ss, j), Of(gs, !ms[j].w).key, ms[j].rows, Asks(Of(gs, ms[j].w), ms[j]);
    x := 0;
    if r.status == NONE {
      NoneOffered(rows, u, key);
    } else if r.status != EXECUTED {
      x := OfferedKey(rows, u, EntryFor(key, r));
    }
  }

  lemma NoneOffered(rows: seq<seq<Entry>>, u: Query, key: InstanceId)
    requires forall e :: e in Indexed(rows) ==> e.key != key
    ensures forall d :: d in AllOffers(rows, u) ==> d.id != key
  {
    forall d | d in AllOffers(rows, u) ensures d.id != key {
      var r, x := OfferFrom(rows, u, d);
      assert rows[r][x] in Indexed(rows);
    }
  }

  // ---------- both walks by one replica ----------

  /** A replica that has heard of an instance has heard of it for good. */
  lemma HeardStep(g: Config, s: Cluster, e: Event, q: nat)
    requires Shaped(g, s) && Enabled(g, s, e) && q < g.n
    ensures |Next(g, s, e).recs| == g.n
    ensures s.recs[q].status != NONE || (At(g, e) == q && Walks(s, e)) ==> Next(g, s, e).recs[q].status != NONE
  {
    hide HasUncommittedDeps, MergeDeps, IsInitialBallot;
  }

  lemma {:induction false} HeardStays(gs: Two<Config>, ms: seq<Move>, ss: seq<Two<Cluster>>, w: bool, q: nat, j: nat,
      k: nat)
    requires PairRun(gs, ms, ss) && j < k <= |ms| && q < Of(gs, w).n
    requires ms[j].w == w && Walks(Of(ss[j], w), ms[j].e) && Place(gs, ms[j]) == q
    ensures q < |Of(ss[k], w).recs| && Of(ss[k], w).recs[q].status != NONE
  {
    hide Enabled, Next, WalkShown, Walks;
    var s, mv := ss[k - 1], ms[k - 1];
    assert Moves(gs, s, mv, ss[k - 1 + 1]);
    if j < k - 1 {
      HeardStays(gs, ms, ss, w, q, j, k - 1);
    }
    if mv.w == w {
      HeardStep(Of(gs, w), Of(s, w), mv.e, q);
    }
  }

  /** If one replica made both settling walks, the later one finds the earlier instance. Unless
      that is executed by then, the later instance depends on it if the walk gets down to it,
      it interferes, the range tree lets it through, and no other instance takes its place. */
  lemma LaterNames(gs: Two<Config>, ms: seq<Move>, ss: seq<Two<Cluster>>, i: nat, w: bool, m: Message, j: nat,
      m': Message, j': nat) returns (x: nat)
    requires PairRun(gs, ms, ss) && SettledBy(gs, ms, ss, i, w, m, j) && SettledBy(gs, ms, ss, i, !w, m', j')
    requires j < j' && Place(gs, ms[j]) == Place(gs, ms[j'])
    ensures WalkAt(ms, ss, j') && Place(gs, ms[j']) < |Of(ss[j'], !ms[j'].w).recs|
    ensures var r, key, rows := Other(gs, ms, ss, j'), Of(gs, w).key, ms[j'].rows;
      r.status != EXECUTED ==>
        && key.replicaId < |rows| && x < |rows[key.replicaId]| && rows[key.replicaId][x] == EntryFor(key, r)
        && (OfferedAt(rows[key.replicaId], x, Asks(Of(gs, !w), ms[j'])) ==>
            Stays(Before(Of(ss[j'], !w), ms[j'].e), OffersAt(gs, ms, j'), key) ==> Holds(m'.deps, key))
  {
    hide DecidedAt, Holds, OfferedAt, Stays, Survives, AllOffers;
    SettledNames(gs, ms, ss, i, !w, m', j');
    x := OtherOffered(gs, ms, ss, j');
    PlaceBound(gs, ms, ss, j);
    HeardStays(gs, ms, ss, w, Place(gs, ms[j]), j, j');
    hide PairRun, SettledBy;
    var key := Of(gs, w).key;
    if Other(gs, ms, ss, j').status != EXECUTED && OffersOther(gs, ms, j') {
      if Stays(Before(Of(ss[j'], !w), ms[j'].e), OffersAt(gs, ms, j'), key) {
        StaysSurvives(Before(Of(ss[j'], !w), ms[j'].e), OffersAt(gs, ms, j'), key);
      }
    }
  }

  lemma PlaceBound(gs: Two<Config>, ms: seq<Move>, ss: seq<Two<Cluster>>, j: nat)
    requires PairRun(gs, ms, ss) && j < |ms|
    ensures Place(gs, ms[j]) < Of(gs, ms[j].w).n
  {
    hide Next, WalkShown, Walks;
    assert Moves(gs, ss[j], ms[j], ss[j + 1]);
  }

  // ---------- the flag of the other instance ----------

  /** COMMITTED, or on from there. */
  predicate Over(st: State) {
    st == COMMITTED || st == EXECUTED
  }

  /** What the walk offers of the other instance is flagged committed exactly if the replica holds
      it COMMITTED then. */
  lemma OtherFlag(gs: Two<Config>, ms: seq<Move>, ss: seq<Two<Cluster>>, j: nat, d: Dependency)
    requires PairRun(gs, ms, ss) && WalkAt(ms, ss, j)
    requires d in OffersAt(gs, ms, j) && d.id == Of(gs, !ms[j].w).key
    ensures Place(gs, ms[j]) < |Of(ss[j], !ms[j].w).recs|
    ensures d.committed <= 1 && (d.committed == 1 <==> Other(gs, ms, ss, j).status == COMMITTED)
    ensures Other(gs, ms, ss, j).status != EXECUTED
  {
    hide Enabled, Next, RowsOk, WalkAll, Walks, Inv, DepsSound, Interferes;
    assert Moves(gs, ss[j], ms[j], ss[j + 1]);
    var v := PairSound(gs, ms, ss, j, !ms[j].w);
    UsualStatus(Of(gs, !ms[j].w), Of(ss[j], !ms[j].w), v, Place(gs, ms[j]));
    var r, x := OfferFrom(ms[j].rows, Asks(Of(gs, ms[j].w), ms[j]), d);
    assert ms[j].rows[r][x] in Indexed(ms[j].rows);
    hide Indexed, AllOffers, Met;
    OverExact(Other(gs, ms, ss, j).status);
  }

  lemma UsualStatus(g: Config, c: Cluster, v: Value, q: nat)
    requires Inv(g, c, v) && q < |c.recs|
    ensures Usual(c.recs[q].status)
  {
  }

  lemma OverExact(st: State)
    requires Usual(st) && !IsState(st, EXECUTED)
    ensures (st >= COMMITTED <==> st == COMMITTED) && st != EXECUTED
  {
  }

  /** Flags of the other instance that a replica recorded in walks for w are true: it holds that
      instance COMMITTED or EXECUTED. */
  ghost predicate FlagsTrue(gs: Two<Config>, s: Two<Cluster>, w: bool, q: nat)
    requires q < |s.one.recs| && q < |s.two.recs|
  {
    var r := Of(s, w).recs[q];
    && (r.status == NONE ==> r.deps == EMPTY_DEPS)
    && (r.status == PRE_ACCEPTED ==> FlaggedTrue(r.deps, Of(gs, !w).key, Of(s, !w).recs[q].status))
  }

  ghost predicate FlaggedTrue(deps: DepArray, key: InstanceId, st: State) {
    forall t :: 0 <= t < MAX_DEPS && deps[t].id == key && deps[t].committed != 0 ==> Over(st)
  }

  /** What one event does to the copy of a replica other than the leader. */
  lemma OtherCopy(g: Config, r: Rec, m: Message, p: Probe)
    requires ToOthers(m.kind) || m.kind.Commit?
    ensures var out := Handle(g, r, m, p);
      && (out.rec.status == NONE ==> out.rec == r)
      && (out.rec.status == PRE_ACCEPTED ==> out.rec == r || (TakesPreAccept(r, m) && out.rec.deps == p.deps))
      && (Over(r.status) ==> Over(out.rec.status))
  {
    hide HasUncommittedDeps, IsInitialBallot;
  }

  lemma LeaderCopy(g: Config, r: Rec, m: Message, p: Probe)
    requires (ToLeader(m.kind) || m.kind.Commit?) && r.lt.Some?
    ensures Over(r.status) ==> Over(Handle(g, r, m, p).rec.status)
  {
    hide HasUncommittedDeps, MergeDeps;
  }

  lemma OverStays(g: Config, s: Cluster, e: Event, q: nat)
    requires Shaped(g, s) && Enabled(g, s, e) && q < g.n && Over(s.recs[q].status)
    ensures |Next(g, s, e).recs| == g.n && Over(Next(g, s, e).recs[q].status)
  {
    if e.Deliver? && e.to == q {
      if q == g.leader {
        LeaderCopy(g, s.recs[q], e.m, e.p);
      } else {
        OtherCopy(g, s.recs[q], e.m, e.p);
      }
      hide Handle;
    }
  }

  /** The report of a walk flags the other instance only if the replica holds it so. */
  lemma WalkTrue(gs: Two<Config>, ms: seq<Move>, ss: seq<Two<Cluster>>, j: nat)
    requires PairRun(gs, ms, ss) && WalkAt(ms, ss, j)
    requires Place(gs, ms[j]) < |ss[j].one.recs| && Place(gs, ms[j]) < |ss[j].two.recs|
    requires Place(gs, ms[j]) == Of(gs, ms[j].w).leader || FlagsTrue(gs, ss[j], ms[j].w, Place(gs, ms[j]))
    ensures FlaggedTrue(ms[j].e.p.deps, Of(gs, !ms[j].w).key, Other(gs, ms, ss, j).status)
  {
    var g, c, key := Of(gs, ms[j].w), Of(ss[j], ms[j].w), Of(gs, !ms[j].w).key;
    WalkStarts(gs, ms, ss, j);
    hide Enabled, Next, RowsOk, Inv, AllOffers, Walks, Shows, FlagsTrue;
    var deps, ds := Before(c, ms[j].e), OffersAt(gs, ms, j);
    assert Moves(gs, ss[j], ms[j], ss[j + 1]);
    WalkOffered(ms[j].rows, Asks(g, ms[j]), Probe(0, 0, deps));
    hide WalkAll;
    forall t | 0 <= t < MAX_DEPS && ms[j].e.p.deps[t].id == key && ms[j].e.p.deps[t].committed != 0
      ensures Over(Other(gs, ms, ss, j).status)
    {
      OffersFrom(deps, ds, t);
      if ms[j].e.p.deps[t] in ds {
        OtherFlag(gs, ms, ss, j, ms[j].e.p.deps[t]);
      }
    }
  }

  /** What the array that a walk begins with flags is true. */
  lemma WalkStarts(gs: Two<Config>, ms: seq<Move>, ss: seq<Two<Cluster>>, j: nat)
    requires PairRun(gs, ms, ss) && WalkAt(ms, ss, j)
    requires Place(gs, ms[j]) < |ss[j].one.recs| && Place(gs, ms[j]) < |ss[j].two.recs|
    requires Place(gs, ms[j]) == Of(gs, ms[j].w).leader || FlagsTrue(gs, ss[j], ms[j].w, Place(gs, ms[j]))
    ensures FlaggedTrue(Before(Of(ss[j], ms[j].w), ms[j].e), Of(gs, !ms[j].w).key, Other(gs, ms, ss, j).status)
  {
    hide Next, WalkShown, Inv, DepsSound, FlaggedTrue, Do;
    var w := ms[j].w;
    assert Moves(gs, ss[j], ms[j], ss[j + 1]);
    var v := PairSound(gs, ms, ss, j, w);
    UsualStatus(Of(gs, w), Of(ss[j], w), v, Place(gs, ms[j]));
    if ms[j].e.Deliver? {
      OpenStates(Of(ss[j], w).recs[ms[j].e.to], ms[j].e.m);
    }
    NothingFlagged(Of(gs, !w).key, Other(gs, ms, ss, j).status);
  }

  lemma OpenStates(r: Rec, m: Message)
    requires Usual(r.status)
    ensures TakesPreAccept(r, m) ==> r.status == NONE || r.status == PRE_ACCEPTED
  {
  }

  lemma NothingFlagged(key: InstanceId, st: State)
    ensures FlaggedTrue(EMPTY_DEPS, key, st)
  {
  }

  lemma {:induction false} PairFlags(gs: Two<Config>, ms: seq<Move>, ss: seq<Two<Cluster>>, i: nat, w: bool, q: nat)
    requires PairRun(gs, ms, ss) && i <= |ms| && q < Of(gs, w).n && q != Of(gs, w).leader
    ensures |ss[i].one.recs| == |ss[i].two.recs| == Of(gs, w).n && FlagsTrue(gs, ss[i], w, q)
  {
    hide Next, Enabled, WalkShown, Walks, FlaggedTrue, Shaped;
    if i == 0 {
      StartFlags(gs, w, q);
    } else {
      PairFlags(gs, ms, ss, i - 1, w, q);
      assert Moves(gs, ss[i - 1], ms[i - 1], ss[i - 1 + 1]);
      if ms[i - 1].w == w {
        OwnFlags(gs, ms, ss, i - 1, q);
      } else {
        OtherFlags(gs, ss[i - 1], ms[i - 1], ss[i], w, q);
      }
    }
  }

  lemma StartFlags(gs: Two<Config>, w: bool, q: nat)
    requires ConfigsOk(gs) && q < Of(gs, w).n && q != Of(gs, w).leader
    ensures var s := Two(Start(gs.one), Start(gs.two));
      |s.one.recs| == |s.two.recs| == Of(gs, w).n && FlagsTrue(gs, s, w, q)
  {
  }

  /** An event of the instance itself: only a walk brings in other flags. */
  lemma OwnFlags(gs: Two<Config>, ms: seq<Move>, ss: seq<Two<Cluster>>, j: nat, q: nat)
    requires PairRun(gs, ms, ss) && j < |ms| && q != Of(gs, ms[j].w).leader
    requires |ss[j].one.recs| == |ss[j].two.recs| == Of(gs, ms[j].w).n && q < Of(gs, ms[j].w).n
    requires FlagsTrue(gs, ss[j], ms[j].w, q)
    ensures |ss[j + 1].one.recs| == |ss[j + 1].two.recs| == Of(gs, ms[j].w).n
    ensures FlagsTrue(gs, ss[j + 1], ms[j].w, q)
  {
    hide WalkShown, FlaggedTrue;
    assert Moves(gs, ss[j], ms[j], ss[j + 1]);
    var g, c, e := Of(gs, ms[j].w), Of(ss[j], ms[j].w), ms[j].e;
    if e.Deliver? && e.to == q {
      OtherCopy(g, c.recs[q], e.m, e.p);
      hide Handle;
      if WalkAt(ms, ss, j) {
        WalkTrue(gs, ms, ss, j);
      }
    }
  }

  /** An event of the other instance: what is over there stays over. */
  lemma OtherFlags(gs: Two<Config>, s: Two<Cluster>, mv: Move, t: Two<Cluster>, w: bool, q: nat)
    requires ConfigsOk(gs) && Moves(gs, s, mv, t) && mv.w != w && q < Of(gs, w).n
    requires |s.one.recs| == |s.two.recs| == Of(gs, w).n && FlagsTrue(gs, s, w, q)
    ensures |t.one.recs| == |t.two.recs| == Of(gs, w).n && FlagsTrue(gs, t, w, q)
  {
    hide WalkShown, Do, Enabled;
    if Over(Of(s, !w).recs[q].status) {
      OverStays(Of(gs, !w), Of(s, !w), mv.e, q);
    }
  }

  /** In every run of two instances: a walk flags the other instance committed only if the replica
      holds it COMMITTED or EXECUTED. If the walk offers it, and it does unless the array it began
      with names it already, it is flagged committed exactly if the replica holds it COMMITTED. */
  lemma OtherFlagged(gs: Two<Config>, ms: seq<Move>, ss: seq<Two<Cluster>>, j: nat, t: nat)
    requires PairRun(gs, ms, ss) && WalkAt(ms, ss, j) && t < MAX_DEPS
    requires ms[j].e.p.deps[t].id == Of(gs, !ms[j].w).key
    ensures Place(gs, ms[j]) < |Of(ss[j], !ms[j].w).recs|
    ensures var d, st := ms[j].e.p.deps[t], Other(gs, ms, ss, j).status;
      && (d.committed != 0 ==> st == COMMITTED || st == EXECUTED)
      && (OffersOther(gs, ms, j) ==> (d.committed != 0 <==> st == COMMITTED))
      && (!Holds(Before(Of(ss[j], ms[j].w), ms[j].e), Of(gs, !ms[j].w).key) ==> OffersOther(gs, ms, j))
  {
    var g, q, key := Of(gs, ms[j].w), Place(gs, ms[j]), Of(gs, !ms[j].w).key;
    var deps, ds := Before(Of(ss[j], ms[j].w), ms[j].e), OffersAt(gs, ms, j);
    hide Next, Enabled, RowsOk, AllOffers, Walks, Shows, FlagsTrue, Inv, DepsOk;
    assert Moves(gs, ss[j], ms[j], ss[j + 1]);
    if q != g.leader {
      PairFlags(gs, ms, ss, j, ms[j].w, q);
    }
    WalkTrue(gs, ms, ss, j);
    WalkOffered(ms[j].rows, Asks(g, ms[j]), Probe(0, 0, deps));
    hide WalkAll;
    OffersFrom(deps, ds, t);
    if OffersOther(gs, ms, j) {
      forall d | d in ds && d.id == key
        ensures d.committed <= 1 && (d.committed == 1 <==> Other(gs, ms, ss, j).status == COMMITTED)
        ensures Other(gs, ms, ss, j).status != EXECUTED
      {
        OtherFlag(gs, ms, ss, j, d);
      }
      var v := PairSound(gs, ms, ss, j, ms[j].w);
      WalkSound(gs, ss[j], ms[j]);
      if Other(gs, ms, ss, j).status == COMMITTED {
        OffersRaise(deps, ds, key, t);
      }
    }
  }
}
