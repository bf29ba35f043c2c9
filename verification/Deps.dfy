/** The fixed-size dependency array: what one update does to it, what every sequence of
    updates keeps true, and why the scans over it may stop early. */
module DepArrays {
  import opened Ids

  const EMPTY_DEPS: DepArray := [NO_DEP, NO_DEP, NO_DEP, NO_DEP, NO_DEP, NO_DEP, NO_DEP, NO_DEP]

  /** The first slot holding id, or the number of slots. */
  function SlotOf(deps: seq<Dependency>, id: InstanceId): (k: nat)
    ensures k <= |deps|
    ensures k < |deps| ==> deps[k].id == id
    ensures forall j :: 0 <= j < k ==> deps[j].id != id
  {
    if deps == [] || deps[0].id == id then 0 else 1 + SlotOf(deps[1..], id)
  }

  /** The first slot whose instance number is below n, or the number of slots. */
  function PlaceOf(deps: seq<Dependency>, n: nat): (k: nat)
    ensures k <= |deps|
    ensures k < |deps| ==> deps[k].id.instanceId < n
    ensures forall j :: 0 <= j < k ==> deps[j].id.instanceId >= n
  {
    if deps == [] || deps[0].id.instanceId < n then 0 else 1 + PlaceOf(deps[1..], n)
  }

  /** Slot i takes d, the filled slots behind it move up by one, and empty slots stay empty,
      so the last filled entry falls out even when there are empty slots behind it. */
  function ShiftIn(deps: DepArray, d: Dependency, i: nat): DepArray
    requires i < MAX_DEPS
  {
    seq(MAX_DEPS, j requires 0 <= j < MAX_DEPS => if j < i then deps[j] else if j == i then d else Moved(deps, j))
  }

  function Moved(deps: DepArray, j: nat): Dependency
    requires 0 < j < MAX_DEPS
  {
    if deps[j].id.instanceId == 0 then deps[j] else deps[j - 1]
  }

  /** The array after offering d, and whether it changed. */
  function UpdateDeps(deps: DepArray, d: Dependency): (DepArray, bool) {
    if d.id.instanceId == 0 then (deps, false)
    else
      var k := SlotOf(deps, d.id);
      if k < MAX_DEPS then
        if deps[k].committed < d.committed
        then (deps[k := deps[k].(committed := d.committed)], true)
        else (deps, false)
      else
        var i := PlaceOf(deps, d.id.instanceId);
        if i < MAX_DEPS then (ShiftIn(deps, d, i), true) else (deps, false)
  }

  /** Offers one after the other. */
  function OfferAll(deps: DepArray, ds: seq<Dependency>): DepArray {
    if ds == [] then deps else UpdateDeps(OfferAll(deps, ds[..|ds| - 1]), ds[|ds| - 1]).0
  }

  method UpdateInPlace(a: array<Dependency>, d: Dependency) returns (changed: bool)
    requires a.Length == MAX_DEPS
    modifies a
    ensures a[..] == UpdateDeps(old(a[..]), d).0 && changed == UpdateDeps(old(a[..]), d).1
  {
    if d.id.instanceId == 0 {
      return false;
    }
    ghost var was: DepArray := a[..];
    var i := 0;
    while i < MAX_DEPS
      invariant 0 <= i <= MAX_DEPS && a[..] == was
      invariant forall j :: 0 <= j < i ==> was[j].id != d.id
    {
      if a[i].id == d.id {
        if a[i].committed < d.committed {
          a[i] := a[i].(committed := d.committed);
          return true;
        }
        return false;
      }
      i := i + 1;
    }
    assert SlotOf(was, d.id) == MAX_DEPS;
    i := 0;
    while i < MAX_DEPS
      invariant 0 <= i <= MAX_DEPS && a[..] == was
      invariant forall j :: 0 <= j < i ==> was[j].id.instanceId >= d.id.instanceId
    {
      if a[i].id.instanceId < d.id.instanceId {
        assert PlaceOf(was, d.id.instanceId) == i;
        ShiftInPlace(a, d, i);
        return true;
      }
      i := i + 1;
    }
    return false;
  }

  /** Walks down from the last slot, copying into filled slots only. */
  method ShiftInPlace(a: array<Dependency>, d: Dependency, i: nat)
    requires a.Length == MAX_DEPS && i < MAX_DEPS
    modifies a
    ensures a[..] == ShiftIn(old(a[..]), d, i)
  {
    ghost var was: DepArray := a[..];
    var j := MAX_DEPS - 1;
    while j > i
      invariant i <= j < MAX_DEPS
      invariant forall m :: 0 <= m <= j ==> a[m] == was[m]
      invariant forall m :: j < m < MAX_DEPS ==> a[m] == Moved(was, m)
    {
      j := j - 1;
      if a[j + 1].id.instanceId != 0 {
        a[j + 1] := a[j];
      }
    }
    a[i] := d;
  }

  // ---------- what updates keep ----------

  /** Ordered by falling instance number, empty slots last, no id twice. */
  ghost predicate DepsOk(deps: DepArray) {
    && (forall i, j :: 0 <= i < j < MAX_DEPS ==> deps[i].id.instanceId >= deps[j].id.instanceId)
    && (forall i, j :: 0 <= i < j < MAX_DEPS && deps[i].id.instanceId != 0 ==> deps[i].id != deps[j].id)
    && (forall i :: 0 <= i < MAX_DEPS && deps[i].id.instanceId == 0 ==> deps[i] == NO_DEP)
  }

  /** The number of filled slots. */
  function Count(deps: DepArray): (c: nat)
    ensures c <= MAX_DEPS
    ensures c < MAX_DEPS ==> deps[c].id.instanceId == 0
    ensures forall i :: 0 <= i < c ==> deps[i].id.instanceId != 0
  {
    PlaceOf(deps, 1)
  }

  lemma CountSplits(deps: DepArray)
    requires DepsOk(deps)
    ensures forall i :: 0 <= i < MAX_DEPS ==> (i < Count(deps) <==> deps[i].id.instanceId != 0)
  {
    var c := Count(deps);
    if c < MAX_DEPS {
      assert deps[c].id.instanceId == 0;
    }
  }

  lemma UpdateKeeps(deps: DepArray, d: Dependency)
    requires DepsOk(deps)
    ensures DepsOk(UpdateDeps(deps, d).0)
    ensures Count(UpdateDeps(deps, d).0) >= Count(deps)
    ensures UpdateDeps(deps, d).0[0].id.instanceId ==
      if d.id.instanceId > deps[0].id.instanceId then d.id.instanceId else deps[0].id.instanceId
  {
    var r := UpdateDeps(deps, d).0;
    CountSplits(deps);
    if d.id.instanceId != 0 && SlotOf(deps, d.id) == MAX_DEPS && PlaceOf(deps, d.id.instanceId) < MAX_DEPS {
      ShiftKeeps(deps, d, PlaceOf(deps, d.id.instanceId));
    }
    CountSplits(r);
  }

  lemma ShiftKeeps(deps: DepArray, d: Dependency, i: nat)
    requires DepsOk(deps) && d.id.instanceId != 0 && SlotOf(deps, d.id) == MAX_DEPS
    requires i == PlaceOf(deps, d.id.instanceId) < MAX_DEPS
    ensures DepsOk(ShiftIn(deps, d, i))
    ensures forall j :: 0 <= j < MAX_DEPS && deps[j].id.instanceId != 0 ==> ShiftIn(deps, d, i)[j].id.instanceId != 0
  {
    hide SlotOf, PlaceOf;
    var r := ShiftIn(deps, d, i);
    assert forall j :: 0 <= j < MAX_DEPS ==> deps[j].id != d.id;
    forall p, q | 0 <= p < q < MAX_DEPS
      ensures r[p].id.instanceId >= r[q].id.instanceId && (r[p].id.instanceId != 0 ==> r[p].id != r[q].id)
    {
      ShiftPair(deps, d, i, p, q);
    }
  }

  lemma ShiftPair(deps: DepArray, d: Dependency, i: nat, p: nat, q: nat)
    requires DepsOk(deps) && d.id.instanceId != 0 && i < MAX_DEPS && p < q < MAX_DEPS
    requires forall j :: 0 <= j < MAX_DEPS ==> deps[j].id != d.id
    requires deps[i].id.instanceId < d.id.instanceId
    requires forall j :: 0 <= j < i ==> deps[j].id.instanceId >= d.id.instanceId
    ensures var r := ShiftIn(deps, d, i);
      r[p].id.instanceId >= r[q].id.instanceId && (r[p].id.instanceId != 0 ==> r[p].id != r[q].id)
  {
    if p > i {
      assert deps[p - 1].id.instanceId >= deps[q - 1].id.instanceId >= deps[q].id.instanceId;
    } else if q > i {
      assert deps[i].id.instanceId >= deps[q - 1].id.instanceId;
    }
  }

  /** An insertion is sorted insertion cut back: the filled slots become the old ones with d in
      front of the first smaller one, but no more of them than before, unless d is appended. */
  lemma InsertCut(deps: DepArray, d: Dependency)
    requires DepsOk(deps) && d.id.instanceId != 0 && SlotOf(deps, d.id) == MAX_DEPS
    requires PlaceOf(deps, d.id.instanceId) < MAX_DEPS
    ensures var r, c, i := UpdateDeps(deps, d).0, Count(deps), PlaceOf(deps, d.id.instanceId);
      && UpdateDeps(deps, d).1 && i <= c
      && Count(r) == (if i == c then c + 1 else c)
      && r[..Count(r)] == (deps[..i] + [d] + deps[i..c])[..Count(r)]
  {
    hide SlotOf, PlaceOf, Count, DepsOk;
    var c, i := Count(deps), PlaceOf(deps, d.id.instanceId);
    CountSplits(deps);
    CutCount(deps, d, i, c, UpdateDeps(deps, d).0);
    CutEntries(deps, d, i, c);
  }

  /** The comment in the source promises a free slot or the oldest entry's. In fact an insert
      keeps every entry only when it appends; any other one drops the last, room or no room. */
  lemma InsertKeepsAll(deps: DepArray, d: Dependency)
    requires DepsOk(deps) && d.id.instanceId != 0 && SlotOf(deps, d.id) == MAX_DEPS
    requires PlaceOf(deps, d.id.instanceId) < MAX_DEPS
    ensures (forall j :: 0 <= j < Count(deps) ==> deps[j] in UpdateDeps(deps, d).0)
      <==> PlaceOf(deps, d.id.instanceId) == Count(deps)
  {
    var r, c, i := UpdateDeps(deps, d).0, Count(deps), PlaceOf(deps, d.id.instanceId);
    CountSplits(deps);
    hide SlotOf, PlaceOf, Count;
    if i == c {
      forall j | 0 <= j < c ensures deps[j] in r {
        assert r[j] == deps[j];
      }
    } else {
      LastDropped(deps, d, i, c);
    }
  }

  lemma LastDropped(deps: DepArray, d: Dependency, i: nat, c: nat)
    requires DepsOk(deps) && i < c <= MAX_DEPS && deps[c - 1].id != d.id
    requires forall j :: 0 <= j < MAX_DEPS ==> (j < c <==> deps[j].id.instanceId != 0)
    ensures deps[c - 1] !in ShiftIn(deps, d, i)
  {
    var r := ShiftIn(deps, d, i);
    forall j | 0 <= j < MAX_DEPS ensures r[j] != deps[c - 1] {
      if j < i {
        assert deps[j].id != deps[c - 1].id;
      } else if i < j < c {
        assert deps[j - 1].id != deps[c - 1].id;
      }
    }
  }

  lemma CutEntries(deps: DepArray, d: Dependency, i: nat, c: nat)
    requires i <= c <= MAX_DEPS && i < MAX_DEPS
    requires forall j :: 0 <= j < c ==> deps[j].id.instanceId != 0
    ensures var n := if i == c then c + 1 else c; ShiftIn(deps, d, i)[..n] == (deps[..i] + [d] + deps[i..c])[..n]
  {
  }

  lemma CutCount(deps: DepArray, d: Dependency, i: nat, c: nat, r: DepArray)
    requires i <= c <= MAX_DEPS && i < MAX_DEPS && r == ShiftIn(deps, d, i) && d.id.instanceId != 0
    requires forall j :: 0 <= j < MAX_DEPS ==> (j < c <==> deps[j].id.instanceId != 0)
    ensures Count(r) == (if i == c then c + 1 else c)
  {
    var n := if i == c then c + 1 else c;
    assert forall j :: 0 <= j < n ==> r[j].id.instanceId != 0;
    if n < MAX_DEPS {
      assert r[n] == deps[n];
    }
  }

  /** The largest instance number among the offers. */
  function MaxOffered(ds: seq<Dependency>): nat {
    if ds == [] then 0
    else
      var m := MaxOffered(ds[..|ds| - 1]);
      if ds[|ds| - 1].id.instanceId > m then ds[|ds| - 1].id.instanceId else m
  }

  /** Whatever is offered to an empty array, it stays ordered and without repetition, never
      loses filled slots, and leads with the largest number ever offered. */
  lemma {:induction false} OffersKeep(ds: seq<Dependency>, n: nat)
    requires n <= |ds|
    ensures DepsOk(OfferAll(EMPTY_DEPS, ds))
    ensures OfferAll(EMPTY_DEPS, ds)[0].id.instanceId == MaxOffered(ds)
    ensures Count(OfferAll(EMPTY_DEPS, ds[..n])) <= Count(OfferAll(EMPTY_DEPS, ds))
    decreases |ds|
  {
    hide Count, UpdateDeps;
    if n == |ds| {
      assert ds[..n] == ds;
    }
    if ds != [] {
      var front := ds[..|ds| - 1];
      var m := if n <= |front| then n else |front|;
      OffersKeep(front, m);
      UpdateKeeps(OfferAll(EMPTY_DEPS, front), ds[|ds| - 1]);
      assert n <= |front| ==> front[..n] == ds[..n];
    }
  }

  // ---------- what one update answers ----------

  /** Offering d changes nothing: it is empty; or it is recorded with a flag at least as high; or
      it is not recorded, and no slot is free or holds a smaller number. */
  ghost predicate Absorbs(deps: DepArray, d: Dependency) {
    || d.id.instanceId == 0
    || (exists j :: 0 <= j < MAX_DEPS && deps[j].id == d.id && deps[j].committed >= d.committed)
    || (forall j :: 0 <= j < MAX_DEPS ==> deps[j].id != d.id && deps[j].id.instanceId >= d.id.instanceId)
  }

  /** An update says that it changed the array exactly if it did. */
  lemma UpdateAnswer(deps: DepArray, d: Dependency)
    requires DepsOk(deps)
    ensures UpdateDeps(deps, d).1 <==> !Absorbs(deps, d)
    ensures UpdateDeps(deps, d).1 <==> UpdateDeps(deps, d).0 != deps
  {
    var k, i := SlotOf(deps, d.id), PlaceOf(deps, d.id.instanceId);
    if d.id.instanceId != 0 {
      if k < MAX_DEPS {
        assert forall j :: 0 <= j < MAX_DEPS && deps[j].id == d.id ==> j == k;
        assert deps[k].committed < d.committed ==> UpdateDeps(deps, d).0[k] != deps[k];
      } else {
        assert forall j :: 0 <= j < MAX_DEPS ==> deps[j].id != d.id;
        assert i < MAX_DEPS ==> UpdateDeps(deps, d).0[i] == d;
      }
    }
  }

  /** An update of what is recorded raises its flag, and touches nothing else. */
  lemma UpdateRaises(deps: DepArray, d: Dependency, k: nat)
    requires DepsOk(deps) && d.id.instanceId != 0 && k < MAX_DEPS && deps[k].id == d.id
    ensures UpdateDeps(deps, d).0 ==
      deps[k := Dependency(d.id, if deps[k].committed < d.committed then d.committed else deps[k].committed)]
    ensures UpdateDeps(deps, d).1 <==> deps[k].committed < d.committed
  {
    SlotFound(deps, d.id, k);
    assert deps[k := deps[k]] == deps;
  }

  /** Nothing gets into the array but what was there or was offered. */
  lemma {:induction false} OffersFrom(deps: DepArray, ds: seq<Dependency>, j: nat)
    requires j < MAX_DEPS
    ensures OfferAll(deps, ds)[j] in deps || OfferAll(deps, ds)[j] in ds
  {
    if ds != [] {
      var n := |ds| - 1;
      var was := OfferAll(deps, ds[..n]);
      UpdateFrom(was, ds[n], j);
      hide UpdateDeps;
      if OfferAll(deps, ds)[j] != ds[n] {
        var i :| 0 <= i < MAX_DEPS && was[i] == OfferAll(deps, ds)[j];
        OffersFrom(deps, ds[..n], i);
      }
    }
  }

  /** An update brings nothing into the array but what was offered. */
  lemma UpdateFrom(deps: DepArray, d: Dependency, j: nat)
    requires j < MAX_DEPS
    ensures UpdateDeps(deps, d).0[j] == d || UpdateDeps(deps, d).0[j] in deps
  {
    var k, i := SlotOf(deps, d.id), PlaceOf(deps, d.id.instanceId);
    if k == MAX_DEPS && i < MAX_DEPS && j > i {
      assert Moved(deps, j) in deps;
    }
  }

  /** What is offered as committed, whenever it is offered, and is recorded in the end, is
      recorded as committed. */
  lemma {:induction false} OffersRaise(deps: DepArray, ds: seq<Dependency>, id: InstanceId, j: nat)
    requires DepsOk(deps) && id.instanceId != 0 && j < MAX_DEPS && OfferAll(deps, ds)[j].id == id
    requires (exists d :: d in ds && d.id == id) && forall d :: d in ds && d.id == id ==> d.committed != 0
    ensures OfferAll(deps, ds)[j].committed != 0
  {
    hide UpdateDeps, DepsOk;
    var n := |ds| - 1;
    var was, d := OfferAll(deps, ds[..n]), ds[n];
    OffersOk(deps, ds[..n]);
    assert ds == ds[..n] + [d];
    if d.id == id {
      RaisedAt(was, d, j);
    } else {
      UpdateFrom(was, d, j);
      var i :| 0 <= i < MAX_DEPS && was[i] == OfferAll(deps, ds)[j];
      OffersRaise(deps, ds[..n], id, i);
    }
  }

  lemma RaisedAt(deps: DepArray, d: Dependency, j: nat)
    requires DepsOk(deps) && d.id.instanceId != 0 && d.committed != 0 && j < MAX_DEPS
    requires UpdateDeps(deps, d).0[j].id == d.id
    ensures UpdateDeps(deps, d).0[j].committed != 0
  {
    var k := SlotOf(deps, d.id);
    if k < MAX_DEPS {
      UpdateRaises(deps, d, k);
      if deps[j].id == d.id {
        SlotFound(deps, d.id, j);
      }
    } else {
      UpdateFrom(deps, d, j);
      assert forall i :: 0 <= i < MAX_DEPS ==> deps[i].id != d.id;
    }
  }

  // ---------- what is left after many offers ----------

  /** The array names id. */
  ghost predicate Holds(deps: DepArray, id: InstanceId) {
    id.instanceId != 0 && exists j :: 0 <= j < MAX_DEPS && deps[j].id == id
  }

  /** Offering d makes id, the last of the filled slots, fall out: d is new and goes above. */
  ghost predicate Pushes(deps: DepArray, d: Dependency, id: InstanceId) {
    && d.id.instanceId != 0 && SlotOf(deps, d.id) == MAX_DEPS
    && PlaceOf(deps, d.id.instanceId) < Count(deps) && deps[Count(deps) - 1].id == id
  }

  /** There is a slot for id, or a smaller number to take one from. */
  ghost predicate Fits(deps: DepArray, id: InstanceId) {
    id.instanceId != 0 && PlaceOf(deps, id.instanceId) < MAX_DEPS
  }

  lemma HoldsSlot(deps: DepArray, id: InstanceId)
    ensures Holds(deps, id) <==> id.instanceId != 0 && SlotOf(deps, id) < MAX_DEPS
  {
  }

  /** What one offer does to the name id. */
  lemma OfferHolds(deps: DepArray, d: Dependency, id: InstanceId)
    requires DepsOk(deps)
    ensures Holds(UpdateDeps(deps, d).0, id) <==>
      if d.id == id then Holds(deps, id) || Fits(deps, id) else Holds(deps, id) && !Pushes(deps, d, id)
    ensures d.id == id ==> !Pushes(deps, d, id)
  {
    var r := UpdateDeps(deps, d).0;
    HoldsSlot(deps, id);
    HoldsSlot(r, id);
    if d.id.instanceId != 0 && SlotOf(deps, d.id) == MAX_DEPS {
      var i := PlaceOf(deps, d.id.instanceId);
      if i < MAX_DEPS {
        if d.id == id {
          assert r[i].id == id;
        } else {
          ShiftHolds(deps, d, i, Count(deps), id);
        }
      }
    } else {
      SameNames(deps, d, id);
    }
  }

  /** An offer of what is there, or of nothing, leaves the names alone. */
  lemma SameNames(deps: DepArray, d: Dependency, id: InstanceId)
    requires d.id.instanceId == 0 || SlotOf(deps, d.id) < MAX_DEPS
    ensures Holds(UpdateDeps(deps, d).0, id) <==> Holds(deps, id)
  {
    var r := UpdateDeps(deps, d).0;
    assert forall j :: 0 <= j < MAX_DEPS ==> r[j].id == deps[j].id;
  }

  lemma ShiftHolds(deps: DepArray, d: Dependency, i: nat, c: nat, id: InstanceId)
    requires DepsOk(deps) && i < MAX_DEPS && d.id != id && c == Count(deps) && i <= c
    ensures Holds(ShiftIn(deps, d, i), id) <==> Holds(deps, id) && !(i < c && deps[c - 1].id == id)
  {
    var r := ShiftIn(deps, d, i);
    CountSplits(deps);
    hide Count;
    if Holds(deps, id) && !(i < c && deps[c - 1].id == id) {
      var j :| 0 <= j < MAX_DEPS && deps[j].id == id;
      assert j < c;
      assert r[if j < i then j else j + 1].id == id;
    }
    if Holds(r, id) {
      var j :| 0 <= j < MAX_DEPS && r[j].id == id;
      assert deps[if j < i || deps[j].id.instanceId == 0 then j else j - 1].id == id;
    }
  }

  /** After t offers id is in the array: it was there from the start, or it was the last of the
      t and found a place. */
  ghost predicate Enters(deps: DepArray, ds: seq<Dependency>, t: nat, id: InstanceId) {
    if t == 0 then Holds(deps, id) else t <= |ds| && ds[t - 1].id == id && Fits(OfferAll(deps, ds[..t - 1]), id)
  }

  /** None of the offers after the first t pushes id out. */
  ghost predicate Safe(deps: DepArray, ds: seq<Dependency>, t: nat, id: InstanceId) {
    forall k :: t <= k < |ds| ==> !Pushes(OfferAll(deps, ds[..k]), ds[k], id)
  }

  /** id enters, and nothing offered afterwards pushes it out. */
  ghost predicate Survives(deps: DepArray, ds: seq<Dependency>, id: InstanceId) {
    exists t: nat :: Enters(deps, ds, t, id) && Safe(deps, ds, t, id)
  }

  lemma {:induction false} OffersOk(deps: DepArray, ds: seq<Dependency>)
    requires DepsOk(deps)
    ensures DepsOk(OfferAll(deps, ds))
  {
    hide UpdateDeps, DepsOk;
    if ds != [] {
      OffersOk(deps, ds[..|ds| - 1]);
      UpdateKeeps(OfferAll(deps, ds[..|ds| - 1]), ds[|ds| - 1]);
    }
  }

  lemma {:induction false} OffersJoin(deps: DepArray, ds: seq<Dependency>, more: seq<Dependency>)
    ensures OfferAll(deps, ds + more) == OfferAll(OfferAll(deps, ds), more)
  {
    hide UpdateDeps;
    if more == [] {
      assert ds + more == ds;
    } else {
      var n := |more| - 1;
      OffersJoin(deps, ds, more[..n]);
      assert (ds + more)[..|ds + more| - 1] == ds + more[..n];
    }
  }

  /** One more offer: what is safe and what enters. */
  lemma OneMore(deps: DepArray, ds: seq<Dependency>, t: nat, id: InstanceId)
    requires t < |ds|
    ensures var n := |ds| - 1;
      && (Enters(deps, ds, t, id) <==> Enters(deps, ds[..n], t, id))
      && (Safe(deps, ds, t, id) <==> Safe(deps, ds[..n], t, id) && !Pushes(OfferAll(deps, ds[..n]), ds[n], id))
  {
    hide OfferAll, Pushes, Fits, Holds;
    var n := |ds| - 1;
    forall k | 0 <= k <= n ensures ds[..n][..k] == ds[..k] {
    }
  }

  lemma SurvivesNext(deps: DepArray, ds: seq<Dependency>, id: InstanceId)
    requires ds != []
    ensures var n := |ds| - 1;
      Survives(deps, ds, id) <==>
        || (Survives(deps, ds[..n], id) && !Pushes(OfferAll(deps, ds[..n]), ds[n], id))
        || Enters(deps, ds, n + 1, id)
  {
    var n := |ds| - 1;
    assert Safe(deps, ds, n + 1, id);
    forall t: nat ensures Enters(deps, ds, t, id) ==> t <= n + 1
      ensures Enters(deps, ds[..n], t, id) ==> t <= n
    {
    }
    hide OfferAll, Pushes, Enters, Safe;
    if t: nat :| Enters(deps, ds[..n], t, id) && Safe(deps, ds[..n], t, id) {
      OneMore(deps, ds, t, id);
    }
    if t: nat :| Enters(deps, ds, t, id) && Safe(deps, ds, t, id) {
      if t <= n {
        OneMore(deps, ds, t, id);
      }
    }
  }

  /** After any offers to an ordered array, it names exactly what survives. */
  lemma {:induction false} HeldExactly(deps: DepArray, ds: seq<Dependency>, id: InstanceId)
    requires DepsOk(deps)
    ensures Holds(OfferAll(deps, ds), id) <==> Survives(deps, ds, id)
  {
    hide UpdateDeps, Pushes, Fits, Holds, DepsOk, Survives;
    if ds == [] {
      SurvivesNone(deps, id);
    } else {
      var n := |ds| - 1;
      HeldExactly(deps, ds[..n], id);
      OffersOk(deps, ds[..n]);
      OfferHolds(OfferAll(deps, ds[..n]), ds[n], id);
      SurvivesNext(deps, ds, id);
    }
  }

  lemma SurvivesNone(deps: DepArray, id: InstanceId)
    ensures Survives(deps, [], id) <==> Holds(deps, id)
  {
    hide OfferAll, Pushes, Fits, Holds;
    assert Safe(deps, [], 0, id);
  }

  /** Wherever id is offered it finds a place, and nothing offered later pushes it out. */
  ghost predicate Stays(deps: DepArray, ds: seq<Dependency>, id: InstanceId) {
    forall t: nat :: t < |ds| && ds[t].id == id ==> Fits(OfferAll(deps, ds[..t]), id) && Safe(deps, ds, t + 1, id)
  }

  lemma StaysSurvives(deps: DepArray, ds: seq<Dependency>, id: InstanceId)
    requires Stays(deps, ds, id) && exists d :: d in ds && d.id == id
    ensures Survives(deps, ds, id)
  {
    hide OfferAll, Fits, Safe;
    var d :| d in ds && d.id == id;
    var t: nat :| t < |ds| && ds[t] == d;
    assert Enters(deps, ds, t + 1, id);
  }

  /** Offering the same dependency again changes nothing. */
  lemma OfferTwice(deps: DepArray, d: Dependency)
    requires DepsOk(deps)
    ensures UpdateDeps(UpdateDeps(deps, d).0, d) == (UpdateDeps(deps, d).0, false)
  {
    var r := UpdateDeps(deps, d).0;
    UpdateKeeps(deps, d);
    if d.id.instanceId != 0 {
      var k, i := SlotOf(deps, d.id), PlaceOf(deps, d.id.instanceId);
      if k < MAX_DEPS {
        assert r[k].id == d.id && r[k].committed >= d.committed;
        SlotFound(r, d.id, k);
      } else if i < MAX_DEPS {
        assert r[i] == d;
        SlotFound(r, d.id, i);
      }
    }
  }

  lemma SlotFound(deps: DepArray, id: InstanceId, k: nat)
    requires DepsOk(deps) && id.instanceId != 0 && k < MAX_DEPS && deps[k].id == id
    ensures SlotOf(deps, id) == k
  {
  }

  // ---------- scans ----------

  /** Some filled slot is flagged uncommitted. */
  ghost predicate SomeUncommitted(deps: DepArray) {
    exists i :: 0 <= i < MAX_DEPS && deps[i].id.instanceId != 0 && deps[i].committed == 0
  }

  /** The scan: it answers at the first empty slot. */
  function HasUncommittedFrom(deps: DepArray, i: nat): bool
    requires i <= MAX_DEPS
    decreases MAX_DEPS - i
  {
    if i == MAX_DEPS || deps[i].id.instanceId == 0 then false
    else deps[i].committed == 0 || HasUncommittedFrom(deps, i + 1)
  }

  function HasUncommittedDeps(deps: DepArray): bool {
    HasUncommittedFrom(deps, 0)
  }

  /** The scan: it answers at the first slot of the replica. */
  function LtDepFrom(rid: nat, deps: DepArray, i: nat): nat
    requires i <= MAX_DEPS
    decreases MAX_DEPS - i
  {
    if i == MAX_DEPS then 0
    else if deps[i].id.replicaId == rid then deps[i].id.instanceId
    else LtDepFrom(rid, deps, i + 1)
  }

  function LtDepReplica(rid: nat, deps: DepArray): nat {
    LtDepFrom(rid, deps, 0)
  }

  method ScanUncommitted(deps: DepArray) returns (r: bool)
    ensures r == HasUncommittedDeps(deps)
  {
    var dc := 0;
    while dc < MAX_DEPS
      invariant 0 <= dc <= MAX_DEPS
      invariant HasUncommittedDeps(deps) == HasUncommittedFrom(deps, dc)
    {
      if deps[dc].id.instanceId == 0 {
        return false;
      }
      if deps[dc].committed == 0 {
        return true;
      }
      dc := dc + 1;
    }
    return false;
  }

  method ScanReplica(rid: nat, deps: DepArray) returns (r: nat)
    ensures r == LtDepReplica(rid, deps)
  {
    var i := 0;
    while i < MAX_DEPS
      invariant 0 <= i <= MAX_DEPS
      invariant LtDepReplica(rid, deps) == LtDepFrom(rid, deps, i)
    {
      if deps[i].id.replicaId == rid {
        return deps[i].id.instanceId;
      }
      i := i + 1;
    }
    return 0;
  }

  lemma {:induction false} UncommittedFrom(deps: DepArray, i: nat)
    requires DepsOk(deps) && i <= MAX_DEPS
    ensures HasUncommittedFrom(deps, i) <==>
      exists j :: i <= j < MAX_DEPS && deps[j].id.instanceId != 0 && deps[j].committed == 0
    decreases MAX_DEPS - i
  {
    if i < MAX_DEPS && deps[i].id.instanceId != 0 {
      UncommittedFrom(deps, i + 1);
    }
  }

  /** On an ordered array the early exits lose nothing: the first scan finds an uncommitted
      dependency exactly when there is one. */
  lemma UncommittedExact(deps: DepArray)
    requires DepsOk(deps)
    ensures HasUncommittedDeps(deps) <==> SomeUncommitted(deps)
  {
    UncommittedFrom(deps, 0);
  }

  lemma {:induction false} LtDepFromMax(rid: nat, deps: DepArray, i: nat)
    requires DepsOk(deps) && i <= MAX_DEPS
    ensures forall j :: i <= j < MAX_DEPS && deps[j].id.replicaId == rid ==>
      deps[j].id.instanceId <= LtDepFrom(rid, deps, i)
    ensures LtDepFrom(rid, deps, i) == 0 ||
      exists j :: i <= j < MAX_DEPS && deps[j].id == InstanceId(rid, LtDepFrom(rid, deps, i))
    decreases MAX_DEPS - i
  {
    if i < MAX_DEPS {
      if deps[i].id.replicaId == rid {
        assert deps[i].id == InstanceId(rid, LtDepFrom(rid, deps, i));
      } else {
        LtDepFromMax(rid, deps, i + 1);
      }
    }
  }

  /** The second scan returns the largest instance number recorded for the replica, 0 if none. */
  lemma LtDepMax(rid: nat, deps: DepArray)
    requires DepsOk(deps)
    ensures forall j :: 0 <= j < MAX_DEPS && deps[j].id.replicaId == rid ==>
      deps[j].id.instanceId <= LtDepReplica(rid, deps)
    ensures LtDepReplica(rid, deps) == 0 ||
      exists j :: 0 <= j < MAX_DEPS && deps[j].id == InstanceId(rid, LtDepReplica(rid, deps))
  {
    LtDepFromMax(rid, deps, 0);
  }
}
