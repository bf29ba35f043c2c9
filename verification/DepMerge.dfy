/** What merging one dependency array into another leaves: exactly when it is the other. */
module DepMerges {
  import opened DepArrays
  import opened Ids
  import opened Protocol

  // ---------- what a merge does ----------

  predicate HasId(ds: seq<Dependency>, id: InstanceId) {
    exists k :: 0 <= k < |ds| && ds[k].id == id
  }

  /** How many of the reply's entries with a number above n the leader lacks. */
  function NewAbove(l: seq<Dependency>, m: seq<Dependency>, n: nat): nat {
    if m == [] then 0
    else (if !HasId(l, m[0].id) && m[0].id.instanceId > n then 1 else 0) + NewAbove(l, m[1..], n)
  }

  /** Entry j of l is pushed out: every new entry above it drops one from the end. */
  predicate Displaced(l: seq<Dependency>, m: seq<Dependency>, j: nat)
    requires j < |l|
  {
    NewAbove(l, m, l[j].id.instanceId) >= |l| - j
  }

  /** Entry j of l comes to lie where m has it at k: no smaller flag, and of the entries of the
      same number that m has before it, all stand before it in l. */
  predicate SitsAt(l: seq<Dependency>, m: seq<Dependency>, j: nat, k: nat)
    requires j < |l| && k < |m|
  {
    && m[k].id == l[j].id && m[k].committed >= l[j].committed
    && forall i :: 0 <= i < k && m[i].id.instanceId == l[j].id.instanceId ==> HasId(l[..j], m[i].id)
  }

  predicate Placed(l: seq<Dependency>, m: seq<Dependency>, j: nat)
    requires j < |l|
  {
    Displaced(l, m, j) || exists k :: 0 <= k < |m| && SitsAt(l, m, j, k)
  }

  /** Every entry of l is pushed out or has its place in m. */
  predicate Yields(l: seq<Dependency>, m: seq<Dependency>) {
    forall j :: 0 <= j < |l| ==> Placed(l, m, j)
  }

  /** Filled entries of an ordered array. */
  ghost predicate Ordered(ds: seq<Dependency>) {
    && (forall i, j :: 0 <= i < j < |ds| ==> ds[i].id.instanceId >= ds[j].id.instanceId && ds[i].id != ds[j].id)
    && (forall i :: 0 <= i < |ds| ==> ds[i].id.instanceId != 0)
  }

  /** What is left of l when the entries of m have come one after the other, each to the front
      of what was left: m meets the front of l, or goes before it and drops the last. */
  ghost predicate Gives(l: seq<Dependency>, m: seq<Dependency>) {
    if m == [] then l == []
    else if l != [] && l[0].id == m[0].id then m[0].committed >= l[0].committed && Gives(l[1..], m[1..])
    else
      && !HasId(l, m[0].id) && (l == [] || l[0].id.instanceId < m[0].id.instanceId)
      && Gives(if l == [] then l else l[..|l| - 1], m[1..])
  }

  // ---------- Gives is Yields ----------

  lemma {:induction false} NewAboveNone(l: seq<Dependency>, m: seq<Dependency>, n: nat)
    requires forall k :: 0 <= k < |m| ==> m[k].id.instanceId <= n
    ensures NewAbove(l, m, n) == 0
  {
    if m != [] {
      NewAboveNone(l, m[1..], n);
    }
  }

  /** Only ids that l has and l' lacks, or the other way round, make a difference. */
  lemma {:induction false} NewAboveSame(l: seq<Dependency>, l': seq<Dependency>, m: seq<Dependency>, n: nat)
    requires forall k :: 0 <= k < |m| && m[k].id.instanceId > n ==> (HasId(l, m[k].id) <==> HasId(l', m[k].id))
    ensures NewAbove(l, m, n) == NewAbove(l', m, n)
  {
    hide HasId;
    if m != [] {
      NewAboveSame(l, l', m[1..], n);
    }
  }

  lemma {:induction false} GivesYields(l: seq<Dependency>, m: seq<Dependency>)
    requires Ordered(l) && Ordered(m)
    ensures Gives(l, m) <==> Yields(l, m)
    decreases |m|
  {
    if m == [] {
      if l != [] {
        assert !Displaced(l, m, 0) && !Placed(l, m, 0);
      }
    } else if l == [] {
      GivesYields(l, m[1..]);
    } else if l[0].id == m[0].id {
      GivesYields(l[1..], m[1..]);
      FrontMatches(l, m);
    } else if HasId(l, m[0].id) || l[0].id.instanceId >= m[0].id.instanceId {
      FrontStays(l, m);
    } else {
      GivesYields(l[..|l| - 1], m[1..]);
      FrontGrows(l, m);
    }
  }

  lemma HasFront(l: seq<Dependency>, id: InstanceId)
    requires l != []
    ensures HasId(l, id) <==> l[0].id == id || HasId(l[1..], id)
  {
    if HasId(l[1..], id) {
      var k :| 0 <= k < |l| - 1 && l[1..][k].id == id;
      assert l[k + 1].id == id;
    }
    if k :| 0 <= k < |l| && l[k].id == id && k > 0 {
      assert l[1..][k - 1].id == id;
    }
  }

  lemma HasBack(l: seq<Dependency>, id: InstanceId)
    requires l != []
    ensures HasId(l, id) <==> l[|l| - 1].id == id || HasId(l[..|l| - 1], id)
  {
    if k :| 0 <= k < |l| && l[k].id == id && k < |l| - 1 {
      assert l[..|l| - 1][k].id == id;
    }
  }

  lemma SitsShift(l: seq<Dependency>, m: seq<Dependency>, j: nat, k: nat)
    requires Ordered(l) && Ordered(m) && 0 < j < |l| && 0 < k < |m| && l[0].id == m[0].id
    ensures SitsAt(l, m, j, k) <==> SitsAt(l[1..], m[1..], j - 1, k - 1)
  {
    hide HasId;
    assert l[..j][1..] == l[1..][..j - 1];
    forall i | 0 < i < k ensures HasId(l[..j], m[i].id) <==> HasId(l[1..][..j - 1], m[i].id) {
      HasFront(l[..j], m[i].id);
    }
    HasFront(l[..j], m[0].id);
    var m' := m[1..];
    if SitsAt(l[1..], m', j - 1, k - 1) {
      forall i | 0 < i < k && m[i].id.instanceId == l[j].id.instanceId ensures HasId(l[..j], m[i].id) {
        assert m'[i - 1] == m[i];
      }
    }
    if SitsAt(l, m, j, k) {
      forall i | 0 <= i < k - 1 && m'[i].id.instanceId == l[j].id.instanceId
        ensures HasId(l[1..][..j - 1], m'[i].id)
      {
        assert m'[i] == m[i + 1];
      }
    }
  }

  lemma DisplacedShift(l: seq<Dependency>, m: seq<Dependency>, j: nat)
    requires Ordered(l) && Ordered(m) && 0 < j < |l| && m != [] && l[0].id == m[0].id
    ensures Displaced(l, m, j) <==> Displaced(l[1..], m[1..], j - 1)
  {
    hide HasId;
    HasFront(l, m[0].id);
    forall k | 0 <= k < |m| - 1 ensures HasId(l, m[1..][k].id) <==> HasId(l[1..], m[1..][k].id) {
      HasFront(l, m[k + 1].id);
    }
    NewAboveSame(l, l[1..], m[1..], l[j].id.instanceId);
  }

  lemma FrontMatches(l: seq<Dependency>, m: seq<Dependency>)
    requires Ordered(l) && Ordered(m) && l != [] && m != [] && l[0].id == m[0].id
    ensures Yields(l, m) <==> m[0].committed >= l[0].committed && Yields(l[1..], m[1..])
  {
    var l', m' := l[1..], m[1..];
    NewAboveNone(l, m, l[0].id.instanceId);
    assert SitsAt(l, m, 0, 0) <==> m[0].committed >= l[0].committed;
    hide HasId, Displaced, SitsAt, NewAbove;
    forall j | 0 < j < |l| ensures Placed(l, m, j) <==> Placed(l', m', j - 1) {
      DisplacedShift(l, m, j);
      forall k | 0 < k < |m| ensures SitsAt(l, m, j, k) <==> SitsAt(l', m', j - 1, k - 1) {
        SitsShift(l, m, j, k);
      }
      PlacedShift(l, m, j);
    }
    assert Placed(l, m, 0) <==> m[0].committed >= l[0].committed by { PlacedFront(l, m); }
    if Yields(l', m') && Placed(l, m, 0) {
      forall j | 0 <= j < |l| ensures Placed(l, m, j) {
        assert j > 0 ==> Placed(l', m', j - 1);
      }
    }
    if Yields(l, m) {
      forall j | 0 <= j < |l'| ensures Placed(l', m', j) {
        assert Placed(l, m, j + 1);
      }
    }
  }

  lemma PlacedFront(l: seq<Dependency>, m: seq<Dependency>)
    requires Ordered(l) && Ordered(m) && l != [] && m != [] && l[0].id == m[0].id
    ensures Placed(l, m, 0) <==> m[0].committed >= l[0].committed
  {
    NewAboveNone(l, m, l[0].id.instanceId);
    assert SitsAt(l, m, 0, 0) <==> m[0].committed >= l[0].committed;
  }

  lemma PlacedShift(l: seq<Dependency>, m: seq<Dependency>, j: nat)
    requires Ordered(l) && Ordered(m) && 0 < j < |l| && m != [] && l[0].id == m[0].id
    requires Displaced(l, m, j) <==> Displaced(l[1..], m[1..], j - 1)
    requires forall k :: 0 < k < |m| ==> (SitsAt(l, m, j, k) <==> SitsAt(l[1..], m[1..], j - 1, k - 1))
    ensures Placed(l, m, j) <==> Placed(l[1..], m[1..], j - 1)
  {
    assert !SitsAt(l, m, j, 0);
    hide HasId, Displaced, SitsAt;
    var l', m', i := l[1..], m[1..], j - 1;
    if k :| 0 <= k < |m| && SitsAt(l, m, j, k) {
      assert SitsAt(l', m', i, k - 1);
    }
    if k :| 0 <= k < |m'| && SitsAt(l', m', i, k) {
      assert SitsAt(l, m, j, k + 1);
    }
  }

  lemma FrontStays(l: seq<Dependency>, m: seq<Dependency>)
    requires Ordered(l) && Ordered(m) && l != [] && m != [] && l[0].id != m[0].id
    requires l[0].id.instanceId >= m[0].id.instanceId || HasId(l, m[0].id)
    ensures !Yields(l, m)
  {
    NewAboveNone(l, m, l[0].id.instanceId);
    assert !Placed(l, m, 0);
  }

  lemma SitsGrow(l: seq<Dependency>, m: seq<Dependency>, j: nat, k: nat)
    requires Ordered(l) && Ordered(m) && j < |l| - 1 && 0 < k < |m| && l[0].id.instanceId < m[0].id.instanceId
    ensures SitsAt(l, m, j, k) <==> SitsAt(l[..|l| - 1], m[1..], j, k - 1)
  {
    hide HasId;
    assert l[..|l| - 1][..j] == l[..j];
    assert l[j].id.instanceId <= l[0].id.instanceId;
    var m' := m[1..];
    if SitsAt(l[..|l| - 1], m', j, k - 1) {
      forall i | 0 < i < k && m[i].id.instanceId == l[j].id.instanceId ensures HasId(l[..j], m[i].id) {
        assert m'[i - 1] == m[i];
      }
    }
    if SitsAt(l, m, j, k) {
      forall i | 0 <= i < k - 1 && m'[i].id.instanceId == l[j].id.instanceId ensures HasId(l[..j], m'[i].id) {
        assert m'[i] == m[i + 1];
      }
    }
  }

  lemma DisplacedGrow(l: seq<Dependency>, m: seq<Dependency>, j: nat)
    requires Ordered(l) && Ordered(m) && j < |l| && m != [] && !HasId(l, m[0].id)
    requires l[0].id.instanceId < m[0].id.instanceId
    ensures j == |l| - 1 ==> Displaced(l, m, j)
    ensures j < |l| - 1 ==> (Displaced(l, m, j) <==> Displaced(l[..|l| - 1], m[1..], j))
  {
    hide HasId;
    assert l[j].id.instanceId <= l[0].id.instanceId;
    if j < |l| - 1 {
      forall k | 0 <= k < |m| - 1 && m[1..][k].id.instanceId > l[j].id.instanceId
        ensures HasId(l, m[1..][k].id) <==> HasId(l[..|l| - 1], m[1..][k].id)
      {
        HasBack(l, m[k + 1].id);
      }
      NewAboveSame(l, l[..|l| - 1], m[1..], l[j].id.instanceId);
    }
  }

  lemma PlacedGrow(l: seq<Dependency>, m: seq<Dependency>, j: nat)
    requires Ordered(l) && Ordered(m) && j < |l| && m != [] && !HasId(l, m[0].id)
    requires l[0].id.instanceId < m[0].id.instanceId
    ensures if j == |l| - 1 then Placed(l, m, j) else Placed(l, m, j) <==> Placed(l[..|l| - 1], m[1..], j)
  {
    DisplacedGrow(l, m, j);
    assert !SitsAt(l, m, j, 0) by {
      assert HasId(l, l[j].id);
    }
    if j < |l| - 1 {
      hide HasId, Displaced, SitsAt;
      forall k | 0 < k < |m| ensures SitsAt(l, m, j, k) <==> SitsAt(l[..|l| - 1], m[1..], j, k - 1) {
        SitsGrow(l, m, j, k);
      }
      var l', m' := l[..|l| - 1], m[1..];
      if k :| 0 <= k < |m| && SitsAt(l, m, j, k) {
        assert SitsAt(l', m', j, k - 1);
      }
      if k :| 0 <= k < |m'| && SitsAt(l', m', j, k) {
        assert SitsAt(l, m, j, k + 1);
      }
    }
  }

  lemma FrontGrows(l: seq<Dependency>, m: seq<Dependency>)
    requires Ordered(l) && Ordered(m) && l != [] && m != [] && !HasId(l, m[0].id)
    requires l[0].id.instanceId < m[0].id.instanceId
    ensures Yields(l, m) <==> Yields(l[..|l| - 1], m[1..])
  {
    hide HasId, Placed;
    forall j | 0 <= j < |l|
      ensures if j == |l| - 1 then Placed(l, m, j) else Placed(l, m, j) <==> Placed(l[..|l| - 1], m[1..], j)
    {
      PlacedGrow(l, m, j);
    }
    var l', m' := l[..|l| - 1], m[1..];
    if Yields(l', m') {
      forall j | 0 <= j < |l| ensures Placed(l, m, j) {
        assert j < |l| - 1 ==> Placed(l', m', j);
      }
    }
    if Yields(l, m) {
      forall j | 0 <= j < |l'| ensures Placed(l', m', j) {
        assert Placed(l, m, j);
      }
    }
  }

  // ---------- the merge is Gives ----------

  /** The slot k of the array is about to be settled: the slots before it agree with m. */
  function Rest(x: DepArray, k: nat): seq<Dependency> {
    if k <= Count(x) then x[k..Count(x)] else []
  }

  predicate Agree(x: DepArray, m: DepArray, k: nat)
    requires k <= MAX_DEPS
  {
    x[..k] == m[..k]
  }

  lemma AgreeNext(x: DepArray, m: DepArray, k: nat)
    requires k < MAX_DEPS
    ensures Agree(x, m, k + 1) <==> Agree(x, m, k) && x[k] == m[k]
  {
    assert x[..k + 1] == x[..k] + [x[k]] && m[..k + 1] == m[..k] + [m[k]];
  }

  lemma AgreeAt(x: DepArray, m: DepArray, k: nat)
    requires k <= MAX_DEPS
    ensures Agree(x, m, k) <==> forall j :: 0 <= j < k ==> x[j] == m[j]
  {
    if forall j :: 0 <= j < k ==> x[j] == m[j] {
      assert x[..k] == m[..k];
    }
    if x[..k] == m[..k] {
      assert forall j :: 0 <= j < k ==> x[..k][j] == m[..k][j];
    }
  }

  /** Entry k of m meets the front of what is left, or goes before it. */
  predicate Lands(t: seq<Dependency>, d: Dependency) {
    if t != [] && t[0].id == d.id then d.committed >= t[0].committed
    else !HasId(t, d.id) && (t == [] || t[0].id.instanceId < d.id.instanceId)
  }

  /** What is left after it landed. */
  function Behind(t: seq<Dependency>, d: Dependency): seq<Dependency> {
    if t == [] then [] else if t[0].id == d.id then t[1..] else t[..|t| - 1]
  }

  lemma OfferLands(x: DepArray, m: DepArray, k: nat)
    requires DepsOk(x) && DepsOk(m) && k < Count(m) && Agree(x, m, k)
    ensures var y := UpdateDeps(x, m[k]).0;
      && (Agree(y, m, k + 1) <==> Lands(Rest(x, k), m[k]))
      && (Agree(y, m, k + 1) ==> Rest(y, k + 1) == Behind(Rest(x, k), m[k]))
  {
    CountSplits(x);
    CountSplits(m);
    AgreeAt(x, m, k);
    hide Count;
    var s := SlotOf(x, m[k].id);
    assert s >= k;
    if s < MAX_DEPS {
      OfferFound(x, m, k, s);
    } else {
      OfferNew(x, m, k);
    }
  }

  lemma OfferFound(x: DepArray, m: DepArray, k: nat, s: nat)
    requires DepsOk(x) && DepsOk(m) && k < Count(m) && Agree(x, m, k) && m[k].id.instanceId != 0
    requires k <= s == SlotOf(x, m[k].id) < MAX_DEPS
    ensures var y := UpdateDeps(x, m[k]).0;
      && (Agree(y, m, k + 1) <==> Lands(Rest(x, k), m[k]))
      && (Agree(y, m, k + 1) ==> Rest(y, k + 1) == Behind(Rest(x, k), m[k]))
  {
    var y, d := UpdateDeps(x, m[k]).0, m[k];
    assert forall j :: 0 <= j < MAX_DEPS && j != s ==> y[j] == x[j];
    assert y[s] == Dependency(d.id, Max(x[s].committed, d.committed));
    UpdateKeeps(x, d);
    CountSplits(x);
    SameCount(x, y);
    AgreeNext(y, m, k);
    AgreeAt(x, m, k);
    AgreeAt(y, m, k);
    hide Count, UpdateDeps, SlotOf, Agree, Lands, Behind;
    FoundLands(x, y, d, k, s, Count(x));
  }

  lemma FoundLands(x: DepArray, y: DepArray, d: Dependency, k: nat, s: nat, c: nat)
    requires k <= s < c <= MAX_DEPS && x[s].id == d.id
    requires y[s] == Dependency(d.id, Max(x[s].committed, d.committed))
    requires forall j :: 0 <= j < MAX_DEPS && j != s ==> y[j] == x[j]
    requires forall i, j :: 0 <= i < j < c ==> x[i].id != x[j].id
    ensures y[k] == d <==> Lands(x[k..c], d)
    ensures y[k] == d ==> y[k + 1..c] == Behind(x[k..c], d)
  {
    var t := x[k..c];
    assert t[0] == x[k] && t[s - k] == x[s];
    if s > k {
      assert x[k].id != x[s].id;
      assert HasId(t, d.id);
    }
  }

  lemma SameCount(x: DepArray, y: DepArray)
    requires DepsOk(x) && DepsOk(y)
    requires forall j :: 0 <= j < MAX_DEPS ==> (x[j].id.instanceId == 0 <==> y[j].id.instanceId == 0)
    ensures Count(x) == Count(y)
  {
    CountSplits(x);
    CountSplits(y);
  }

  lemma OfferNew(x: DepArray, m: DepArray, k: nat)
    requires DepsOk(x) && DepsOk(m) && k < Count(m) && Agree(x, m, k) && m[k].id.instanceId != 0
    requires SlotOf(x, m[k].id) == MAX_DEPS
    ensures var y := UpdateDeps(x, m[k]).0;
      && (Agree(y, m, k + 1) <==> Lands(Rest(x, k), m[k]))
      && (Agree(y, m, k + 1) ==> Rest(y, k + 1) == Behind(Rest(x, k), m[k]))
  {
    var y, d, i, c := UpdateDeps(x, m[k]).0, m[k], PlaceOf(x, m[k].id.instanceId), Count(x);
    AgreeNext(y, m, k);
    AgreeAt(x, m, k);
    AgreeAt(y, m, k);
    CountSplits(x);
    CountSplits(m);
    assert i >= k && k <= c;
    if i < MAX_DEPS {
      InsertCut(x, d);
    } else {
      assert y == x;
    }
    hide Count, UpdateDeps, SlotOf, PlaceOf, Agree, Lands, Behind, DepsOk;
    if i < MAX_DEPS {
      NewLands(x, y, d, k, i, c);
      assert forall j :: 0 <= j < k ==> y[j] == x[j] by { NewBefore(x, y, d, k, i, c); }
    } else {
      FullLands(x, d, k, c);
    }
  }

  lemma NewBefore(x: DepArray, y: DepArray, d: Dependency, k: nat, i: nat, c: nat)
    requires k <= i <= c <= MAX_DEPS && i < MAX_DEPS
    requires var n := if i == c then c + 1 else c; y[..n] == (x[..i] + [d] + x[i..c])[..n]
    ensures forall j :: 0 <= j < k ==> y[j] == x[j]
  {
    var n := if i == c then c + 1 else c;
    forall j | 0 <= j < k ensures y[j] == x[j] {
      assert y[..n][j] == x[j];
    }
  }

  lemma FullLands(x: DepArray, d: Dependency, k: nat, c: nat)
    requires k < c <= MAX_DEPS && x[k].id != d.id && x[k].id.instanceId >= d.id.instanceId
    ensures x[k] != d && !Lands(x[k..c], d)
  {
    assert x[k..c][0] == x[k];
  }

  lemma NewLands(x: DepArray, y: DepArray, d: Dependency, k: nat, i: nat, c: nat)
    requires k <= i <= c <= MAX_DEPS && i < MAX_DEPS
    requires forall j :: 0 <= j < MAX_DEPS ==> x[j].id != d.id
    requires forall j :: 0 <= j < i ==> x[j].id.instanceId >= d.id.instanceId
    requires i < c ==> x[i].id.instanceId < d.id.instanceId
    requires var n := if i == c then c + 1 else c; y[..n] == (x[..i] + [d] + x[i..c])[..n]
    ensures y[k] == d <==> Lands(x[k..c], d)
    ensures y[k] == d ==> y[k + 1..if i == c then c + 1 else c] == Behind(x[k..c], d)
  {
    var t, n := x[k..c], if i == c then c + 1 else c;
    assert !HasId(t, d.id);
    assert y[k] == y[..n][k];
    if k < c {
      assert t[0] == x[k];
    }
    if i == k {
      assert y[..n][k + 1..] == Behind(t, d);
      assert y[k + 1..n] == y[..n][k + 1..];
    } else {
      assert y[k] == x[k];
    }
  }

  /** The array after the reply's filled entries from k on. */
  lemma {:induction false} MergeFront(x: DepArray, d: Dependency, ds: seq<Dependency>)
    ensures MergeDeps(x, [d] + ds).0 == MergeDeps(UpdateDeps(x, d).0, ds).0
  {
    hide UpdateDeps;
    var all := [d] + ds;
    if ds == [] {
      assert all[..0] == [];
    } else {
      MergeFront(x, d, ds[..|ds| - 1]);
      assert all[..|all| - 1] == [d] + ds[..|ds| - 1];
    }
  }

  /** Offers of empty slots change nothing. */
  lemma {:induction false} MergeFilled(x: DepArray, m: DepArray, k: nat)
    requires DepsOk(m) && Count(m) <= k <= MAX_DEPS
    ensures MergeDeps(x, m[..k]).0 == MergeDeps(x, m[..Count(m)]).0
  {
    CountSplits(m);
    hide Count, UpdateDeps;
    if k > Count(m) {
      assert m[..k][..k - 1] == m[..k - 1];
      MergeFilled(x, m, k - 1);
      EmptyOffer(MergeDeps(x, m[..k - 1]).0, m[k - 1]);
    }
  }

  lemma EmptyOffer(x: DepArray, d: Dependency)
    requires d.id.instanceId == 0
    ensures UpdateDeps(x, d) == (x, false)
  {
  }

  /** An offer that ends in agreement began in agreement. */
  lemma AgreedBefore(x: DepArray, m: DepArray, k: nat)
    requires DepsOk(x) && DepsOk(m) && k < Count(m) && Agree(UpdateDeps(x, m[k]).0, m, k + 1)
    ensures Agree(x, m, k)
  {
    var y := UpdateDeps(x, m[k]).0;
    UpdateKeeps(x, m[k]);
    AgreeAt(y, m, k + 1);
    AgreeAt(x, m, k);
    assert y[k] == m[k];
    CountSplits(m);
    hide Count;
    var s, i := SlotOf(x, m[k].id), PlaceOf(x, m[k].id.instanceId);
    if s < MAX_DEPS {
      assert y[s].id == m[k].id;
    } else if i < MAX_DEPS {
      assert y[i] == m[k];
    }
  }

  lemma {:induction false} EndsAgreed(x: DepArray, m: DepArray, k: nat)
    requires DepsOk(x) && DepsOk(m) && k <= Count(m) && Agree(MergeDeps(x, m[k..Count(m)]).0, m, Count(m))
    ensures Agree(x, m, k)
    decreases MAX_DEPS - k
  {
    hide UpdateDeps, Count, DepsOk, Agree;
    if k < Count(m) {
      var y := UpdateDeps(x, m[k]).0;
      UpdateKeeps(x, m[k]);
      assert m[k..Count(m)] == [m[k]] + m[k + 1..Count(m)];
      MergeFront(x, m[k], m[k + 1..Count(m)]);
      EndsAgreed(y, m, k + 1);
      AgreedBefore(x, m, k);
    }
  }

  lemma {:induction false} MergeGives(x: DepArray, m: DepArray, k: nat)
    requires DepsOk(x) && DepsOk(m) && k <= Count(m) && Agree(x, m, k)
    ensures MergeDeps(x, m[k..Count(m)]).0 == m <==> Gives(Rest(x, k), m[k..Count(m)])
    decreases MAX_DEPS - k
  {
    hide UpdateDeps, Count, DepsOk, Agree, Rest, HasId;
    if k == Count(m) {
      MergedAll(x, m);
    } else {
      var y := UpdateDeps(x, m[k]).0;
      UpdateKeeps(x, m[k]);
      var rest := m[k + 1..Count(m)];
      assert m[k..Count(m)] == [m[k]] + rest;
      MergeFront(x, m[k], rest);
      OfferLands(x, m, k);
      if Agree(y, m, k + 1) {
        MergeGives(y, m, k + 1);
      } else if MergeDeps(y, rest).0 == m {
        assert Agree(m, m, Count(m)) by { AgreeAt(m, m, Count(m)); }
        EndsAgreed(y, m, k + 1);
      }
    }
  }

  lemma MergedAll(x: DepArray, m: DepArray)
    requires DepsOk(x) && DepsOk(m) && Agree(x, m, Count(m))
    ensures x == m <==> Rest(x, Count(m)) == []
  {
    AgreeAt(x, m, Count(m));
    CountSplits(x);
    CountSplits(m);
    hide Count;
    if Rest(x, Count(m)) == [] {
      assert forall j :: 0 <= j < MAX_DEPS ==> x[j] == m[j];
      assert x == m;
    }
  }

  function Filled(x: DepArray): seq<Dependency> {
    x[..Count(x)]
  }

  lemma FilledOrdered(x: DepArray)
    requires DepsOk(x)
    ensures Ordered(Filled(x))
  {
    CountSplits(x);
    hide Count;
  }

  /** Merging a reply into the leader's dependencies gives the reply's dependencies exactly when
      every entry of the leader's is pushed out by new entries above it, or is in the reply
      with a flag at least as high and comes to lie in the same place among equal numbers. */
  lemma MergeExact(l: DepArray, m: DepArray)
    requires DepsOk(l) && DepsOk(m)
    ensures MergeDeps(l, m).0 == m <==> Yields(Filled(l), Filled(m))
  {
    hide UpdateDeps, Count, DepsOk, MergeDeps, Gives, Yields;
    assert m[..MAX_DEPS] == m && m[0..Count(m)] == m[..Count(m)] && Rest(l, 0) == Filled(l);
    MergeFilled(l, m, MAX_DEPS);
    MergeGives(l, m, 0);
    FilledOrdered(l);
    FilledOrdered(m);
    GivesYields(Filled(l), Filled(m));
  }
}
