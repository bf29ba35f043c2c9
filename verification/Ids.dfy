/** Instance ids, dependencies, instance states and the 64-bit table key of an id. */
module Ids {

  datatype InstanceId = InstanceId(replicaId: nat, instanceId: nat)

  /** A zero instanceId marks an empty slot. */
  datatype Dependency = Dependency(id: InstanceId, committed: nat)

  const MAX_DEPS: nat := 8

  type DepArray = d: seq<Dependency> | |d| == MAX_DEPS witness seq(MAX_DEPS, _ => NO_DEP)

  const NO_DEP := Dependency(InstanceId(0, 0), 0)

  /** The instance states are single bits, so that a set of states is a mask. */
  type State = bv8

  const NONE: State := 0x01
  const PRE_ACCEPTED: State := 0x02
  const PRE_ACCEPTED_EQ: State := 0x04
  const ACCEPTED: State := 0x08
  const PREPARING: State := 0x10
  const TRY_PRE_ACCEPTING: State := 0x20
  const COMMITTED: State := 0x40
  const EXECUTED: State := 0x80

  function Max(a: nat, b: nat): nat {
    if a > b then a else b
  }

  predicate IsState(a: State, mask: State) {
    a & mask != 0
  }

  const TWO64: nat := 0x1_0000_0000_0000_0000

  /** Bitwise or of two unsigned words. */
  function Or(a: nat, b: nat): nat {
    if a == 0 && b == 0 then 0
    else 2 * Or(a / 2, b / 2) + (if a % 2 == 1 || b % 2 == 1 then 1 else 0)
  }

  /** Bitwise and of two unsigned words. */
  function And(a: nat, b: nat): (r: nat)
    ensures r <= b
  {
    if a == 0 || b == 0 then 0
    else 2 * And(a / 2, b / 2) + (if a % 2 == 1 && b % 2 == 1 then 1 else 0)
  }

  function Pow2(k: nat): nat {
    if k == 0 then 1 else 2 * Pow2(k - 1)
  }

  /** The 64-bit key under which an id is hashed: its number shifted left, or-ed with its replica. */
  function DhKey(id: InstanceId): nat {
    Or((id.instanceId * 0x1_0000) % TWO64, id.replicaId % TWO64)
  }

  /** The ids whose two halves do not run into each other. */
  predicate Fits(id: InstanceId) {
    id.replicaId < 0x1_0000 && id.instanceId < 0x1_0000_0000_0000
  }

  lemma {:induction false} OrZero(a: nat)
    ensures Or(a, 0) == a
  {
    if a > 0 {
      OrZero(a / 2);
    }
  }

  /** Or-ing into the bits that a shift freed is addition. */
  lemma {:induction false} OrShifted(a: nat, b: nat, k: nat)
    requires b < Pow2(k)
    ensures Or(a * Pow2(k), b) == a * Pow2(k) + b
    decreases k
  {
    if k == 0 {
      OrZero(a);
    } else {
      var m := a * Pow2(k - 1);
      assert a * Pow2(k) == 2 * m;
      OrShifted(a, b / 2, k - 1);
    }
  }

  lemma Pow2Sixteen()
    ensures Pow2(16) == 0x1_0000
  {
    assert Pow2(8) == 0x100;
  }

  lemma DhKeyValue(id: InstanceId)
    requires Fits(id)
    ensures DhKey(id) == id.instanceId * 0x1_0000 + id.replicaId
  {
    hide Or;
    Pow2Sixteen();
    hide Pow2;
    OrShifted(id.instanceId, id.replicaId, 16);
  }

  /** Two ids in range share a table key only if they are the same id. */
  lemma DhKeyInjective(x: InstanceId, y: InstanceId)
    requires Fits(x) && Fits(y) && DhKey(x) == DhKey(y)
    ensures x == y
  {
    hide DhKey;
    DhKeyValue(x);
    DhKeyValue(y);
  }

  /** The range is needed: replica 2^16 of instance 0 meets replica 0 of instance 1. */
  lemma DhKeyCollides()
    ensures DhKey(InstanceId(0x1_0000, 0)) == DhKey(InstanceId(0, 1))
  {
    OrZero(0x1_0000);
    OrSymmetric(0, 0x1_0000);
  }

  lemma {:induction false} OrSymmetric(a: nat, b: nat)
    ensures Or(a, b) == Or(b, a)
  {
    if a != 0 || b != 0 {
      OrSymmetric(a / 2, b / 2);
    }
  }

  lemma Pow2Positive(k: nat)
    ensures Pow2(k) > 0
  {
  }

  /** And-ing with a mask of k ones is the remainder by 2^k. */
  lemma {:induction false} AndMask(a: nat, k: nat)
    ensures Pow2(k) > 0 && And(a, Pow2(k) - 1) == a % Pow2(k)
    decreases k
  {
    Pow2Positive(k);
    if k > 0 {
      Pow2Positive(k - 1);
      AndMask(a / 2, k - 1);
      HalfMod(a, Pow2(k - 1));
      AndHalf(a, Pow2(k) - 1);
    } else {
      ModUnique(a, 1, a, 0);
    }
  }

  lemma AndHalf(a: nat, b: nat)
    requires b % 2 == 1
    ensures And(a, b) == 2 * And(a / 2, b / 2) + a % 2
  {
    if a == 0 {
      assert And(a / 2, b / 2) == 0;
    }
  }

  lemma HalfMod(a: nat, m: nat)
    requires m > 0
    ensures 2 * ((a / 2) % m) + a % 2 == a % (2 * m)
  {
    var h := a / 2;
    var q, r := h / m, h % m;
    DivSplit(h, m);
    assert q * (2 * m) == 2 * (q * m);
    ModUnique(a, 2 * m, q, 2 * r + a % 2);
  }

  lemma DivSplit(a: nat, d: nat)
    requires d > 0
    ensures a == (a / d) * d + a % d && a % d < d
  {
  }

  lemma MulAtLeast(k: nat, d: nat)
    requires k > 0
    ensures k * d >= d
  {
    assert k * d == (k - 1) * d + d;
  }

  lemma ModUnique(a: nat, d: nat, q: nat, r: nat)
    requires d > 0 && r < d && a == q * d + r
    ensures a % d == r
  {
    DivSplit(a, d);
    var p, s := a / d, a % d;
    assert p > q ==> (p - q) * d == p * d - q * d;
    assert q > p ==> (q - p) * d == q * d - p * d;
    if p != q {
      MulAtLeast(if p > q then p - q else q - p, d);
    }
  }
}
