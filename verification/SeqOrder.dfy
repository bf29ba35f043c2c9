/** The insertion sort that orders a component by sequence number. */
module SeqOrders {
  import opened Graphs

  type Numbers = map<Vertex, nat>

  function Num(n: Numbers, v: Vertex): nat {
    if v in n then n[v] else 0
  }

  /** Puts v behind the entries of q whose number does not exceed its own. */
  function InsertBySeq(n: Numbers, q: seq<Vertex>, v: Vertex): seq<Vertex> {
    if q == [] || Num(n, q[|q| - 1]) <= Num(n, v) then q + [v]
    else InsertBySeq(n, q[..|q| - 1], v) + [q[|q| - 1]]
  }

  function SortBySeq(n: Numbers, q: seq<Vertex>): seq<Vertex> {
    if q == [] then [] else InsertBySeq(n, SortBySeq(n, q[..|q| - 1]), q[|q| - 1])
  }

  ghost predicate Ascending(n: Numbers, q: seq<Vertex>) {
    forall i, j :: 0 <= i < j < |q| ==> Num(n, q[i]) <= Num(n, q[j])
  }

  /** The entries with number k, in their order. */
  function WithNumber(n: Numbers, q: seq<Vertex>, k: nat): seq<Vertex> {
    if q == [] then []
    else WithNumber(n, q[..|q| - 1], k) + (if Num(n, q[|q| - 1]) == k then [q[|q| - 1]] else [])
  }

  lemma {:induction false} InsertMultiset(n: Numbers, q: seq<Vertex>, v: Vertex)
    ensures multiset(InsertBySeq(n, q, v)) == multiset(q) + multiset{v}
  {
    if q != [] && Num(n, q[|q| - 1]) > Num(n, v) {
      InsertMultiset(n, q[..|q| - 1], v);
      assert q == q[..|q| - 1] + [q[|q| - 1]];
    }
  }

  lemma {:induction false} InsertAscending(n: Numbers, q: seq<Vertex>, v: Vertex)
    requires Ascending(n, q)
    ensures Ascending(n, InsertBySeq(n, q, v))
    ensures forall i :: 0 <= i < |InsertBySeq(n, q, v)| ==> InsertBySeq(n, q, v)[i] == v || InsertBySeq(n, q, v)[i] in q
  {
    if q != [] && Num(n, q[|q| - 1]) > Num(n, v) {
      InsertAscending(n, q[..|q| - 1], v);
    }
  }

  lemma {:induction false} InsertStable(n: Numbers, q: seq<Vertex>, v: Vertex, k: nat)
    requires Ascending(n, q)
    ensures WithNumber(n, InsertBySeq(n, q, v), k) == WithNumber(n, q, k) + (if Num(n, v) == k then [v] else [])
  {
    var r := InsertBySeq(n, q, v);
    if q == [] || Num(n, q[|q| - 1]) <= Num(n, v) {
      assert r[..|r| - 1] == q;
    } else {
      var front, last := q[..|q| - 1], q[|q| - 1];
      InsertStable(n, front, v, k);
      assert r[..|r| - 1] == InsertBySeq(n, front, v);
    }
  }

  lemma {:induction false} SortPermutes(n: Numbers, q: seq<Vertex>)
    ensures multiset(SortBySeq(n, q)) == multiset(q)
  {
    if q != [] {
      var front, last := q[..|q| - 1], q[|q| - 1];
      SortPermutes(n, front);
      InsertMultiset(n, SortBySeq(n, front), last);
      assert q == front + [last];
    }
  }

  /** The sorted component holds the same vertices, ascending, and keeps the order of equal numbers. */
  lemma {:induction false} SortCorrect(n: Numbers, q: seq<Vertex>, k: nat)
    ensures multiset(SortBySeq(n, q)) == multiset(q)
    ensures Ascending(n, SortBySeq(n, q))
    ensures WithNumber(n, SortBySeq(n, q), k) == WithNumber(n, q, k)
  {
    SortPermutes(n, q);
    if q != [] {
      var front, last := q[..|q| - 1], q[|q| - 1];
      SortCorrect(n, front, k);
      InsertAscending(n, SortBySeq(n, front), last);
      InsertStable(n, SortBySeq(n, front), last, k);
      hide InsertBySeq, Ascending;
      assert SortBySeq(n, q) == InsertBySeq(n, SortBySeq(n, front), last);
    }
  }

  lemma SortMembers(n: Numbers, q: seq<Vertex>)
    ensures |SortBySeq(n, q)| == |q|
    ensures forall v :: v in SortBySeq(n, q) <==> v in q
  {
    SortCorrect(n, q, 0);
    assert |multiset(SortBySeq(n, q))| == |multiset(q)|;
    forall v ensures v in SortBySeq(n, q) <==> v in q {
      assert v in SortBySeq(n, q) <==> v in multiset(SortBySeq(n, q));
    }
  }

  lemma SortDistinct(n: Numbers, q: seq<Vertex>)
    requires forall i, j :: 0 <= i < j < |q| ==> q[i] != q[j]
    ensures forall i, j :: 0 <= i < j < |SortBySeq(n, q)| ==> SortBySeq(n, q)[i] != SortBySeq(n, q)[j]
  {
    var r := SortBySeq(n, q);
    SortCorrect(n, q, 0);
    DistinctOnce(q);
    hide SortBySeq;
    forall i, j | 0 <= i < j < |r| ensures r[i] != r[j] {
      OnceDistinct(r, i, j);
    }
  }

  lemma OnceDistinct(q: seq<Vertex>, i: nat, j: nat)
    requires i < j < |q| && multiset(q)[q[i]] <= 1
    ensures q[i] != q[j]
  {
    var a, b := q[..j], q[j..];
    assert q == a + b;
    assert a[i] in multiset(a) && b[0] in multiset(b);
  }

  lemma {:induction false} DistinctOnce(q: seq<Vertex>)
    requires forall i, j :: 0 <= i < j < |q| ==> q[i] != q[j]
    ensures forall v :: multiset(q)[v] <= 1
  {
    if q != [] {
      var front, last := q[..|q| - 1], q[|q| - 1];
      DistinctOnce(front);
      assert q == front + [last];
      assert last !in front;
    }
  }

  /** v is being inserted into q: the entries of q from position j on have moved one to the
      right, position j is free, and rest follows. */
  ghost predicate Shifted(n: Numbers, q: seq<Vertex>, rest: seq<Vertex>, v: Vertex, row: seq<Vertex>, j: nat) {
    && j <= |q| && |row| == |q| + 1 + |rest|
    && (forall c :: 0 <= c < j ==> row[c] == q[c])
    && (forall c :: j < c <= |q| ==> row[c] == q[c - 1])
    && (forall c :: |q| < c < |row| ==> row[c] == rest[c - |q| - 1])
    && InsertBySeq(n, q, v) == InsertBySeq(n, q[..j], v) + q[j..]
  }

  lemma ShiftStart(n: Numbers, q: seq<Vertex>, rest: seq<Vertex>, v: Vertex, row: seq<Vertex>)
    requires row == q + [v] + rest
    ensures Shifted(n, q, rest, v, row, |q|)
  {
    assert q[..|q|] == q && q[|q|..] == [];
  }

  /** A larger entry left of the free position moves into it. */
  lemma ShiftStep(n: Numbers, q: seq<Vertex>, rest: seq<Vertex>, v: Vertex, row: seq<Vertex>, j: nat)
    requires Shifted(n, q, rest, v, row, j) && j > 0 && Num(n, row[j - 1]) > Num(n, v)
    ensures Shifted(n, q, rest, v, row[j := row[j - 1]], j - 1)
  {
    var a := q[..j];
    assert a[|a| - 1] == row[j - 1] && a[..|a| - 1] == q[..j - 1];
    assert InsertBySeq(n, a, v) == InsertBySeq(n, q[..j - 1], v) + [q[j - 1]];
    assert [q[j - 1]] + q[j..] == q[j - 1..];
  }

  /** With the larger entries moved, v belongs at the free position. */
  lemma ShiftEnd(n: Numbers, q: seq<Vertex>, rest: seq<Vertex>, v: Vertex, row: seq<Vertex>, j: nat)
    requires Shifted(n, q, rest, v, row, j) && (j == 0 || Num(n, row[j - 1]) <= Num(n, v))
    ensures row[j := v] == InsertBySeq(n, q, v) + rest
  {
    var a := q[..j];
    assert j > 0 ==> a[|a| - 1] == row[j - 1];
    assert InsertBySeq(n, a, v) == a + [v];
  }

  /** The first i entries are sorted. */
  ghost function SortedTo(n: Numbers, q: seq<Vertex>, i: nat): seq<Vertex>
    requires i <= |q|
  {
    SortBySeq(n, q[..i]) + q[i..]
  }

  lemma SortFirst(n: Numbers, q: seq<Vertex>)
    ensures SortedTo(n, q, if q == [] then 0 else 1) == q
  {
    if q != [] {
      assert q[..1] == [q[0]] && q[..1][..0] == [];
      assert SortBySeq(n, q[..1]) == [q[0]];
    }
  }

  lemma SortedAll(n: Numbers, q: seq<Vertex>)
    ensures SortedTo(n, q, |q|) == SortBySeq(n, q)
  {
    assert q[..|q|] == q;
  }

  lemma SortedNext(n: Numbers, q: seq<Vertex>, i: nat)
    requires i < |q|
    ensures |SortedTo(n, q, i)| == |SortedTo(n, q, i + 1)| == |q|
    ensures SortedTo(n, q, i)[i] == q[i]
    ensures SortedTo(n, q, i + 1) == InsertBySeq(n, SortedTo(n, q, i)[..i], q[i]) + SortedTo(n, q, i)[i + 1..]
    ensures forall v :: v in SortedTo(n, q, i + 1) <==> v in q
  {
    SortMembers(n, q[..i]);
    SortMembers(n, q[..i + 1]);
    assert q[..i + 1][..i] == q[..i];
    assert q == q[..i + 1] + q[i + 1..];
  }
}
